/**
 * ANSI styles of the pretty printer (lib/gop/style.go): a style is a pair
 * of SGR codes that switch it on and off; `stylize` wraps every line of a
 * string in them, `StripANSI` and `VisualizeANSI` remove or spell out the
 * codes, and `FixNestedStyle` turns nested styles into a flat sequence.
 *
 * The regular expressions are written as scanners: `RegANSI`
 * (`ESC [ digits m`) as `CodeAt`, and `\r?\n` as `SplitCRLF` and
 * `FirstNewline`. `NoStyle`, which the Go code computes from the
 * environment and the `tput` command, is a parameter.
 */
module GopStyle {
  import opened Strings
  import GopColor

  /** `Style`: the code that sets it and the code that unsets it. */
  datatype Style = Style(Set: string, Unset: string)

  const Esc: char := '\U{1b}'

  /** The SGR code `ESC[<n>m`. */
  function Sgr(n: nat): string {
    [Esc, '['] + NatToString(n) + "m"
  }

  const Bold: Style := Style(Sgr(1), Sgr(21))
  const Faint: Style := Style(Sgr(2), Sgr(22))
  const Italic: Style := Style(Sgr(3), Sgr(23))
  const Underline: Style := Style(Sgr(4), Sgr(24))

  const Black: Style := Style(Sgr(30), Sgr(39))
  const Red: Style := Style(Sgr(31), Sgr(39))
  const Green: Style := Style(Sgr(32), Sgr(39))
  const Yellow: Style := Style(Sgr(33), Sgr(39))
  const Blue: Style := Style(Sgr(34), Sgr(39))
  const Magenta: Style := Style(Sgr(35), Sgr(39))
  const Cyan: Style := Style(Sgr(36), Sgr(39))
  const White: Style := Style(Sgr(37), Sgr(39))

  const BgBlack: Style := Style(Sgr(40), Sgr(49))
  const BgRed: Style := Style(Sgr(41), Sgr(49))
  const BgGreen: Style := Style(Sgr(42), Sgr(49))
  const BgYellow: Style := Style(Sgr(43), Sgr(49))
  const BgBlue: Style := Style(Sgr(44), Sgr(49))
  const BgMagenta: Style := Style(Sgr(45), Sgr(49))
  const BgCyan: Style := Style(Sgr(46), Sgr(49))
  const BgWhite: Style := Style(Sgr(47), Sgr(49))

  /** The zero `Style`. */
  const None: Style := Style("", "")

  /** The number of styles `styleMap` holds. */
  const StyleCount: nat := 20

  /**
   * The number of the code that sets the `k`-th style of `styleMap`, in the
   * order of the declarations above: 1-4, then 30-37, then 40-47.
   */
  function SetNumber(k: nat): nat {
    if k < 4 then k + 1 else if k < 12 then k + 26 else k + 28
  }

  /** The number of the code that unsets the `k`-th style: 21-24, then 39, then 49. */
  function UnsetNumber(k: nat): nat {
    if k < 4 then k + 21 else if k < 12 then 39 else 49
  }

  /** The `k`-th style of `styleMap`. */
  function StyleOf(k: nat): Style {
    Style(Sgr(SetNumber(k)), Sgr(UnsetNumber(k)))
  }

  /** The styles `styleMap` holds are the twenty declared above, in order. */
  lemma StyleTable()
    ensures StyleOf(0) == Bold && StyleOf(1) == Faint && StyleOf(2) == Italic && StyleOf(3) == Underline
    ensures StyleOf(4) == Black && StyleOf(5) == Red && StyleOf(6) == Green && StyleOf(7) == Yellow
    ensures StyleOf(8) == Blue && StyleOf(9) == Magenta && StyleOf(10) == Cyan && StyleOf(11) == White
    ensures StyleOf(12) == BgBlack && StyleOf(13) == BgRed && StyleOf(14) == BgGreen && StyleOf(15) == BgYellow
    ensures StyleOf(16) == BgBlue && StyleOf(17) == BgMagenta && StyleOf(18) == BgCyan && StyleOf(19) == BgWhite
  {
  }

  /**
   * A read of `styleMap`: the style whose `Set` code is `code`, or the zero
   * style for a code that is not a key. No two styles share a `Set` code,
   * so the first match is the only one.
   */
  function Lookup(code: string): Style {
    LookupFrom(code, 0)
  }

  function LookupFrom(code: string, k: nat): Style
    requires k <= StyleCount
    decreases StyleCount - k
  {
    if k == StyleCount then None
    else if StyleOf(k).Set == code then StyleOf(k)
    else LookupFrom(code, k + 1)
  }

  // ------------------------------------------------------ the ANSI scanner

  predicate IsDigit(c: char) {
    '0' <= c <= '9'
  }

  /** The number of digits in `s` from position `j` on. */
  function DigitRun(s: string, j: nat): (n: nat)
    requires j <= |s|
    ensures j + n <= |s|
    decreases |s| - j
  {
    if j < |s| && IsDigit(s[j]) then 1 + DigitRun(s, j + 1) else 0
  }

  /** The length of the match of `ESC\[(\d+)m` at position `i` of `s`, or 0 when there is none. */
  function CodeAt(s: string, i: nat): (n: nat)
    requires i <= |s|
    ensures i + n <= |s|
    ensures n > 0 ==> n >= 4
  {
    if i + 1 < |s| && s[i] == Esc && s[i + 1] == '[' then
      var d := DigitRun(s, i + 2);
      if d > 0 && i + 2 + d < |s| && s[i + 2 + d] == 'm' then 3 + d else 0
    else 0
  }

  /** `s` is one whole SGR code. */
  predicate IsCode(s: string) {
    s != [] && CodeAt(s, 0) == |s|
  }

  /** No SGR code starts anywhere in `s`. */
  predicate NoCode(s: string) {
    forall j :: 0 <= j < |s| ==> CodeAt(s, j) == 0
  }

  /** A string no code can run into: empty, or not starting with '[', a digit or 'm'. */
  predicate Breaks(s: string) {
    s == [] || !(s[0] == '[' || IsDigit(s[0]) || s[0] == 'm')
  }

  /**
   * `ReplaceAllString` of `RegANSI` on `s[i..]`: scanning from the left,
   * each code is replaced by `<digits>` when `visual` holds and removed
   * otherwise; all other characters are kept.
   */
  function ReplaceFrom(s: string, i: nat, visual: bool): string
    requires i <= |s|
    decreases |s| - i
  {
    if i == |s| then []
    else if CodeAt(s, i) > 0 then Spelled(CodeDigits(s, i), visual) + ReplaceFrom(s, i + CodeAt(s, i), visual)
    else [s[i]] + ReplaceFrom(s, i + 1, visual)
  }

  /** The digits of the code at position `i`. */
  function CodeDigits(s: string, i: nat): string
    requires i <= |s| && CodeAt(s, i) > 0
  {
    s[i + 2..i + CodeAt(s, i) - 1]
  }

  /** One step of the scan. */
  lemma {:induction false} ReplaceStep(s: string, i: nat, visual: bool)
    requires i < |s|
    ensures CodeAt(s, i) > 0 ==> ReplaceFrom(s, i, visual) == Spelled(CodeDigits(s, i), visual) + ReplaceFrom(s, i + CodeAt(s, i), visual)
    ensures CodeAt(s, i) == 0 ==> ReplaceFrom(s, i, visual) == [s[i]] + ReplaceFrom(s, i + 1, visual)
  {
  }

  /** What a code with these digits is replaced by. */
  function Spelled(digits: string, visual: bool): string {
    if visual then "<" + digits + ">" else ""
  }

  function Replace(s: string, visual: bool): string {
    ReplaceFrom(s, 0, visual)
  }

  /** `StripANSI`. */
  function StripANSI(s: string): string {
    Replace(s, false)
  }

  /** `VisualizeANSI`: each code `ESC[<n>m` becomes `<n>`. */
  function VisualizeANSI(s: string): string {
    Replace(s, true)
  }

  // ------------------------------------------------------ scanner lemmas

  /** A digit run that ends inside `x`, or that `y` breaks, is the same in `x + y`. */
  lemma {:induction false} DigitRunAppend(x: string, y: string, j: nat)
    requires j <= |x|
    requires j + DigitRun(x, j) < |x| || Breaks(y)
    ensures DigitRun(x + y, j) == DigitRun(x, j)
    decreases |x| - j
  {
    if j < |x| && IsDigit(x[j]) {
      DigitRunAppend(x, y, j + 1);
    }
  }

  /** Digit runs of `y` are those of `x + y`, shifted by `|x|`. */
  lemma {:induction false} DigitRunShift(x: string, y: string, j: nat)
    requires j <= |y|
    ensures DigitRun(x + y, |x| + j) == DigitRun(y, j)
    decreases |y| - j
  {
    if j < |y| {
      DigitRunShift(x, y, j + 1);
    }
  }

  /** A match that starts in `x` ends in `x` when `y` breaks it. */
  lemma {:induction false} CodeWithin(x: string, y: string, i: nat)
    requires i < |x| && Breaks(y)
    ensures CodeAt(x + y, i) == CodeAt(x, i)
  {
    if i + 1 < |x| && x[i] == Esc && x[i + 1] == '[' {
      DigitRunAppend(x, y, i + 2);
    }
  }

  /** Codes of `y` are those of `x + y`, shifted by `|x|`. */
  lemma {:induction false} CodeShift(x: string, y: string, i: nat)
    requires i <= |y|
    ensures CodeAt(x + y, |x| + i) == CodeAt(y, i)
  {
    if i + 1 < |y| {
      DigitRunShift(x, y, i + 2);
    }
  }

  lemma {:induction false} DigitsShift(x: string, y: string, i: nat)
    requires i <= |y| && CodeAt(y, i) > 0
    ensures CodeAt(x + y, |x| + i) == CodeAt(y, i)
    ensures CodeDigits(x + y, |x| + i) == CodeDigits(y, i)
  {
    CodeShift(x, y, i);
    var n := CodeAt(y, i);
    var s := x + y;
    var j := |x| + i;
    assert s[j + 2..j + n - 1] == y[i + 2..i + n - 1];
  }

  lemma {:induction false} DigitsWithin(x: string, y: string, i: nat)
    requires i < |x| && Breaks(y) && CodeAt(x, i) > 0
    ensures CodeAt(x + y, i) == CodeAt(x, i)
    ensures CodeDigits(x + y, i) == CodeDigits(x, i)
  {
    CodeWithin(x, y, i);
    var n := CodeAt(x, i);
    assert (x + y)[i + 2..i + n - 1] == x[i + 2..i + n - 1];
  }

  /** The scan of `y` inside `x + y`. */
  lemma {:induction false} ReplaceShift(x: string, y: string, i: nat, visual: bool)
    requires i <= |y|
    ensures ReplaceFrom(x + y, |x| + i, visual) == ReplaceFrom(y, i, visual)
    decreases |y| - i, 1
  {
    if i < |y| {
      if CodeAt(y, i) > 0 {
        ShiftCodeStep(x, y, i, visual);
      } else {
        ShiftCharStep(x, y, i, visual);
      }
    } else {
      assert |x| + i == |x + y|;
    }
  }

  lemma {:induction false} ShiftCodeStep(x: string, y: string, i: nat, visual: bool)
    requires i < |y| && CodeAt(y, i) > 0
    ensures ReplaceFrom(x + y, |x| + i, visual) == ReplaceFrom(y, i, visual)
    decreases |y| - i, 0
  {
    ReplaceShift(x, y, i + CodeAt(y, i), visual);
    DigitsShift(x, y, i);
    SameCodeStep(x + y, |x| + i, y, i, visual);
  }

  /** Two scans standing on the same code, and agreeing after it, agree from it. */
  lemma {:induction false} SameCodeStep(s: string, j: nat, t: string, i: nat, visual: bool)
    requires j < |s| && i < |t| && CodeAt(s, j) == CodeAt(t, i) > 0 && CodeDigits(s, j) == CodeDigits(t, i)
    requires ReplaceFrom(s, j + CodeAt(s, j), visual) == ReplaceFrom(t, i + CodeAt(t, i), visual)
    ensures ReplaceFrom(s, j, visual) == ReplaceFrom(t, i, visual)
  {
    ReplaceStep(s, j, visual);
    ReplaceStep(t, i, visual);
  }

  lemma {:induction false} ShiftCharStep(x: string, y: string, i: nat, visual: bool)
    requires i < |y| && CodeAt(y, i) == 0
    ensures ReplaceFrom(x + y, |x| + i, visual) == ReplaceFrom(y, i, visual)
    decreases |y| - i, 0
  {
    ReplaceShift(x, y, i + 1, visual);
    CodeShift(x, y, i);
    assert (x + y)[|x| + i] == y[i];
    SameCharStep(x + y, |x| + i, y, i, visual);
  }

  /** Two scans standing on the same plain character, and agreeing after it, agree from it. */
  lemma {:induction false} SameCharStep(s: string, j: nat, t: string, i: nat, visual: bool)
    requires j < |s| && i < |t| && CodeAt(s, j) == 0 && CodeAt(t, i) == 0 && s[j] == t[i]
    requires ReplaceFrom(s, j + 1, visual) == ReplaceFrom(t, i + 1, visual)
    ensures ReplaceFrom(s, j, visual) == ReplaceFrom(t, i, visual)
  {
    ReplaceStep(s, j, visual);
    ReplaceStep(t, i, visual);
  }

  /** The scan of a concatenation is the concatenation of the scans when nothing runs across the seam. */
  lemma {:induction false} ReplaceAppendFrom(x: string, y: string, i: nat, visual: bool)
    requires i <= |x| && Breaks(y)
    ensures ReplaceFrom(x + y, i, visual) == ReplaceFrom(x, i, visual) + ReplaceFrom(y, 0, visual)
    decreases |x| - i
  {
    if i == |x| {
      ReplaceShift(x, y, 0, visual);
      assert ReplaceFrom(x, i, visual) == [];
    } else {
      CodeWithin(x, y, i);
      var n := CodeAt(x, i);
      if n > 0 {
        ReplaceAppendFrom(x, y, i + n, visual);
        AppendCodeStep(x, y, i, visual);
      } else {
        ReplaceAppendFrom(x, y, i + 1, visual);
        AppendCharStep(x, y, i, visual);
      }
    }
  }

  lemma {:induction false} AppendCodeStep(x: string, y: string, i: nat, visual: bool)
    requires i < |x| && Breaks(y) && CodeAt(x, i) > 0
    requires ReplaceFrom(x + y, i + CodeAt(x, i), visual) == ReplaceFrom(x, i + CodeAt(x, i), visual) + ReplaceFrom(y, 0, visual)
    ensures ReplaceFrom(x + y, i, visual) == ReplaceFrom(x, i, visual) + ReplaceFrom(y, 0, visual)
  {
    DigitsWithin(x, y, i);
    CodeStepThen(x + y, x, i, ReplaceFrom(y, 0, visual), visual);
  }

  /** Two scans standing on the same code, the first followed by `q` after it, are so from it. */
  lemma {:induction false} CodeStepThen(s: string, t: string, i: nat, q: string, visual: bool)
    requires i < |s| && i < |t| && CodeAt(s, i) == CodeAt(t, i) > 0 && CodeDigits(s, i) == CodeDigits(t, i)
    requires ReplaceFrom(s, i + CodeAt(s, i), visual) == ReplaceFrom(t, i + CodeAt(t, i), visual) + q
    ensures ReplaceFrom(s, i, visual) == ReplaceFrom(t, i, visual) + q
  {
    ReplaceStep(s, i, visual);
    ReplaceStep(t, i, visual);
    AppendAssoc(Spelled(CodeDigits(t, i), visual), ReplaceFrom(t, i + CodeAt(t, i), visual), q);
  }

  lemma AppendAssoc(a: string, b: string, c: string)
    ensures a + (b + c) == (a + b) + c
  {
  }

  lemma {:induction false} AppendCharStep(x: string, y: string, i: nat, visual: bool)
    requires i < |x| && Breaks(y) && CodeAt(x, i) == 0
    requires ReplaceFrom(x + y, i + 1, visual) == ReplaceFrom(x, i + 1, visual) + ReplaceFrom(y, 0, visual)
    ensures ReplaceFrom(x + y, i, visual) == ReplaceFrom(x, i, visual) + ReplaceFrom(y, 0, visual)
  {
    var s := x + y;
    CodeWithin(x, y, i);
    ReplaceStep(s, i, visual);
    ReplaceStep(x, i, visual);
    var r := ReplaceFrom(x, i + 1, visual);
    var q := ReplaceFrom(y, 0, visual);
    assert s[i] == x[i];
    assert ReplaceFrom(s, i, visual) == [x[i]] + (r + q);
    assert ReplaceFrom(x, i, visual) == [x[i]] + r;
    AppendAssoc([x[i]], r, q);
  }

  lemma {:induction false} ReplaceAppend(x: string, y: string, visual: bool)
    requires Breaks(y)
    ensures Replace(x + y, visual) == Replace(x, visual) + Replace(y, visual)
  {
    ReplaceAppendFrom(x, y, 0, visual);
  }

  /** A code at the start of a string is matched whatever follows it. */
  lemma {:induction false} CodeFirst(t: string, rest: string)
    requires IsCode(t)
    ensures CodeAt(t + rest, 0) == |t|
  {
    DigitRunAppend(t, rest, 2);
  }

  /** A code at the front is replaced and the scan goes on after it. */
  lemma {:induction false} ReplaceCode(t: string, rest: string, visual: bool)
    requires IsCode(t)
    ensures Replace(t + rest, visual) == Spelled(t[2..|t| - 1], visual) + Replace(rest, visual)
  {
    CodeFirst(t, rest);
    assert (t + rest)[2..|t| - 1] == t[2..|t| - 1];
    ReplaceShift(t, rest, 0, visual);
  }

  /** Text without codes is kept as it is. */
  lemma {:induction false} ReplaceNoCode(s: string, i: nat, visual: bool)
    requires i <= |s| && NoCode(s)
    ensures ReplaceFrom(s, i, visual) == s[i..]
    decreases |s| - i
  {
    if i < |s| {
      ReplaceNoCode(s, i + 1, visual);
      assert s[i..] == [s[i]] + s[i + 1..];
    }
  }

  /** A character other than ESC starts no code and is kept. */
  lemma {:induction false} ReplaceCharFirst(c: string, rest: string, visual: bool)
    requires |c| == 1 && c[0] != Esc
    ensures Replace(c + rest, visual) == c + Replace(rest, visual)
  {
    ReplaceShift(c, rest, 0, visual);
  }

  /** `ESC[<n>m` is a code, and its digits are those of `n`. */
  lemma {:induction false} SgrIsCode(n: nat)
    ensures IsCode(Sgr(n)) && Sgr(n)[2..|Sgr(n)| - 1] == NatToString(n)
  {
    var digits := NatToString(n);
    var t := Sgr(n);
    assert t == [Esc, '['] + (digits + "m");
    DigitsRun(digits + "m", 0, |digits|);
    DigitRunShift([Esc, '['], digits + "m", 0);
  }

  lemma {:induction false} DigitsRun(s: string, j: nat, n: nat)
    requires j + n < |s| && !IsDigit(s[j + n]) && forall i :: j <= i < j + n ==> IsDigit(s[i])
    ensures DigitRun(s, j) == n
    decreases n
  {
    if n > 0 {
      DigitsRun(s, j + 1, n - 1);
    }
  }

  /**
   * A coloured string (lib/gop/color.go) loses exactly its two codes to
   * `StripANSI`, and `VisualizeANSI` spells them as `<c>` and `<0>`.
   */
  lemma {:induction false} ColorStrANSI(c: GopColor.Color, s: string)
    requires c >= 0
    ensures StripANSI(GopColor.ColorStr(c, s)) == StripANSI(s)
    ensures VisualizeANSI(GopColor.ColorStr(c, s)) == "<" + IntToString(c) + ">" + VisualizeANSI(s) + "<0>"
  {
    ColorStrReplace(c, s, false);
    ColorStrReplace(c, s, true);
  }

  lemma {:induction false} ColorStrReplace(c: nat, s: string, visual: bool)
    ensures Replace(GopColor.ColorStr(c, s), visual) ==
      Spelled(NatToString(c), visual) + Replace(s, visual) + Spelled("0", visual)
  {
    assert GopColor.ColorStr(c, s) == Sgr(c) + (s + Sgr(0));
    ReplaceSgr(c, s + Sgr(0), visual);
    ReplaceReset(s, visual);
  }

  /** An SGR code at the front is spelled by its number. */
  lemma {:induction false} ReplaceSgr(c: nat, rest: string, visual: bool)
    ensures Replace(Sgr(c) + rest, visual) == Spelled(NatToString(c), visual) + Replace(rest, visual)
  {
    SgrIsCode(c);
    ReplaceCode(Sgr(c), rest, visual);
  }

  /** The reset code at the end is spelled "0". */
  lemma {:induction false} ReplaceReset(s: string, visual: bool)
    ensures Replace(s + Sgr(0), visual) == Replace(s, visual) + Spelled("0", visual)
  {
    SgrIsCode(0);
    ReplaceAppend(s, Sgr(0), visual);
    ReplaceSgr(0, "", visual);
    assert Sgr(0) + "" == Sgr(0);
    assert NatToString(0) == "0";
  }

  // ----------------------------------------------------------- stylize

  /** The index of the first '\n' of a string that has one. */
  function FirstIndex(s: string, c: char): (k: nat)
    requires Contains(s, c)
    ensures k < |s| && s[k] == c && forall j :: 0 <= j < k ==> s[j] != c
  {
    if s[0] == c then 0
    else
      assert Contains(s[1..], c) by {
        var i :| 0 <= i < |s| && s[i] == c;
        assert s[1..][i - 1] == c;
      }
      1 + FirstIndex(s[1..], c)
  }

  /** `regNewline.FindString`: the first "\r\n" or "\n", or "" when there is no newline. */
  function FirstNewline(s: string): (r: string)
    ensures r == "" || r == "\n" || r == "\r\n"
  {
    if !Contains(s, '\n') then ""
    else
      var k := FirstIndex(s, '\n');
      if k > 0 && s[k - 1] == '\r' then "\r\n" else "\n"
  }

  /** `regNewline.Split(s, -1)`: the pieces between the newlines, each "\r\n" taken whole. */
  function SplitCRLF(s: string): (r: seq<string>)
    ensures |r| == |SplitNewlines(s)| >= 1
  {
    var p := SplitNewlines(s);
    seq(|p|, k requires 0 <= k < |p| => if k < |p| - 1 then DropCR(p[k]) else p[k])
  }

  /** Each line between the style's codes. */
  function Wrap(st: Style, lines: seq<string>): (r: seq<string>)
    ensures |r| == |lines| && forall k :: 0 <= k < |lines| ==> r[k] == st.Set + lines[k] + st.Unset
  {
    seq(|lines|, k requires 0 <= k < |lines| => st.Set + lines[k] + st.Unset)
  }

  /** What `stylize(st, s)` returns. */
  function Styled(st: Style, s: string, noStyle: bool): string {
    if noStyle || st == None then s
    else Join(Wrap(st, SplitCRLF(s)), FirstNewline(s))
  }

  /** `stylize`: every line of `s` between the style's codes, joined again by the first newline found. */
  method StylizeOne(st: Style, s: string, noStyle: bool) returns (r: string)
    ensures r == Styled(st, s, noStyle)
  {
    if noStyle || st == None {
      return s;
    }
    var newline := FirstNewline(s);
    var lines := SplitCRLF(s);
    var out: seq<string> := [];
    for k := 0 to |lines|
      invariant out == Wrap(st, lines[..k])
    {
      out := out + [st.Set + lines[k] + st.Unset];
    }
    assert lines[..|lines|] == lines;
    r := Join(out, newline);
  }

  /** What `Stylize(s, styles)` returns: the styles applied in list order, the last outermost. */
  function StyledAll(s: string, styles: seq<Style>, noStyle: bool): string {
    if styles == [] then s
    else Styled(styles[|styles| - 1], StyledAll(s, styles[..|styles| - 1], noStyle), noStyle)
  }

  /** `Stylize` (and `S`): `stylize` with each style in turn. */
  method Stylize(s: string, styles: seq<Style>, noStyle: bool) returns (r: string)
    ensures r == StyledAll(s, styles, noStyle)
  {
    r := s;
    for k := 0 to |styles|
      invariant r == StyledAll(s, styles[..k], noStyle)
    {
      assert styles[..k + 1][..k] == styles[..k];
      r := StylizeOne(styles[k], r, noStyle);
    }
    assert styles[..|styles|] == styles;
  }

  // ----------------------------------------------------- stylize lemmas

  /** A one-line string is wrapped once: `S("test", Style{"<s>", "</s>"})` is "<s>test</s>". */
  lemma {:induction false} StyledOneLine(st: Style, s: string)
    requires !Contains(s, '\n')
    ensures Styled(st, s, false) == st.Set + s + st.Unset
  {
    if st != None {
      assert SplitNewlines(s) == [s] by {
        SplitNewlinesPieces(s);
        SplitNewlinesJoin(s);
        SplitNewlinesCount(s);
        NoNewlineCount(s);
      }
    }
  }

  lemma {:induction false} NoNewlineCount(s: string)
    requires !Contains(s, '\n')
    ensures CountChar(s, '\n') == 0
    decreases |s|
  {
    if s != [] {
      var init := s[..|s| - 1];
      assert !Contains(init, '\n') by {
        forall i | 0 <= i < |init| ensures init[i] != '\n' {
          assert init[i] == s[i];
        }
      }
      NoNewlineCount(init);
    }
  }

  /** The codes that open `styles` around a one-line string: the last style's first. */
  function Opens(styles: seq<Style>): string {
    if styles == [] then "" else styles[|styles| - 1].Set + Opens(styles[..|styles| - 1])
  }

  /** The codes that close `styles` around a one-line string: the first style's first. */
  function Closes(styles: seq<Style>): string {
    if styles == [] then "" else Closes(styles[..|styles| - 1]) + styles[|styles| - 1].Unset
  }

  /**
   * Styling a one-line string nests the styles in list order: the first
   * style's codes sit innermost and the last style's outermost.
   */
  lemma {:induction false} StyledAllNests(s: string, styles: seq<Style>)
    requires !Contains(s, '\n')
    requires forall k :: 0 <= k < |styles| ==> !Contains(styles[k].Set, '\n') && !Contains(styles[k].Unset, '\n')
    ensures StyledAll(s, styles, false) == Opens(styles) + s + Closes(styles)
    decreases |styles|
  {
    if styles != [] {
      var init := styles[..|styles| - 1];
      var st := styles[|styles| - 1];
      StyledAllNests(s, init);
      NoNewlineStyles(init);
      NestOne(st, Opens(init), s, Closes(init));
    }
  }

  lemma {:induction false} NestOne(st: Style, o: string, s: string, c: string)
    requires !Contains(o, '\n') && !Contains(s, '\n') && !Contains(c, '\n')
    ensures Styled(st, o + s + c, false) == (st.Set + o) + s + (c + st.Unset)
  {
    NoNewlineConcat3(o, s, c);
    StyledOneLine(st, o + s + c);
    assert st.Set + (o + s + c) + st.Unset == (st.Set + o) + s + (c + st.Unset);
  }

  lemma {:induction false} NoNewlineStyles(styles: seq<Style>)
    requires forall k :: 0 <= k < |styles| ==> !Contains(styles[k].Set, '\n') && !Contains(styles[k].Unset, '\n')
    ensures !Contains(Opens(styles), '\n') && !Contains(Closes(styles), '\n')
    decreases |styles|
  {
    if styles != [] {
      var init := styles[..|styles| - 1];
      var st := styles[|styles| - 1];
      NoNewlineStyles(init);
      NoNewlineConcat3(st.Set, Opens(init), "");
      NoNewlineConcat3(Closes(init), st.Unset, "");
      assert st.Set + Opens(init) + "" == Opens(styles);
      assert Closes(init) + st.Unset + "" == Closes(styles);
    }
  }

  lemma {:induction false} NoNewlineConcat3(a: string, b: string, c: string)
    requires !Contains(a, '\n') && !Contains(b, '\n') && !Contains(c, '\n')
    ensures !Contains(a + b + c, '\n')
  {
    var s := a + b + c;
    forall i | 0 <= i < |s| ensures s[i] != '\n' {
      if i < |a| {
        assert s[i] == a[i];
      } else if i < |a| + |b| {
        assert s[i] == b[i - |a|];
      } else {
        assert s[i] == c[i - |a| - |b|];
      }
    }
  }

  /** Styling keeps the number of lines: it adds or removes no '\n' when the codes hold none. */
  lemma {:induction false} StyledLines(st: Style, s: string, noStyle: bool)
    requires !Contains(st.Set, '\n') && !Contains(st.Unset, '\n')
    ensures CountChar(Styled(st, s, noStyle), '\n') == CountChar(s, '\n')
  {
    if !noStyle && st != None {
      var lines := SplitCRLF(s);
      var ws := Wrap(st, lines);
      SplitNewlinesPieces(s);
      SplitNewlinesCount(s);
      forall k | 0 <= k < |ws| ensures !Contains(ws[k], '\n') {
        var p := SplitNewlines(s)[k];
        assert !Contains(DropCR(p), '\n') by {
          forall i | 0 <= i < |DropCR(p)| ensures DropCR(p)[i] != '\n' {
            assert DropCR(p)[i] == p[i];
          }
        }
        NoNewlineConcat3(st.Set, lines[k], st.Unset);
      }
      var nl := FirstNewline(s);
      if |ws| == 1 {
        NoNewlineCount(ws[0]);
      } else {
        assert Contains(s, '\n') by {
          if !Contains(s, '\n') {
            NoNewlineCount(s);
          }
        }
        assert CountChar(nl, '\n') == 1 by {
          if nl == "\n" {
            assert "\n"[..0] == "";
          } else {
            assert "\r\n"[..1] == "\r" && "\r"[..0] == "";
          }
        }
        JoinCount(ws, nl);
      }
    }
  }

  lemma {:induction false} CountAppend(a: string, b: string, c: char)
    ensures CountChar(a + b, c) == CountChar(a, c) + CountChar(b, c)
    decreases |b|
  {
    if b == [] {
      assert a + b == a;
    } else {
      assert (a + b)[..|a + b| - 1] == a + b[..|b| - 1];
      CountAppend(a, b[..|b| - 1], c);
    }
  }

  /** Joining pieces without '\n' by a separator with one '\n' gives one '\n' per seam. */
  lemma {:induction false} JoinCount(ws: seq<string>, sep: string)
    requires ws != [] && CountChar(sep, '\n') == 1
    requires forall k :: 0 <= k < |ws| ==> !Contains(ws[k], '\n')
    ensures CountChar(Join(ws, sep), '\n') == |ws| - 1
    decreases |ws|
  {
    var last := ws[|ws| - 1];
    NoNewlineCount(last);
    if |ws| > 1 {
      var init := ws[..|ws| - 1];
      JoinCount(init, sep);
      CountAppend(Join(init, sep), sep, '\n');
      CountAppend(Join(init, sep) + sep, last, '\n');
    }
  }

  /** The scan of lines joined by "\n" is the join of the lines' scans. */
  lemma {:induction false} ReplaceJoin(ls: seq<string>, visual: bool)
    ensures Replace(Join(ls, "\n"), visual) == Join(ReplaceEach(ls, visual), "\n")
    decreases |ls|
  {
    if |ls| > 1 {
      var init := ls[..|ls| - 1];
      ReplaceJoin(init, visual);
      ReplaceAppend(Join(init, "\n"), "\n" + ls[|ls| - 1], visual);
      assert ("\n" + ls[|ls| - 1])[1..] == ls[|ls| - 1];
      ReplaceCharFirst("\n", ls[|ls| - 1], visual);
      assert Join(ls, "\n") == Join(init, "\n") + ("\n" + ls[|ls| - 1]);
      assert ReplaceEach(ls, visual)[..|ls| - 1] == ReplaceEach(init, visual);
    }
  }

  function ReplaceEach(ls: seq<string>, visual: bool): (r: seq<string>)
    ensures |r| == |ls| && forall k :: 0 <= k < |ls| ==> r[k] == Replace(ls[k], visual)
  {
    seq(|ls|, k requires 0 <= k < |ls| => Replace(ls[k], visual))
  }

  /** A style whose codes are SGR codes (or empty). */
  predicate CodeStyle(st: Style) {
    (st.Set == "" || IsCode(st.Set)) && (st.Unset == "" || IsCode(st.Unset))
  }

  /** The codes a style adds vanish again under `StripANSI`. */
  lemma {:induction false} StripWrapped(st: Style, l: string)
    requires CodeStyle(st)
    ensures StripANSI(st.Set + l + st.Unset) == StripANSI(l)
  {
    var tail := l + st.Unset;
    assert st.Set + l + st.Unset == st.Set + tail;
    if st.Set != "" {
      ReplaceCode(st.Set, tail, false);
    } else {
      assert st.Set + tail == tail;
    }
    ReplaceAppend(l, st.Unset, false);
    if st.Unset != "" {
      ReplaceCode(st.Unset, "", false);
      assert st.Unset + "" == st.Unset;
    }
  }

  /**
   * `StripANSI` undoes `stylize` on text whose newlines are all "\n": the
   * only characters styling adds are the codes.
   */
  lemma {:induction false} StripStyled(st: Style, s: string, noStyle: bool)
    requires CodeStyle(st) && !Contains(s, '\r')
    ensures StripANSI(Styled(st, s, noStyle)) == StripANSI(s)
  {
    if !noStyle && st != None {
      var lines := SplitCRLF(s);
      var ws := Wrap(st, lines);
      SplitNewlinesNoCR(s);
      assert lines == SplitNewlines(s);
      SplitNewlinesJoin(s);
      forall k | 0 <= k < |ws| ensures Replace(ws[k], false) == Replace(lines[k], false) {
        StripWrapped(st, lines[k]);
      }
      assert ReplaceEach(ws, false) == ReplaceEach(lines, false);
      if Contains(s, '\n') {
        assert FirstNewline(s) == "\n" by {
          var k := FirstIndex(s, '\n');
          if k > 0 {
            assert s[k - 1] != '\r';
          }
        }
        ReplaceJoin(ws, false);
        ReplaceJoin(lines, false);
      } else {
        StyledOneLine(st, s);
        StripWrapped(st, s);
      }
    }
  }

  /**
   * A read of the `styleMap` gives the zero style, or a style stored under
   * `code` itself whose two codes are SGR codes.
   */
  lemma {:induction false} MapStylesAreCodes(code: string)
    ensures Lookup(code) == None || (Lookup(code).Set == code && IsCode(Lookup(code).Set) && IsCode(Lookup(code).Unset))
    ensures CodeStyle(Lookup(code))
  {
    LookupCodes(code, 0);
  }

  lemma {:induction false} LookupCodes(code: string, k: nat)
    requires k <= StyleCount
    ensures var st := LookupFrom(code, k); st == None || (st.Set == code && IsCode(st.Set) && IsCode(st.Unset))
    decreases StyleCount - k
  {
    if k < StyleCount {
      SgrIsCode(SetNumber(k));
      SgrIsCode(UnsetNumber(k));
      LookupCodes(code, k + 1);
    }
  }

  // ---------------------------------------------------- FixNestedStyle

  /** Where `RegANSI.FindStringIndex` finds its match: none, or `[l, r)`. */
  datatype Loc = NoMatch | Match(l: nat, r: nat)

  /** `RegANSI.FindStringIndex(s[i:])`, offset by `i`: the leftmost code at or after `i`. */
  function NextCode(s: string, i: nat): (loc: Loc)
    requires i <= |s|
    ensures loc.Match? ==> i <= loc.l < |s| && CodeAt(s, loc.l) > 0 && loc.r == loc.l + CodeAt(s, loc.l)
    decreases |s| - i
  {
    if i == |s| then NoMatch
    else if CodeAt(s, i) > 0 then Match(i, i + CodeAt(s, i))
    else NextCode(s, i + 1)
  }

  /**
   * What one code does to the output and the stack of open codes. As
   * written (`paired` false), a code that unsets the innermost style closes
   * it and reopens the style around it, and any other code first closes
   * the innermost style. With `paired`, both happen only between styles
   * that share an unset code: a colour nested in a background leaves the
   * background open.
   */
  function Step(stack: seq<string>, token: string, paired: bool): (string, seq<string>) {
    if stack == [] then (token, [token])
    else
      var top := stack[|stack| - 1];
      var u := Lookup(top).Unset;
      if token == u then
        (token + (if |stack| > 1 && (!paired || Lookup(stack[|stack| - 2]).Unset == token) then stack[|stack| - 2] else ""),
         stack[..|stack| - 1])
      else ((if !paired || u == Lookup(token).Unset then u else "") + token, stack + [token])
  }

  /** What `FixNestedStyle` appends from position `i` on, with `stack` open. */
  function FixFrom(s: string, i: nat, stack: seq<string>, paired: bool): string
    requires i <= |s|
    decreases |s| - i
  {
    match NextCode(s, i)
    case NoMatch => s[i..]
    case Match(l, r) => s[i..l] + Step(stack, s[l..r], paired).0 + FixFrom(s, r, Step(stack, s[l..r], paired).1, paired)
  }

  /** What `FixNestedStyle(s)` returns. */
  function FixNested(s: string): string {
    FixFrom(s, 0, [], false)
  }

  /** `FixNestedStyle` with the paired rule the test of lib/gop/format_test.go:229-242 expects. */
  function FixNestedPaired(s: string): string {
    FixFrom(s, 0, [], true)
  }

  /**
   * `FixNestedStyle`: each code found closes the innermost open style and
   * opens its own; a code that unsets the innermost style closes it and
   * reopens the one around it.
   */
  method FixNestedStyle(s: string) returns (out: string)
    ensures out == FixNested(s)
  {
    out := "";
    var stack: seq<string> := [];
    var i: nat := 0;
    while i < |s|
      invariant i <= |s|
      invariant out + FixFrom(s, i, stack, false) == FixNested(s)
      decreases |s| - i
    {
      var loc := NextCode(s, i);
      if loc.NoMatch? {
        break;
      }
      var l, r := loc.l, loc.r;
      var token := s[l..r];
      ghost var before := stack;
      var emit;
      emit, stack := StepTurn(stack, token);
      FixFromMatch(s, i, before, out);
      out := out + s[i..l] + emit;
      i := r;
    }
    out := out + s[i..];
  }

  /** The branches of one loop turn: what is emitted for `token` and the new stack. */
  method StepTurn(stack: seq<string>, token: string) returns (emit: string, next: seq<string>)
    ensures (emit, next) == Step(stack, token, false)
  {
    next := stack;
    if |next| == 0 {
      next := next + [token];
      emit := token;
      assert next == [token];
    } else if token == Lookup(next[|next| - 1]).Unset {
      emit := token;
      next := next[..|next| - 1];
      if |next| > 0 {
        assert next[|next| - 1] == stack[|stack| - 2];
        emit := emit + next[|next| - 1];
      } else {
        assert emit + "" == emit;
      }
    } else {
      emit := Lookup(next[|next| - 1]).Unset + token;
      next := next + [token];
    }
  }

  // --------------------------------------------- FixNestedStyle lemmas

  /** One turn of the loop: the text before the match and what the step emits move to the output. */
  lemma {:induction false} FixFromMatch(s: string, i: nat, stack: seq<string>, out: string)
    requires i <= |s| && NextCode(s, i).Match?
    ensures var (emit, next) := Step(stack, s[NextCode(s, i).l..NextCode(s, i).r], false);
      out + FixFrom(s, i, stack, false) == (out + s[i..NextCode(s, i).l] + emit) + FixFrom(s, NextCode(s, i).r, next, false)
  {
    var loc := NextCode(s, i);
    var (emit, next) := Step(stack, s[loc.l..loc.r], false);
    var rest := FixFrom(s, loc.r, next, false);
    var gap := s[i..loc.l];
    assert FixFrom(s, i, stack, false) == gap + emit + rest;
    AppendAssoc(out, gap + emit, rest);
    AppendAssoc(out, gap, emit);
  }

  /** `NextCode` finds the leftmost code: none starts between `i` and the match. */
  lemma {:induction false} NextCodeLeftmost(s: string, i: nat)
    requires i <= |s|
    ensures NextCode(s, i).Match? ==> forall p :: i <= p < NextCode(s, i).l ==> CodeAt(s, p) == 0
    ensures NextCode(s, i).NoMatch? ==> forall p :: i <= p < |s| ==> CodeAt(s, p) == 0
    decreases |s| - i
  {
    if i < |s| && CodeAt(s, i) == 0 {
      NextCodeLeftmost(s, i + 1);
    }
  }

  /** Skipping positions where no code starts does not change the next match. */
  lemma {:induction false} NextCodeSkip(s: string, i: nat, j: nat)
    requires i <= j <= |s|
    requires forall p :: i <= p < j ==> CodeAt(s, p) == 0
    ensures NextCode(s, i) == NextCode(s, j)
    decreases j - i
  {
    if i < j {
      NextCodeSkip(s, i + 1, j);
    }
  }

  /** A match that ends inside `x` is the same in `x + y`. */
  lemma {:induction false} CodePrefix(x: string, y: string, p: nat)
    requires p <= |x| && CodeAt(x, p) > 0
    ensures CodeAt(x + y, p) == CodeAt(x, p)
  {
    DigitRunAppend(x, y, p + 2);
  }

  /** Text between `i` and the next match holds no code of its own. */
  lemma {:induction false} GapNoCode(s: string, i: nat, l: nat)
    requires i <= l <= |s|
    requires forall p :: i <= p < l ==> CodeAt(s, p) == 0
    ensures NoCode(s[i..l])
  {
    var x := s[i..l];
    assert x + s[l..] == s[i..];
    assert s[..i] + s[i..] == s;
    forall p | 0 <= p < |x| ensures CodeAt(x, p) == 0 {
      CodeShift(s[..i], s[i..], p);
      if CodeAt(x, p) > 0 {
        CodePrefix(x, s[l..], p);
        assert false;
      }
    }
  }

  /** Every open code is a code. */
  predicate AllCodes(stack: seq<string>) {
    forall k :: 0 <= k < |stack| ==> IsCode(stack[k])
  }

  /** Each step emits one or two codes, which `StripANSI` removes, and keeps the stack made of codes. */
  lemma {:induction false} StepCodes(stack: seq<string>, token: string, rest: string, paired: bool)
    requires AllCodes(stack) && IsCode(token)
    ensures AllCodes(Step(stack, token, paired).1)
    ensures Breaks(Step(stack, token, paired).0 + rest)
    ensures StripANSI(Step(stack, token, paired).0 + rest) == StripANSI(rest)
  {
    if stack == [] {
      ReplaceCode(token, rest, false);
    } else {
      var top := stack[|stack| - 1];
      MapStylesAreCodes(top);
      var u := Lookup(top).Unset;
      if token == u {
        StepPop(stack, token, rest, paired);
      } else {
        StepPush(stack, token, rest, paired);
      }
    }
  }

  lemma {:induction false} StepPop(stack: seq<string>, token: string, rest: string, paired: bool)
    requires AllCodes(stack) && IsCode(token) && stack != []
    requires token == Lookup(stack[|stack| - 1]).Unset
    ensures AllCodes(Step(stack, token, paired).1)
    ensures Breaks(Step(stack, token, paired).0 + rest)
    ensures StripANSI(Step(stack, token, paired).0 + rest) == StripANSI(rest)
  {
    var more := if |stack| > 1 && (!paired || Lookup(stack[|stack| - 2]).Unset == token) then stack[|stack| - 2] else "";
    assert Step(stack, token, paired).0 == token + more;
    TwoCodes(token, more, rest);
  }

  lemma {:induction false} StepPush(stack: seq<string>, token: string, rest: string, paired: bool)
    requires AllCodes(stack) && IsCode(token) && stack != []
    requires token != Lookup(stack[|stack| - 1]).Unset
    requires CodeStyle(Lookup(stack[|stack| - 1]))
    ensures AllCodes(Step(stack, token, paired).1)
    ensures Breaks(Step(stack, token, paired).0 + rest)
    ensures StripANSI(Step(stack, token, paired).0 + rest) == StripANSI(rest)
  {
    var top := Lookup(stack[|stack| - 1]).Unset;
    var u := if !paired || top == Lookup(token).Unset then top else "";
    assert Step(stack, token, paired).0 == u + token;
    if u == "" {
      assert u + token == token + "";
      TwoCodes(token, "", rest);
    } else {
      TwoCodes(u, token, rest);
    }
  }

  /** A code, then a code or nothing, vanish under `StripANSI`. */
  lemma {:induction false} TwoCodes(a: string, b: string, rest: string)
    requires IsCode(a) && (b == "" || IsCode(b))
    ensures Breaks(a + b + rest)
    ensures StripANSI(a + b + rest) == StripANSI(rest)
  {
    assert a + b + rest == a + (b + rest);
    ReplaceCode(a, b + rest, false);
    if b == "" {
      assert b + rest == rest;
    } else {
      ReplaceCode(b, rest, false);
    }
  }

  /** `StripANSI` of the output from `i` on is `StripANSI` of the input from `i` on. */
  lemma {:induction false} FixStripFrom(s: string, i: nat, stack: seq<string>, paired: bool)
    requires i <= |s| && AllCodes(stack)
    ensures StripANSI(FixFrom(s, i, stack, paired)) == ReplaceFrom(s, i, false)
    decreases |s| - i
  {
    NextCodeLeftmost(s, i);
    match NextCode(s, i)
    case NoMatch =>
      PlainTail(s, i);
    case Match(l, r) =>
      var token := s[l..r];
      var (emit, next) := Step(stack, token, paired);
      TokenIsCode(s, l);
      FixStripFrom(s, r, next, paired);
      FixStripMatch(s, i, l, r, stack, paired);
  }

  lemma {:induction false} FixStripMatch(s: string, i: nat, l: nat, r: nat, stack: seq<string>, paired: bool)
    requires i <= l < |s| && CodeAt(s, l) > 0 && r == l + CodeAt(s, l)
    requires NextCode(s, i) == Match(l, r) && AllCodes(stack)
    requires forall p :: i <= p < l ==> CodeAt(s, p) == 0
    requires IsCode(s[l..r])
    requires StripANSI(FixFrom(s, r, Step(stack, s[l..r], paired).1, paired)) == ReplaceFrom(s, r, false)
    ensures StripANSI(FixFrom(s, i, stack, paired)) == ReplaceFrom(s, i, false)
  {
    var token := s[l..r];
    var (emit, next) := Step(stack, token, paired);
    var rest := FixFrom(s, r, next, paired);
    var gap := s[i..l];
    FixStripGap(s, i, l, r, stack, paired);
    ReplaceGap(s, i, l);
    StripStep(s, l);
  }

  lemma {:induction false} FixStripGap(s: string, i: nat, l: nat, r: nat, stack: seq<string>, paired: bool)
    requires i <= l < |s| && CodeAt(s, l) > 0 && r == l + CodeAt(s, l)
    requires NextCode(s, i) == Match(l, r) && AllCodes(stack)
    requires forall p :: i <= p < l ==> CodeAt(s, p) == 0
    requires IsCode(s[l..r])
    requires StripANSI(FixFrom(s, r, Step(stack, s[l..r], paired).1, paired)) == ReplaceFrom(s, r, false)
    ensures StripANSI(FixFrom(s, i, stack, paired)) == s[i..l] + ReplaceFrom(s, r, false)
  {
    var token := s[l..r];
    var (emit, next) := Step(stack, token, paired);
    var rest := FixFrom(s, r, next, paired);
    var gap := s[i..l];
    FixFromAt(s, i, l, r, stack, paired, emit, next);
    GapNoCode(s, i, l);
    StripGapThen(gap, stack, token, rest, paired);
  }

  /** One match of the scan: the gap before it, what its code emits, then the rest. */
  lemma {:induction false} FixFromAt(s: string, i: nat, l: nat, r: nat, stack: seq<string>, paired: bool, emit: string, next: seq<string>)
    requires i <= l <= r <= |s| && NextCode(s, i) == Match(l, r) && (emit, next) == Step(stack, s[l..r], paired)
    ensures FixFrom(s, i, stack, paired) == s[i..l] + (emit + FixFrom(s, r, next, paired))
  {
  }

  /** Text without codes, then what one code emits, then the rest: stripping keeps the text and strips the rest. */
  lemma {:induction false} StripGapThen(gap: string, stack: seq<string>, token: string, rest: string, paired: bool)
    requires NoCode(gap) && AllCodes(stack) && IsCode(token)
    ensures StripANSI(gap + (Step(stack, token, paired).0 + rest)) == gap + StripANSI(rest)
  {
    var emit := Step(stack, token, paired).0;
    StepCodes(stack, token, rest, paired);
    ReplaceAppend(gap, emit + rest, false);
    ReplaceNoCode(gap, 0, false);
    assert gap[0..] == gap;
  }

  /** `StripANSI` drops a code and goes on after it. */
  lemma {:induction false} StripStep(s: string, l: nat)
    requires l < |s| && CodeAt(s, l) > 0
    ensures ReplaceFrom(s, l, false) == ReplaceFrom(s, l + CodeAt(s, l), false)
  {
    ReplaceStep(s, l, false);
    assert Spelled(CodeDigits(s, l), false) == "";
  }

  /** A code found by the scan, taken out of the string, is a code on its own. */
  lemma {:induction false} TokenIsCode(s: string, l: nat)
    requires l <= |s| && CodeAt(s, l) > 0
    ensures IsCode(s[l..l + CodeAt(s, l)])
  {
    var n := CodeAt(s, l);
    var t := s[l..l + n];
    assert s[..l] + s[l..] == s;
    CodeShift(s[..l], s[l..], 0);
    assert t + s[l + n..] == s[l..];
    CodeTruncate(t, s[l + n..], 0);
  }

  /** A match that ends inside `x` is a match of `x` alone. */
  lemma {:induction false} CodeTruncate(x: string, y: string, p: nat)
    requires p <= |x| && CodeAt(x + y, p) > 0 && p + CodeAt(x + y, p) <= |x|
    ensures CodeAt(x, p) == CodeAt(x + y, p)
  {
    DigitRunTruncate(x, y, p + 2);
  }

  lemma {:induction false} DigitRunTruncate(x: string, y: string, j: nat)
    requires j <= |x| && j + DigitRun(x + y, j) < |x|
    ensures DigitRun(x, j) == DigitRun(x + y, j)
    decreases |x| - j
  {
    if j < |x| && IsDigit(x[j]) {
      DigitRunTruncate(x, y, j + 1);
    }
  }

  /** Where no code starts, the scan copies the text. */
  lemma {:induction false} ReplaceGap(s: string, i: nat, l: nat)
    requires i <= l <= |s|
    requires forall p :: i <= p < l ==> CodeAt(s, p) == 0
    ensures ReplaceFrom(s, i, false) == s[i..l] + ReplaceFrom(s, l, false)
    decreases l - i
  {
    if i < l {
      ReplaceGap(s, i + 1, l);
      ReplaceStep(s, i, false);
      assert s[i..l] == [s[i]] + s[i + 1..l];
    }
  }

  /** With no code after `i`, the output and the scan are both the rest of the text. */
  lemma {:induction false} PlainTail(s: string, i: nat)
    requires i <= |s|
    requires forall p :: i <= p < |s| ==> CodeAt(s, p) == 0
    ensures StripANSI(s[i..]) == ReplaceFrom(s, i, false)
  {
    ReplaceGap(s, i, |s|);
    assert ReplaceFrom(s, |s|, false) == [];
    assert s[i..|s|] == s[i..];
    GapNoCode(s, i, |s|);
    ReplaceNoCode(s[i..], 0, false);
  }

  // ------------------------------------- FixNestedStyle on concrete text

  /** The codes `ESC[c m` for each `c` of `cs`, one after another. */
  function Sgrs(cs: seq<nat>): string
    decreases |cs|
  {
    if cs == [] then "" else Sgr(cs[0]) + Sgrs(cs[1..])
  }

  /** Text `t` without codes, then the codes `cs`, then `rest`. */
  function Seg(t: string, cs: seq<nat>, rest: string): string {
    t + (Sgrs(cs) + rest)
  }

  predicate NoEsc(t: string) {
    forall k :: 0 <= k < |t| ==> t[k] != Esc
  }

  /** Different numbers give different codes. */
  lemma SgrInjective(a: nat, b: nat)
    requires Sgr(a) == Sgr(b)
    ensures a == b
  {
    SgrIsCode(a);
    SgrIsCode(b);
    NatToStringInjective(a, b);
  }

  /** The `styleMap` entry under a style's own `Set` code is that style. */
  lemma {:induction false} LookupSet(j: nat)
    requires j < StyleCount
    ensures Lookup(StyleOf(j).Set) == StyleOf(j)
  {
    LookupBelow(j, 0);
  }

  lemma {:induction false} LookupBelow(j: nat, k: nat)
    requires k <= j < StyleCount
    ensures LookupFrom(StyleOf(j).Set, k) == StyleOf(j)
    decreases j - k
  {
    if k < j {
      if StyleOf(k).Set == StyleOf(j).Set {
        SgrInjective(SetNumber(k), SetNumber(j));
      }
      LookupBelow(j, k + 1);
    }
  }

  /** The scan of `y` from `j` finds in `x + y` the same codes, shifted by `|x|`. */
  lemma {:induction false} NextCodeShift(x: string, y: string, j: nat)
    requires j <= |y|
    ensures NextCode(x + y, |x| + j) ==
      match NextCode(y, j) case NoMatch => NoMatch case Match(l, r) => Match(|x| + l, |x| + r)
    decreases |y| - j
  {
    if j < |y| {
      CodeShift(x, y, j);
      if CodeAt(y, j) == 0 {
        NextCodeShift(x, y, j + 1);
      }
    }
  }

  /** What `FixNestedStyle` appends after a prefix depends only on the text after it. */
  lemma {:induction false} FixFromShift(x: string, y: string, j: nat, stack: seq<string>, paired: bool)
    requires j <= |y|
    ensures FixFrom(x + y, |x| + j, stack, paired) == FixFrom(y, j, stack, paired)
    decreases |y| - j
  {
    NextCodeShift(x, y, j);
    match NextCode(y, j)
    case NoMatch =>
      assert (x + y)[|x| + j..] == y[j..];
    case Match(l, r) =>
      var (emit, next) := Step(stack, y[l..r], paired);
      FixFromShift(x, y, r, next, paired);
      ShiftMatch(x, y, j, l, r, stack, paired, emit, next);
  }

  /** `FixFromShift` at a match, given it after the match. */
  lemma {:induction false} ShiftMatch(x: string, y: string, j: nat, l: nat, r: nat, stack: seq<string>, paired: bool,
                                      emit: string, next: seq<string>)
    requires j <= l <= r <= |y| && NextCode(y, j) == Match(l, r) && NextCode(x + y, |x| + j) == Match(|x| + l, |x| + r)
    requires (emit, next) == Step(stack, y[l..r], paired)
    requires FixFrom(x + y, |x| + r, next, paired) == FixFrom(y, r, next, paired)
    ensures FixFrom(x + y, |x| + j, stack, paired) == FixFrom(y, j, stack, paired)
  {
    SliceShift(x, y, j, l);
    SliceShift(x, y, l, r);
    FixFromAt(x + y, |x| + j, |x| + l, |x| + r, stack, paired, emit, next);
    FixFromAt(y, j, l, r, stack, paired, emit, next);
  }

  lemma {:induction false} SliceShift(x: string, y: string, a: nat, b: nat)
    requires a <= b <= |y|
    ensures (x + y)[|x| + a..|x| + b] == y[a..b]
  {
  }

  /** Text without codes comes back as it is. */
  lemma {:induction false} FixFromPlain(t: string, stack: seq<string>, paired: bool)
    requires NoEsc(t)
    ensures FixFrom(t, 0, stack, paired) == t
  {
    NextCodeSkip(t, 0, |t|);
    assert t[0..] == t;
  }

  /** The first code after text without codes: the text, what the code emits, then the rest. */
  lemma {:induction false} FixFromPiece(t: string, c: nat, rest: string, stack: seq<string>, paired: bool,
                                        emit: seq<nat>, next: seq<string>)
    requires NoEsc(t) && Step(stack, Sgr(c), paired) == (Sgrs(emit), next)
    ensures FixFrom(Seg(t, [c], rest), 0, stack, paired) == Seg(t, emit, FixFrom(rest, 0, next, paired))
  {
    var code := Sgr(c);
    assert Sgrs([c]) == code + Sgrs([]);
    assert Sgrs([c]) == code;
    SgrIsCode(c);
    PieceFix(t, code, rest, stack, paired);
  }

  /** `FixFromPiece` for any code. */
  lemma {:induction false} PieceFix(t: string, code: string, rest: string, stack: seq<string>, paired: bool)
    requires NoEsc(t) && IsCode(code)
    ensures FixFrom(t + (code + rest), 0, stack, paired) ==
      t + (Step(stack, code, paired).0 + FixFrom(rest, 0, Step(stack, code, paired).1, paired))
  {
    var s := t + (code + rest);
    var n := |code|;
    var (emit, next) := Step(stack, code, paired);
    PieceMatch(t, code, rest);
    PieceSlices(t, code, rest);
    FixFromAt(s, 0, |t|, |t| + n, stack, paired, emit, next);
    PieceTail(t, code, rest, next, paired);
  }

  /** After the code, the scan of the whole text goes on as the scan of what follows the code. */
  lemma {:induction false} PieceTail(t: string, code: string, rest: string, stack: seq<string>, paired: bool)
    ensures FixFrom(t + (code + rest), |t| + |code|, stack, paired) == FixFrom(rest, 0, stack, paired)
  {
    PieceRest(t, code, rest);
    FixFromSuffix(t + (code + rest), |t| + |code|, stack, paired);
  }

  lemma {:induction false} PieceRest(t: string, code: string, rest: string)
    ensures (t + (code + rest))[|t| + |code|..] == rest
  {
  }

  /** The scan from position `k` is the scan of the text from `k` on. */
  lemma {:induction false} FixFromSuffix(s: string, k: nat, stack: seq<string>, paired: bool)
    requires k <= |s|
    ensures FixFrom(s, k, stack, paired) == FixFrom(s[k..], 0, stack, paired)
  {
    SplitAt(s, k);
    FixFromShift(s[..k], s[k..], 0, stack, paired);
  }

  lemma {:induction false} SplitAt(s: string, k: nat)
    requires k <= |s|
    ensures s[..k] + s[k..] == s && |s[..k]| + 0 == k
  {
  }

  lemma {:induction false} PieceSlices(t: string, code: string, rest: string)
    ensures (t + (code + rest))[0..|t|] == t && (t + (code + rest))[|t|..|t| + |code|] == code
  {
  }

  /** The scan of text without codes followed by a code finds that code. */
  lemma {:induction false} PieceMatch(t: string, code: string, rest: string)
    requires NoEsc(t) && IsCode(code)
    ensures NextCode(t + (code + rest), 0) == Match(|t|, |t| + |code|)
  {
    var s := t + (code + rest);
    forall p | 0 <= p < |t| ensures CodeAt(s, p) == 0 {
      assert s[p] == t[p];
    }
    NextCodeSkip(s, 0, |t|);
    CodeShift(t, code + rest, 0);
    CodePrefix(code, rest, 0);
  }

  // The steps of the scan on the codes of the examples below.

  /** The unset codes of the styles of the examples. */
  lemma ExampleUnsets()
    ensures Lookup(Sgr(31)).Unset == Sgr(39) && Lookup(Sgr(34)).Unset == Sgr(39)
    ensures Lookup(Sgr(36)).Unset == Sgr(39) && Lookup(Sgr(41)).Unset == Sgr(49)
  {
    LookupSet(5);
    LookupSet(8);
    LookupSet(10);
    LookupSet(13);
  }

  lemma {:induction false} SgrsOne(a: nat)
    ensures Sgrs([a]) == Sgr(a)
  {
    assert [a][1..] == [];
    assert Sgr(a) + "" == Sgr(a);
  }

  lemma {:induction false} SgrsTwo(a: nat, b: nat)
    ensures Sgrs([a, b]) == Sgr(a) + Sgr(b)
  {
    assert [a, b][1..] == [b];
    SgrsOne(b);
  }

  /** Different numbers, different codes. */
  lemma SgrDiffer(a: nat, b: nat)
    requires a != b
    ensures Sgr(a) != Sgr(b)
  {
    if Sgr(a) == Sgr(b) {
      SgrInjective(a, b);
    }
  }

  /** `Step` on a code that does not unset the innermost style. */
  lemma {:induction false} StepPushes(stack: seq<string>, token: string, u: string, ut: string, paired: bool)
    requires stack != [] && Lookup(stack[|stack| - 1]).Unset == u && Lookup(token).Unset == ut && token != u
    ensures Step(stack, token, paired) == ((if !paired || u == ut then u else "") + token, stack + [token])
  {
  }

  /** `Step` on the unset code of the innermost style, with a style under it. */
  lemma {:induction false} StepPops(stack: seq<string>, u: string, b: string, ub: string, paired: bool)
    requires |stack| >= 2 && Lookup(stack[|stack| - 1]).Unset == u && stack[|stack| - 2] == b && Lookup(b).Unset == ub
    ensures Step(stack, u, paired) == (u + (if !paired || ub == u then b else ""), stack[..|stack| - 1])
  {
  }

  /** A code that does not unset the innermost style is pushed. */
  lemma {:induction false} PushStep(stack: seq<string>, ua: nat, c: nat, uc: nat, paired: bool)
    requires stack != [] && Lookup(stack[|stack| - 1]).Unset == Sgr(ua) && Lookup(Sgr(c)).Unset == Sgr(uc) && c != ua
    ensures Step(stack, Sgr(c), paired) == (Sgrs(if !paired || ua == uc then [ua, c] else [c]), stack + [Sgr(c)])
  {
    SgrDiffer(c, ua);
    StepPushes(stack, Sgr(c), Sgr(ua), Sgr(uc), paired);
    SgrsOne(c);
    SgrsTwo(ua, c);
    if ua != uc {
      SgrDiffer(ua, uc);
      assert "" + Sgr(c) == Sgr(c);
    }
  }

  /** The unset code of the innermost style pops it and, under it, reopens `b`. */
  lemma {:induction false} PopStep(stack: seq<string>, ua: nat, b: nat, ub: nat, paired: bool)
    requires |stack| >= 2 && Lookup(stack[|stack| - 1]).Unset == Sgr(ua) && stack[|stack| - 2] == Sgr(b)
    requires Lookup(Sgr(b)).Unset == Sgr(ub)
    ensures Step(stack, Sgr(ua), paired) == (Sgrs(if !paired || ub == ua then [ua, b] else [ua]), stack[..|stack| - 1])
  {
    StepPops(stack, Sgr(ua), Sgr(b), Sgr(ub), paired);
    SgrsOne(ua);
    SgrsTwo(ua, b);
    if ub != ua {
      SgrDiffer(ub, ua);
      assert Sgr(ua) + "" == Sgr(ua);
    }
  }

  /** The unset code of the only open style closes it. */
  lemma {:induction false} LastStep(stack: seq<string>, ua: nat, paired: bool)
    requires |stack| == 1 && Lookup(stack[0]).Unset == Sgr(ua)
    ensures Step(stack, Sgr(ua), paired) == (Sgrs([ua]), [])
  {
    SgrsOne(ua);
    assert Sgr(ua) + "" == Sgr(ua);
  }

  /** The first code opens the first style. */
  lemma {:induction false} FirstStep(c: nat, paired: bool)
    ensures Step([], Sgr(c), paired) == (Sgrs([c]), [Sgr(c)])
  {
    SgrsOne(c);
  }

  /** Text, then a code that opens a style inside the innermost one. */
  lemma {:induction false} PushPiece(t: string, c: nat, rest: string, stack: seq<string>, ua: nat, uc: nat, paired: bool)
    requires NoEsc(t) && stack != [] && Lookup(stack[|stack| - 1]).Unset == Sgr(ua) && Lookup(Sgr(c)).Unset == Sgr(uc) && c != ua
    ensures FixFrom(Seg(t, [c], rest), 0, stack, paired) ==
      Seg(t, if !paired || ua == uc then [ua, c] else [c], FixFrom(rest, 0, stack + [Sgr(c)], paired))
  {
    PushStep(stack, ua, c, uc, paired);
    FixFromPiece(t, c, rest, stack, paired, if !paired || ua == uc then [ua, c] else [c], stack + [Sgr(c)]);
  }

  /** Text, then the code that closes the innermost style, with style `b` under it. */
  lemma {:induction false} PopPiece(t: string, rest: string, stack: seq<string>, ua: nat, b: nat, ub: nat, paired: bool)
    requires NoEsc(t) && |stack| >= 2 && Lookup(stack[|stack| - 1]).Unset == Sgr(ua) && stack[|stack| - 2] == Sgr(b)
    requires Lookup(Sgr(b)).Unset == Sgr(ub)
    ensures FixFrom(Seg(t, [ua], rest), 0, stack, paired) ==
      Seg(t, if !paired || ub == ua then [ua, b] else [ua], FixFrom(rest, 0, stack[..|stack| - 1], paired))
  {
    PopStep(stack, ua, b, ub, paired);
    FixFromPiece(t, ua, rest, stack, paired, if !paired || ub == ua then [ua, b] else [ua], stack[..|stack| - 1]);
  }

  /** Text, then the code that closes the only open style, then text. */
  lemma {:induction false} LastPiece(t: string, ua: nat, rest: string, top: string, paired: bool)
    requires NoEsc(t) && NoEsc(rest) && Lookup(top).Unset == Sgr(ua)
    ensures FixFrom(Seg(t, [ua], rest), 0, [top], paired) == Seg(t, [ua], rest)
  {
    LastStep([top], ua, paired);
    FixFromPiece(t, ua, rest, [top], paired, [ua], []);
    FixFromPlain(rest, [], paired);
  }

  /** Text, then the first code. */
  lemma {:induction false} FirstPiece(t: string, c: nat, rest: string, paired: bool)
    requires NoEsc(t)
    ensures FixFrom(Seg(t, [c], rest), 0, [], paired) == Seg(t, [c], FixFrom(rest, 0, [Sgr(c)], paired))
  {
    FirstStep(c, paired);
    FixFromPiece(t, c, rest, [], paired, [c], [Sgr(c)]);
  }

  /** The example of the doc comment of lib/gop/style.go:144-147: `<red>1<blue>2<cyan>3</cyan>4</blue>5</red>`. */
  const NestedDoc: string :=
    Seg("", [31], Seg("1", [34], Seg("2", [36], Seg("3", [39], Seg("4", [39], Seg("5", [39], ""))))))

  /** `<red>1</red><blue>2</blue><cyan>3</cyan><blue>4</blue><red>5</red>`. */
  const FlatDoc: string :=
    Seg("", [31], Seg("1", [39, 34], Seg("2", [39, 36], Seg("3", [39, 34], Seg("4", [39, 31], Seg("5", [39], ""))))))

  /**
   * Three nested styles that share their unset code `u`, as in the doc
   * comment of lib/gop/style.go:144-147, come out one after another under
   * either rule, whatever the text between the codes.
   */
  lemma {:induction false} DocShape(t1: string, t2: string, t3: string, t4: string, t5: string,
                                    a: nat, b: nat, c: nat, u: nat, paired: bool)
    requires NoEsc(t1) && NoEsc(t2) && NoEsc(t3) && NoEsc(t4) && NoEsc(t5)
    requires Lookup(Sgr(a)).Unset == Sgr(u) && Lookup(Sgr(b)).Unset == Sgr(u) && Lookup(Sgr(c)).Unset == Sgr(u)
    requires b != u && c != u
    ensures FixFrom(Seg("", [a], Seg(t1, [b], Seg(t2, [c], Seg(t3, [u], Seg(t4, [u], Seg(t5, [u], "")))))), 0, [], paired)
         == Seg("", [a], Seg(t1, [u, b], Seg(t2, [u, c], Seg(t3, [u, b], Seg(t4, [u, a], Seg(t5, [u], ""))))))
  {
    var sa, sb := Sgr(a), Sgr(b);
    DocPushes(t2, Seg(t3, [u], Seg(t4, [u], Seg(t5, [u], ""))), a, b, c, u, paired);
    DocPops(t3, t4, t5, a, b, c, u, paired);
    PushPiece(t1, b, Seg(t2, [c], Seg(t3, [u], Seg(t4, [u], Seg(t5, [u], "")))), [sa], u, u, paired);
    assert [sa] + [sb] == [sa, sb];
    FirstPiece("", a, Seg(t1, [b], Seg(t2, [c], Seg(t3, [u], Seg(t4, [u], Seg(t5, [u], ""))))), paired);
  }

  /** The innermost opening code of `DocShape`. */
  lemma {:induction false} DocPushes(t2: string, rest: string, a: nat, b: nat, c: nat, u: nat, paired: bool)
    requires NoEsc(t2) && Lookup(Sgr(b)).Unset == Sgr(u) && Lookup(Sgr(c)).Unset == Sgr(u) && c != u
    ensures FixFrom(Seg(t2, [c], rest), 0, [Sgr(a), Sgr(b)], paired)
         == Seg(t2, [u, c], FixFrom(rest, 0, [Sgr(a), Sgr(b), Sgr(c)], paired))
  {
    PushPiece(t2, c, rest, [Sgr(a), Sgr(b)], u, u, paired);
    assert [Sgr(a), Sgr(b)] + [Sgr(c)] == [Sgr(a), Sgr(b), Sgr(c)];
  }

  /** The three closing codes of `DocShape`. */
  lemma {:induction false} DocPops(t3: string, t4: string, t5: string, a: nat, b: nat, c: nat, u: nat, paired: bool)
    requires NoEsc(t3) && NoEsc(t4) && NoEsc(t5)
    requires Lookup(Sgr(a)).Unset == Sgr(u) && Lookup(Sgr(b)).Unset == Sgr(u) && Lookup(Sgr(c)).Unset == Sgr(u)
    ensures FixFrom(Seg(t3, [u], Seg(t4, [u], Seg(t5, [u], ""))), 0, [Sgr(a), Sgr(b), Sgr(c)], paired)
         == Seg(t3, [u, b], Seg(t4, [u, a], Seg(t5, [u], "")))
  {
    var sa, sb, sc := Sgr(a), Sgr(b), Sgr(c);
    InnerPops(t4, t5, "", a, b, u, u, paired);
    PopPiece(t3, Seg(t4, [u], Seg(t5, [u], "")), [sa, sb, sc], u, b, u, paired);
    assert [sa, sb, sc][..2] == [sa, sb];
  }

  /**
   * Two closing codes with two styles open: the inner one, unset by `u`,
   * and under it the outer one, unset by `w`.
   */
  lemma {:induction false} InnerPops(t4: string, t5: string, rest: string, a: nat, b: nat, u: nat, w: nat, paired: bool)
    requires NoEsc(t4) && NoEsc(t5) && NoEsc(rest)
    requires Lookup(Sgr(a)).Unset == Sgr(w) && Lookup(Sgr(b)).Unset == Sgr(u)
    ensures FixFrom(Seg(t4, [u], Seg(t5, [w], rest)), 0, [Sgr(a), Sgr(b)], paired)
         == Seg(t4, if !paired || w == u then [u, a] else [u], Seg(t5, [w], rest))
  {
    var sa, sb := Sgr(a), Sgr(b);
    LastPiece(t5, w, rest, sa, paired);
    PopPiece(t4, Seg(t5, [w], rest), [sa, sb], u, a, w, paired);
    assert [sa, sb][..1] == [sa];
  }

  /** The doc comment's example, as `FixNestedStyle` and as the paired rule. */
  lemma FixNestedDoc()
    ensures FixNested(NestedDoc) == FlatDoc && FixNestedPaired(NestedDoc) == FlatDoc
  {
    ExampleUnsets();
    DocShape("1", "2", "3", "4", "5", 31, 34, 36, 39, false);
    DocShape("1", "2", "3", "4", "5", 31, 34, 36, 39, true);
  }

  /**
   * The input of the test of lib/gop/format_test.go:229-242:
   * `<bgred> 0 <red> 1 <blue> 2 <cyan> 3 </cyan> 4 </blue> 5 </red> 6 </bgred>`.
   */
  const NestedTest: string :=
    Seg("", [41], Seg(" 0 ", [31], Seg(" 1 ", [34], Seg(" 2 ", [36],
      Seg(" 3 ", [39], Seg(" 4 ", [39], Seg(" 5 ", [39], Seg(" 6 ", [49], ""))))))))

  /** The output the test expects: the background is not closed around the inner styles. */
  const FlatTest: string :=
    Seg("", [41], Seg(" 0 ", [31], Seg(" 1 ", [39, 34], Seg(" 2 ", [39, 36],
      Seg(" 3 ", [39, 34], Seg(" 4 ", [39, 31], Seg(" 5 ", [39], Seg(" 6 ", [49], ""))))))))

  /** The output of `FixNestedStyle` as written: the background is closed before red and reopened after it. */
  const FlatTestAsWritten: string :=
    Seg("", [41], Seg(" 0 ", [49, 31], Seg(" 1 ", [39, 34], Seg(" 2 ", [39, 36],
      Seg(" 3 ", [39, 34], Seg(" 4 ", [39, 31], Seg(" 5 ", [39, 41], Seg(" 6 ", [49], ""))))))))

  /**
   * Three nested styles that share their unset code `u`, inside a fourth
   * style with another unset code `w`, as in the test: as written the outer
   * style is closed and reopened around the inner ones, under the paired
   * rule it is not.
   */
  lemma {:induction false} TestShape(t0: string, t1: string, t2: string, t3: string, t4: string, t5: string, t6: string,
                                     g: nat, a: nat, b: nat, c: nat, u: nat, w: nat, paired: bool)
    requires NoEsc(t0) && NoEsc(t1) && NoEsc(t2) && NoEsc(t3) && NoEsc(t4) && NoEsc(t5) && NoEsc(t6)
    requires Lookup(Sgr(g)).Unset == Sgr(w)
    requires Lookup(Sgr(a)).Unset == Sgr(u) && Lookup(Sgr(b)).Unset == Sgr(u) && Lookup(Sgr(c)).Unset == Sgr(u)
    requires a != w && b != u && c != u && u != w
    ensures FixFrom(Seg("", [g], Seg(t0, [a], Seg(t1, [b], Seg(t2, [c],
              Seg(t3, [u], Seg(t4, [u], Seg(t5, [u], Seg(t6, [w], "")))))))), 0, [], paired)
         == Seg("", [g], Seg(t0, if paired then [a] else [w, a], Seg(t1, [u, b], Seg(t2, [u, c],
              Seg(t3, [u, b], Seg(t4, [u, a], Seg(t5, if paired then [u] else [u, g], Seg(t6, [w], ""))))))))
  {
    var sg, sa := Sgr(g), Sgr(a);
    TestInner(t1, t2, t3, t4, t5, t6, g, a, b, c, u, w, paired);
    PushPiece(t0, a, Seg(t1, [b], Seg(t2, [c], Seg(t3, [u], Seg(t4, [u], Seg(t5, [u], Seg(t6, [w], "")))))),
              [sg], w, u, paired);
    assert [sg] + [sa] == [sg, sa];
    FirstPiece("", g, Seg(t0, [a], Seg(t1, [b], Seg(t2, [c], Seg(t3, [u], Seg(t4, [u], Seg(t5, [u], Seg(t6, [w], ""))))))),
               paired);
  }

  /** `TestShape` once the outer two styles are open. */
  lemma {:induction false} TestInner(t1: string, t2: string, t3: string, t4: string, t5: string, t6: string,
                                     g: nat, a: nat, b: nat, c: nat, u: nat, w: nat, paired: bool)
    requires NoEsc(t1) && NoEsc(t2) && NoEsc(t3) && NoEsc(t4) && NoEsc(t5) && NoEsc(t6)
    requires Lookup(Sgr(g)).Unset == Sgr(w)
    requires Lookup(Sgr(a)).Unset == Sgr(u) && Lookup(Sgr(b)).Unset == Sgr(u) && Lookup(Sgr(c)).Unset == Sgr(u)
    requires b != u && c != u && u != w
    ensures FixFrom(Seg(t1, [b], Seg(t2, [c], Seg(t3, [u], Seg(t4, [u], Seg(t5, [u], Seg(t6, [w], "")))))), 0, [Sgr(g), Sgr(a)], paired)
         == Seg(t1, [u, b], Seg(t2, [u, c], Seg(t3, [u, b], Seg(t4, [u, a], Seg(t5, if paired then [u] else [u, g], Seg(t6, [w], ""))))))
  {
    var sg, sa, sb, sc := Sgr(g), Sgr(a), Sgr(b), Sgr(c);
    TestPops(t3, t4, t5, t6, g, a, b, c, u, w, paired);
    PushPiece(t2, c, Seg(t3, [u], Seg(t4, [u], Seg(t5, [u], Seg(t6, [w], "")))), [sg, sa, sb], u, u, paired);
    assert [sg, sa, sb] + [sc] == [sg, sa, sb, sc];
    PushPiece(t1, b, Seg(t2, [c], Seg(t3, [u], Seg(t4, [u], Seg(t5, [u], Seg(t6, [w], ""))))), [sg, sa], u, u, paired);
    assert [sg, sa] + [sb] == [sg, sa, sb];
  }

  /** The four closing codes of `TestShape`. */
  lemma {:induction false} TestPops(t3: string, t4: string, t5: string, t6: string,
                                    g: nat, a: nat, b: nat, c: nat, u: nat, w: nat, paired: bool)
    requires NoEsc(t3) && NoEsc(t4) && NoEsc(t5) && NoEsc(t6)
    requires Lookup(Sgr(g)).Unset == Sgr(w)
    requires Lookup(Sgr(a)).Unset == Sgr(u) && Lookup(Sgr(b)).Unset == Sgr(u) && Lookup(Sgr(c)).Unset == Sgr(u)
    requires u != w
    ensures FixFrom(Seg(t3, [u], Seg(t4, [u], Seg(t5, [u], Seg(t6, [w], "")))), 0, [Sgr(g), Sgr(a), Sgr(b), Sgr(c)], paired)
         == Seg(t3, [u, b], Seg(t4, [u, a], Seg(t5, if paired then [u] else [u, g], Seg(t6, [w], ""))))
  {
    var sg, sa, sb, sc := Sgr(g), Sgr(a), Sgr(b), Sgr(c);
    InnerPops(t5, t6, "", g, a, u, w, paired);
    PopPiece(t4, Seg(t5, [u], Seg(t6, [w], "")), [sg, sa, sb], u, a, u, paired);
    assert [sg, sa, sb][..2] == [sg, sa];
    PopPiece(t3, Seg(t4, [u], Seg(t5, [u], Seg(t6, [w], ""))), [sg, sa, sb, sc], u, b, u, paired);
    assert [sg, sa, sb, sc][..3] == [sg, sa, sb];
  }

  /** On the test's input, `FixNestedStyle` as written does not give the output the test expects. */
  lemma FixNestedTestAsWritten()
    ensures FixNested(NestedTest) == FlatTestAsWritten && FixNested(NestedTest) != FlatTest
  {
    TestAsWrittenRun();
    FlatTestsDiffer();
  }

  lemma TestAsWrittenRun()
    ensures FixNested(NestedTest) == FlatTestAsWritten
  {
    TestRun(NestedTest, false);
  }

  /** The scan of the test's input, under either rule. */
  lemma TestRun(s: string, paired: bool)
    requires s == NestedTest
    ensures FixFrom(s, 0, [], paired) == if paired then FlatTest else FlatTestAsWritten
  {
    ExampleUnsets();
    TestShape(" 0 ", " 1 ", " 2 ", " 3 ", " 4 ", " 5 ", " 6 ", 41, 31, 34, 36, 39, 49, paired);
  }

  /** The two outputs differ in the first code after ` 0 `: `ESC[49m` against `ESC[31m`. */
  lemma FlatTestsDiffer()
    ensures FlatTestAsWritten != FlatTest
  {
    var rest := Seg(" 1 ", [39, 34], Seg(" 2 ", [39, 36], Seg(" 3 ", [39, 34], Seg(" 4 ", [39, 31], Seg(" 5 ", [39, 41], Seg(" 6 ", [49], ""))))));
    var rest' := Seg(" 1 ", [39, 34], Seg(" 2 ", [39, 36], Seg(" 3 ", [39, 34], Seg(" 4 ", [39, 31], Seg(" 5 ", [39], Seg(" 6 ", [49], ""))))));
    FirstCodeDiffers(" 0 ", [49, 31], [31], rest, rest');
    SegCancel("", [41], Seg(" 0 ", [49, 31], rest), Seg(" 0 ", [31], rest'));
  }

  /** Text followed by different codes is different text. */
  lemma {:induction false} FirstCodeDiffers(t: string, cs: seq<nat>, ds: seq<nat>, x: string, y: string)
    requires cs != [] && ds != [] && NatToString(cs[0])[0] != NatToString(ds[0])[0]
    ensures Seg(t, cs, x) != Seg(t, ds, y)
  {
    var p, q := Seg(t, cs, x), Seg(t, ds, y);
    assert p[|t| + 2] == Sgr(cs[0])[2] == NatToString(cs[0])[0];
    assert q[|t| + 2] == Sgr(ds[0])[2] == NatToString(ds[0])[0];
  }

  /** Equal text and codes before different text leave the whole different. */
  lemma {:induction false} SegCancel(t: string, cs: seq<nat>, x: string, y: string)
    requires x != y
    ensures Seg(t, cs, x) != Seg(t, cs, y)
  {
    var n := |t| + |Sgrs(cs)|;
    assert Seg(t, cs, x)[n..] == x;
    assert Seg(t, cs, y)[n..] == y;
  }

  /** The paired rule gives the output the test expects. */
  lemma FixNestedTestPaired()
    ensures FixNestedPaired(NestedTest) == FlatTest
  {
    TestRun(NestedTest, true);
  }

  /** `FixNestedStyle` only moves, adds and removes codes: the text without codes is unchanged. */
  lemma {:induction false} FixStrip(s: string)
    ensures StripANSI(FixNested(s)) == StripANSI(s)
  {
    FixStripFrom(s, 0, [], false);
  }

  /** The paired rule, too, changes no visible text. */
  lemma {:induction false} FixStripPaired(s: string)
    ensures StripANSI(FixNestedPaired(s)) == StripANSI(s)
  {
    FixStripFrom(s, 0, [], true);
  }

  /** A string without codes comes back unchanged. */
  lemma {:induction false} FixNoCodes(s: string)
    requires NoCode(s)
    ensures FixNested(s) == s
  {
    NextCodeLeftmost(s, 0);
    NextCodeSkip(s, 0, |s|);
    assert s[0..] == s;
  }
}
