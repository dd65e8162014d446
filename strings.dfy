/**
 * Text helpers shared by the modules of this project: Go's `strings.Join`,
 * decimal formatting (`%d`), the UTF-8 byte length of a string (Go's `len`)
 * and the line splitting that `bufio.Scanner` with `ScanLines` performs.
 *
 * A Go string is modelled as the sequence of its runes (`seq<char>`); only
 * valid UTF-8 is modelled.
 */
module Strings {

  /** Concatenation of all pieces (`strings.Join(xs, "")` on strings). */
  function Concat<T>(xs: seq<seq<T>>): (r: seq<T>)
    ensures xs == [] ==> r == []
  {
    if xs == [] then [] else Concat(xs[..|xs| - 1]) + xs[|xs| - 1]
  }

  /** `strings.Join(xs, sep)`. */
  function Join(xs: seq<string>, sep: string): (r: string)
    ensures xs == [] ==> r == ""
    ensures |xs| == 1 ==> r == xs[0]
  {
    if xs == [] then ""
    else if |xs| == 1 then xs[0]
    else Join(xs[..|xs| - 1], sep) + sep + xs[|xs| - 1]
  }

  lemma {:induction false} ConcatAppend<T>(xs: seq<seq<T>>, x: seq<T>)
    ensures Concat(xs + [x]) == Concat(xs) + x
  {
    assert (xs + [x])[..|xs|] == xs;
  }

  lemma {:induction false} ConcatJoin<T>(xs: seq<seq<T>>, ys: seq<seq<T>>)
    ensures Concat(xs + ys) == Concat(xs) + Concat(ys)
    decreases |ys|
  {
    if ys == [] {
      assert xs + ys == xs;
    } else {
      var ys' := ys[..|ys| - 1];
      assert xs + ys == (xs + ys') + [ys[|ys| - 1]];
      ConcatAppend(xs + ys', ys[|ys| - 1]);
      ConcatJoin(xs, ys');
      ConcatAppend(ys', ys[|ys| - 1]);
      assert ys == ys' + [ys[|ys| - 1]];
    }
  }

  lemma {:induction false} JoinAppend(xs: seq<string>, x: string, sep: string)
    requires xs != []
    ensures Join(xs + [x], sep) == Join(xs, sep) + sep + x
  {
    assert (xs + [x])[..|xs|] == xs;
  }

  /** Whether `c` occurs in `s` (`strings.ContainsRune`). */
  predicate Contains(s: string, c: char) {
    exists i :: 0 <= i < |s| && s[i] == c
  }

  predicate HasPrefix(s: string, p: string) {
    |p| <= |s| && s[..|p|] == p
  }

  /** `strings.Repeat(s, n)` for a one-character `s`: `n` copies of `c`. */
  function Repeat(c: char, n: nat): (r: string) {
    seq(n, _ => c)
  }

  // ---------------------------------------------------------------- decimal

  function DigitChar(d: nat): char
    requires d < 10
  {
    "0123456789"[d]
  }

  /** Decimal digits of a natural number, as `strconv.Itoa` prints it. */
  function NatToString(n: nat): (r: string)
    ensures |r| >= 1
    ensures forall i :: 0 <= i < |r| ==> '0' <= r[i] <= '9'
    decreases n
  {
    if n < 10 then [DigitChar(n)] else NatToString(n / 10) + [DigitChar(n % 10)]
  }

  /** `fmt.Sprintf("%d", n)` for any integer. */
  function IntToString(n: int): string {
    if n < 0 then "-" + NatToString(-n) else NatToString(n)
  }

  /** Number of characters `%d` prints for `n`. */
  function DecimalWidth(n: int): nat {
    |IntToString(n)|
  }

  /** A larger number never has fewer digits. */
  lemma {:induction false} DigitsMonotone(a: nat, b: nat)
    requires a <= b
    ensures |NatToString(a)| <= |NatToString(b)|
    decreases b
  {
    if a >= 10 {
      DigitsMonotone(a / 10, b / 10);
    }
  }

  /** The digit characters are the ten consecutive characters from '0'. */
  lemma DigitCharCode(d: nat)
    requires d < 10
    ensures DigitChar(d) as int == '0' as int + d
  {
    if d == 0 {} else if d == 1 {} else if d == 2 {} else if d == 3 {} else if d == 4 {}
    else if d == 5 {} else if d == 6 {} else if d == 7 {} else if d == 8 {} else {}
  }

  /** Numbers with ten or more have at least two digits. */
  lemma TwoDigits(n: nat)
    requires 10 <= n
    ensures |NatToString(n)| >= 2
  {
  }

  /** Different numbers print differently: the decimal digits determine the number. */
  lemma {:induction false} NatToStringInjective(a: nat, b: nat)
    requires NatToString(a) == NatToString(b)
    ensures a == b
    decreases a
  {
    var x, y := NatToString(a), NatToString(b);
    if a < 10 && b < 10 {
      DigitCharCode(a);
      DigitCharCode(b);
    } else if a >= 10 && b >= 10 {
      assert x[..|x| - 1] == NatToString(a / 10);
      assert y[..|y| - 1] == NatToString(b / 10);
      NatToStringInjective(a / 10, b / 10);
      assert x[|x| - 1] == DigitChar(a % 10) && y[|y| - 1] == DigitChar(b % 10);
      DigitCharCode(a % 10);
      DigitCharCode(b % 10);
    } else if a >= 10 {
      TwoDigits(a);
    } else {
      TwoDigits(b);
    }
  }

  /** Text made only of spaces. */
  predicate Blank(s: string) {
    forall i :: 0 <= i < |s| ==> s[i] == ' '
  }

  /** `fmt.Sprintf("%0*d", width, n)` for a natural number. */
  function ZeroPad(n: nat, width: nat): (r: string)
    ensures |r| == if |NatToString(n)| < width then width else |NatToString(n)|
  {
    var d := NatToString(n);
    (if |d| < width then Repeat('0', width - |d|) else "") + d
  }

  // ------------------------------------------------------------------ UTF-8

  /** Number of bytes the UTF-8 encoding of `c` takes. */
  function RuneLen(c: char): nat {
    if c as int < 0x80 then 1
    else if c as int < 0x800 then 2
    else if c as int < 0x1_0000 then 3
    else 4
  }

  /** `len(s)` in Go: the number of UTF-8 bytes of `s`. */
  function ByteLen(s: string): (n: nat)
    ensures n >= |s|
  {
    if s == [] then 0 else ByteLen(s[..|s| - 1]) + RuneLen(s[|s| - 1])
  }

  predicate IsAscii(s: string) {
    forall i :: 0 <= i < |s| ==> s[i] as int < 0x80
  }

  lemma {:induction false} AsciiByteLen(s: string)
    requires IsAscii(s)
    ensures ByteLen(s) == |s|
  {
    if s != [] {
      AsciiByteLen(s[..|s| - 1]);
    }
  }

  // ------------------------------------------------------------- line split

  /**
   * Splits `s` at every '\n'; the result always has one more piece than
   * `s` has newlines. Defined from the back so that a left-to-right scan
   * can extend it one character at a time.
   */
  function SplitNewlines(s: string): (r: seq<string>)
    ensures |r| >= 1
  {
    if s == [] then [""]
    else
      var p := SplitNewlines(s[..|s| - 1]);
      if s[|s| - 1] == '\n' then p + [""]
      else p[..|p| - 1] + [p[|p| - 1] + [s[|s| - 1]]]
  }

  function CountChar(s: string, c: char): nat {
    if s == [] then 0 else CountChar(s[..|s| - 1], c) + (if s[|s| - 1] == c then 1 else 0)
  }

  lemma {:induction false} SplitNewlinesCount(s: string)
    ensures |SplitNewlines(s)| == CountChar(s, '\n') + 1
  {
    if s != [] {
      SplitNewlinesCount(s[..|s| - 1]);
    }
  }

  /** No piece of the split contains a newline. */
  lemma {:induction false} SplitNewlinesPieces(s: string)
    ensures forall i :: 0 <= i < |SplitNewlines(s)| ==> !Contains(SplitNewlines(s)[i], '\n')
  {
    if s != [] {
      SplitNewlinesPieces(s[..|s| - 1]);
    }
  }

  /** Appending a character to the last piece appends it to the join. */
  lemma {:induction false} JoinExtendLast(p: seq<string>, c: char, sep: string)
    requires p != []
    ensures Join(p[..|p| - 1] + [p[|p| - 1] + [c]], sep) == Join(p, sep) + [c]
  {
    var last := p[|p| - 1];
    if |p| > 1 {
      var q := p[..|p| - 1];
      assert p == q + [last];
      JoinAppend(q, last, sep);
      JoinAppend(q, last + [c], sep);
    }
  }

  /** Joining the pieces with "\n" gives back the string. */
  lemma {:induction false} SplitNewlinesJoin(s: string)
    ensures Join(SplitNewlines(s), "\n") == s
  {
    if s != [] {
      var s', c := s[..|s| - 1], s[|s| - 1];
      var p := SplitNewlines(s');
      SplitNewlinesJoin(s');
      assert s == s' + [c];
      if c == '\n' {
        JoinAppend(p, "", "\n");
      } else {
        JoinExtendLast(p, c, "\n");
      }
    }
  }

  /** Appending text without a newline extends the last piece of the split. */
  lemma {:induction false} SplitNewlinesExtend(s: string, t: string)
    requires !Contains(t, '\n')
    ensures var p := SplitNewlines(s);
      SplitNewlines(s + t) == p[..|p| - 1] + [p[|p| - 1] + t]
    decreases |t|
  {
    var p := SplitNewlines(s);
    if t == [] {
      assert s + t == s;
      LastPieceEmpty(p);
    } else {
      NoNewlineFront(t);
      SplitNewlinesExtend(s, t[..|t| - 1]);
      ExtendLast(s, t);
    }
  }

  /** The step of `SplitNewlinesExtend`: from t without its last character to t. */
  lemma ExtendLast(s: string, t: string)
    requires t != [] && t[|t| - 1] != '\n'
    requires var p := SplitNewlines(s);
      SplitNewlines(s + t[..|t| - 1]) == p[..|p| - 1] + [p[|p| - 1] + t[..|t| - 1]]
    ensures var p := SplitNewlines(s);
      SplitNewlines(s + t) == p[..|p| - 1] + [p[|p| - 1] + t]
  {
    var t', c := t[..|t| - 1], t[|t| - 1];
    ExtendOne(s + t', c, SplitNewlines(s), t');
    ConcatSnoc(s, t);
  }

  /** Splitting off the last character of the second part of a concatenation. */
  lemma ConcatSnoc(s: string, t: string)
    requires t != []
    ensures s + t == (s + t[..|t| - 1]) + [t[|t| - 1]] && t[..|t| - 1] + [t[|t| - 1]] == t
  {
  }

  /** One more character that is no newline extends the last piece once more. */
  lemma ExtendOne(u: string, c: char, p: seq<string>, t: string)
    requires c != '\n' && p != [] && SplitNewlines(u) == p[..|p| - 1] + [p[|p| - 1] + t]
    ensures SplitNewlines(u + [c]) == p[..|p| - 1] + [p[|p| - 1] + (t + [c])]
  {
    SplitNewlinesSnoc(u, c);
    LastPieceTwice(p, t, c);
  }

  /** Extending the last piece by nothing changes nothing. */
  lemma LastPieceEmpty(p: seq<string>)
    requires p != []
    ensures p[..|p| - 1] + [p[|p| - 1] + ""] == p
  {
    assert p[|p| - 1] + "" == p[|p| - 1];
  }

  /** Extending the last piece by t and then by c extends it by t + [c]. */
  lemma LastPieceTwice(p: seq<string>, t: string, c: char)
    requires p != []
    ensures var q := p[..|p| - 1] + [p[|p| - 1] + t];
      q[..|q| - 1] + [q[|q| - 1] + [c]] == p[..|p| - 1] + [p[|p| - 1] + (t + [c])]
  {
    var q := p[..|p| - 1] + [p[|p| - 1] + t];
    assert q[..|q| - 1] == p[..|p| - 1];
    assert (p[|p| - 1] + t) + [c] == p[|p| - 1] + (t + [c]);
  }

  /** A newline-free string without its last character is newline-free, and that character is no newline. */
  lemma NoNewlineFront(t: string)
    requires t != [] && !Contains(t, '\n')
    ensures !Contains(t[..|t| - 1], '\n') && t[|t| - 1] != '\n'
  {
    var t' := t[..|t| - 1];
    forall i | 0 <= i < |t'| ensures t'[i] != '\n' { assert t'[i] == t[i]; }
  }

  /** One more character either starts a new piece or extends the last one. */
  lemma {:induction false} SplitNewlinesSnoc(w: string, c: char)
    ensures var p := SplitNewlines(w);
      SplitNewlines(w + [c]) == if c == '\n' then p + [""] else p[..|p| - 1] + [p[|p| - 1] + [c]]
  {
    var u := w + [c];
    assert u[..|u| - 1] == w;
  }

  /** The split of a string ending in a newline ends with an empty piece. */
  lemma {:induction false} SplitNewlinesBreak(s: string)
    ensures SplitNewlines(s + "\n") == SplitNewlines(s) + [""]
  {
    SplitNewlinesSnoc(s, '\n');
  }

  /** Splitting a join of newline-free pieces at its newlines gives the pieces back. */
  lemma {:induction false} JoinSplitNewlines(xs: seq<string>)
    requires xs != []
    requires forall i :: 0 <= i < |xs| ==> !Contains(xs[i], '\n')
    ensures SplitNewlines(Join(xs, "\n")) == xs
  {
    if |xs| == 1 {
      SplitNewlinesExtend("", xs[0]);
      assert "" + xs[0] == xs[0];
    } else {
      var front := xs[..|xs| - 1];
      assert forall i :: 0 <= i < |front| ==> front[i] == xs[i];
      JoinSplitNewlines(front);
      JoinSplitLast(xs);
    }
  }

  /** The step of `JoinSplitNewlines`: from all pieces but the last to all of them. */
  lemma JoinSplitLast(xs: seq<string>)
    requires |xs| > 1 && !Contains(xs[|xs| - 1], '\n')
    requires SplitNewlines(Join(xs[..|xs| - 1], "\n")) == xs[..|xs| - 1]
    ensures SplitNewlines(Join(xs, "\n")) == xs
  {
    JoinSnoc(xs);
    SplitAfterBreak(Join(xs[..|xs| - 1], "\n"), xs[|xs| - 1], xs[..|xs| - 1]);
  }

  /** A join of two or more pieces is the join of all but the last, "\n" and the last. */
  lemma JoinSnoc(xs: seq<string>)
    requires |xs| > 1
    ensures Join(xs, "\n") == (Join(xs[..|xs| - 1], "\n") + "\n") + xs[|xs| - 1]
    ensures xs == xs[..|xs| - 1] + [xs[|xs| - 1]]
  {
  }

  /** A newline and a newline-free piece after a string add the piece to its split. */
  lemma SplitAfterBreak(s: string, last: string, front: seq<string>)
    requires SplitNewlines(s) == front && !Contains(last, '\n')
    ensures SplitNewlines((s + "\n") + last) == front + [last]
  {
    SplitNewlinesBreak(s);
    SplitNewlinesExtend(s + "\n", last);
    JoinLastPiece(front, last);
  }

  /** Adding a piece after an empty last piece. */
  lemma JoinLastPiece(front: seq<string>, last: string)
    ensures var p := front + [""];
      p[..|p| - 1] + [p[|p| - 1] + last] == front + [last]
  {
    var p := front + [""];
    assert p[..|p| - 1] == front && p[|p| - 1] + last == last;
  }

  /** `dropCR` of `bufio.ScanLines`: a trailing '\r' is removed from each line. */
  function DropCR(l: string): string {
    if |l| > 0 && l[|l| - 1] == '\r' then l[..|l| - 1] else l
  }

  function MapDropCR(ls: seq<string>): (r: seq<string>)
    ensures |r| == |ls|
    ensures forall i :: 0 <= i < |ls| ==> r[i] == DropCR(ls[i])
  {
    if ls == [] then [] else MapDropCR(ls[..|ls| - 1]) + [DropCR(ls[|ls| - 1])]
  }

  /**
   * The tokens a `bufio.Scanner` with `ScanLines` yields for `s`: every
   * '\n'-separated piece with a trailing '\r' dropped, except that no token
   * follows a final '\n' (and the empty input has none).
   */
  function ScanTokens(s: string): seq<string> {
    if s == [] then []
    else if s[|s| - 1] == '\n' then
      var ls := MapDropCR(SplitNewlines(s));
      ls[..|ls| - 1]
    else MapDropCR(SplitNewlines(s))
  }

  /**
   * The lines of `s` as the got library reads them: the scanner's tokens,
   * followed by one empty line when `s` ends with '\n'.
   */
  function ScanLines(s: string): (r: seq<string>)
    ensures s != [] ==> r == MapDropCR(SplitNewlines(s))
    ensures s == [] ==> r == []
  {
    ScanTokens(s) + (if s != [] && s[|s| - 1] == '\n' then [""] else [])
  }

  /** Without '\r', joining the lines with "\n" gives back the input. */
  lemma {:induction false} ScanLinesJoin(s: string)
    requires !Contains(s, '\r')
    ensures Join(ScanLines(s), "\n") == s
  {
    if s != [] {
      SplitNewlinesNoCR(s);
      SplitNewlinesJoin(s);
      assert MapDropCR(SplitNewlines(s)) == SplitNewlines(s);
    }
  }

  lemma {:induction false} SplitNewlinesNoCR(s: string)
    requires !Contains(s, '\r')
    ensures forall i :: 0 <= i < |SplitNewlines(s)| ==> DropCR(SplitNewlines(s)[i]) == SplitNewlines(s)[i]
  {
    if s != [] {
      var s' := s[..|s| - 1];
      assert !Contains(s', '\r') by {
        forall i | 0 <= i < |s'| ensures s'[i] != '\r' { assert s'[i] == s[i]; }
      }
      SplitNewlinesNoCR(s');
      assert s[|s| - 1] != '\r';
    }
  }

  /** The line count is one more than the number of newlines (for non-empty input). */
  lemma {:induction false} ScanLinesCount(s: string)
    requires s != []
    ensures |ScanLines(s)| == CountChar(s, '\n') + 1
  {
    SplitNewlinesCount(s);
  }

  /** A trailing newline produces a final empty line. */
  lemma {:induction false} ScanLinesTrailingNewline(s: string)
    requires s != [] && s[|s| - 1] == '\n'
    ensures ScanLines(s)[|ScanLines(s)| - 1] == ""
  {
    assert ScanLines(s) == ScanTokens(s) + [""];
  }
}
