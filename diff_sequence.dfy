/**
 * The comparable items of the table-based diff (`lib/diff/sequence.go`):
 * runes (`Char`), whose hash is their code point as four big-endian bytes,
 * and lines (`Line`), whose hash is a digest of their bytes, with the
 * constructors that cut a string into either.
 *
 * `NewString` sizes its result by the byte length of the string but fills
 * it by rune, so a slot inside a multi-byte rune stays nil; such a slot is
 * `Absent` here, and every operation that asks a nil item for its hash or
 * its text requires that there is none.
 *
 * md5 is replaced by `Digest`, the code points of the line, which like md5
 * (barring collisions) is injective.
 */
module DiffSequence {
  import opened Strings

  type Byte = b: int | 0 <= b < 256

  /** A `Comparable` of this package, or a nil slot. */
  datatype Comparable = Absent | Char(r: char) | Line(hash: seq<int>, str: string)

  // ------------------------------------------------------------------- Char

  /** `Char.Hash`: `binary.BigEndian.PutUint32` of the code point. */
  function CharHash(c: char): (h: seq<Byte>)
    ensures |h| == 4
  {
    var n := c as int;
    [n / 0x100_0000 % 256, n / 0x1_0000 % 256, n / 0x100 % 256, n % 256]
  }

  /** Reads four big-endian bytes back as a number. */
  function BigEndian(h: seq<Byte>): int
    requires |h| == 4
  {
    var b0, b1, b2, b3: int := h[0], h[1], h[2], h[3];
    ((b0 * 256 + b1) * 256 + b2) * 256 + b3
  }

  /** The hash spells the code point, so distinct runes have distinct hashes. */
  lemma {:induction false} CharHashDecodes(c: char)
    ensures BigEndian(CharHash(c)) == c as int
  {
    var n := c as int;
    assert n < 0x1_0000_0000;
    var b0, b1, b2, b3 := n / 0x100_0000 % 256, n / 0x1_0000 % 256, n / 0x100 % 256, n % 256;
    assert n / 0x100_0000 < 256;
    assert n / 0x1_0000 == (n / 0x100_0000) * 256 + b1;
    assert n / 0x100 == (n / 0x1_0000) * 256 + b2;
    assert n == (n / 0x100) * 256 + b3;
  }

  lemma {:induction false} CharHashInjective(c: char, d: char)
    ensures CharHash(c) == CharHash(d) <==> c == d
  {
    CharHashDecodes(c);
    CharHashDecodes(d);
  }

  // ------------------------------------------------------------------- Line

  /** Stand-in for md5: the code points of the line's text. */
  function Digest(b: string): (h: seq<int>)
    ensures |h| == |b|
  {
    seq(|b|, i requires 0 <= i < |b| => b[i] as int)
  }

  lemma {:induction false} DigestInjective(a: string, b: string)
    ensures Digest(a) == Digest(b) <==> a == b
  {
    if Digest(a) == Digest(b) {
      forall i | 0 <= i < |a| ensures a[i] == b[i] {
        assert Digest(a)[i] == Digest(b)[i];
      }
    }
  }

  /** `NewLine`: keeps the text and stores its digest. */
  function NewLine(b: string): (l: Comparable)
    ensures l.Line? && l.str == b
  {
    Line(Digest(b), b)
  }

  /** `Hash` of either kind of item. */
  function Hash(c: Comparable): seq<int>
    requires !c.Absent?
  {
    if c.Char? then CharHash(c.r) else c.hash
  }

  /** Two lines made by `NewLine` have equal hashes exactly when their texts are equal. */
  lemma {:induction false} LineHash(a: string, b: string)
    ensures Hash(NewLine(a)) == Hash(NewLine(b)) <==> a == b
  {
    DigestInjective(a, b);
  }

  // -------------------------------------------------------------- NewString

  /** The slots of `NewString(s)`: one per byte, the rune at the first byte of each rune, nil after it. */
  function Slots(s: string): (r: seq<Comparable>)
    ensures |r| == ByteLen(s)
  {
    if s == [] then []
    else Slots(s[..|s| - 1]) + [Char(s[|s| - 1])] + seq(RuneLen(s[|s| - 1]) - 1, _ => Absent)
  }

  /** `Slots` of a longer string extends the slots of its prefix. */
  lemma {:induction false} SlotsPrefix(s: string, i: nat)
    requires i < |s|
    ensures Slots(s[..i + 1]) == Slots(s[..i]) + [Char(s[i])] + seq(RuneLen(s[i]) - 1, _ => Absent)
  {
    assert s[..i + 1][..i] == s[..i];
  }

  /**
   * `NewString`: a slice of `len(s)` slots (bytes), filled at each rune's
   * byte offset with that rune.
   */
  method NewString(s: string) returns (cs: seq<Comparable>)
    ensures cs == Slots(s)
    ensures |cs| == ByteLen(s)
  {
    cs := seq(ByteLen(s), _ => Absent);
    var off := 0;
    for k := 0 to |s|
      invariant |cs| == ByteLen(s)
      invariant off == ByteLen(s[..k]) <= ByteLen(s)
      invariant cs[..off] == Slots(s[..k])
      invariant forall i :: off <= i < |cs| ==> cs[i] == Absent
    {
      SlotsPrefix(s, k);
      ByteLenPrefix(s, k + 1);
      assert ByteLen(s[..k + 1]) == off + RuneLen(s[k]) by {
        assert s[..k + 1][..k] == s[..k];
      }
      ghost var before := cs;
      cs := cs[off := Char(s[k])];
      assert cs[..off + RuneLen(s[k])] == before[..off] + [Char(s[k])] + seq(RuneLen(s[k]) - 1, _ => Absent);
      off := off + RuneLen(s[k]);
    }
    assert s[..|s|] == s;
  }

  /** The byte length of a prefix is at most that of the string. */
  lemma {:induction false} ByteLenPrefix(s: string, k: nat)
    requires k <= |s|
    ensures ByteLen(s[..k]) <= ByteLen(s)
    decreases |s| - k
  {
    if k < |s| {
      ByteLenPrefix(s, k + 1);
      assert s[..k + 1][..k] == s[..k];
    } else {
      assert s[..k] == s;
    }
  }

  /** On ASCII text there is one rune per byte, so every slot holds a rune. */
  lemma {:induction false} SlotsAscii(s: string)
    requires IsAscii(s)
    ensures Slots(s) == seq(|s|, i requires 0 <= i < |s| => Char(s[i]))
  {
    if s != [] {
      var s' := s[..|s| - 1];
      assert IsAscii(s') by {
        forall i | 0 <= i < |s'| ensures s'[i] as int < 0x80 {
          assert s'[i] == s[i];
        }
      }
      SlotsAscii(s');
    }
  }

  // -------------------------------------------------------- String.String

  /** The runes of a slice of `Char`s, as `String.String` concatenates them. */
  function Text(cs: seq<Comparable>): (r: string)
    requires forall i :: 0 <= i < |cs| ==> cs[i].Char?
    ensures |r| == |cs|
  {
    if cs == [] then "" else Text(cs[..|cs| - 1]) + [cs[|cs| - 1].r]
  }

  /**
   * `String.String`: appends each item's rune. The type assertion
   * `c.(Char)` panics at the first item that is not a rune (a nil slot or a
   * line); `panics` reports that, and `out` is the text otherwise.
   */
  method StringOf(cs: seq<Comparable>) returns (panics: bool, out: string)
    ensures panics <==> exists i :: 0 <= i < |cs| && !cs[i].Char?
    ensures !panics ==> out == Text(cs) && forall i :: 0 <= i < |cs| ==> out[i] == cs[i].r
  {
    out := "";
    for i := 0 to |cs|
      invariant forall k :: 0 <= k < i ==> cs[k].Char?
      invariant out == Text(cs[..i])
    {
      if !cs[i].Char? {
        return true, out;
      }
      assert cs[..i + 1][..i] == cs[..i];
      out := out + [cs[i].r];
    }
    assert cs[..|cs|] == cs;
    TextIndex(cs);
    panics := false;
  }

  lemma {:induction false} TextIndex(cs: seq<Comparable>)
    requires forall i :: 0 <= i < |cs| ==> cs[i].Char?
    ensures forall i :: 0 <= i < |cs| ==> Text(cs)[i] == cs[i].r
  {
    if cs != [] {
      TextIndex(cs[..|cs| - 1]);
    }
  }

  /** An ASCII string survives `NewString` followed by `String.String`. */
  lemma {:induction false} AsciiRoundTrip(s: string)
    requires IsAscii(s)
    ensures forall i :: 0 <= i < |Slots(s)| ==> Slots(s)[i].Char?
    ensures Text(Slots(s)) == s
  {
    SlotsAscii(s);
    TextIndex(Slots(s));
  }

  /** A rune beyond ASCII leaves a nil slot right behind it. */
  lemma {:induction false} WideRuneSlot()
    ensures Slots("é") == [Char('é'), Absent]
  {
    assert "é"[..0] == [];
  }

  // ---------------------------------------------------------------- NewText

  /**
   * `NewText`: one line per token of the line scanner, then an empty line
   * when `s` ends with '\n'.
   *
   * Each line here owns its text. The Go code stores `sc.Bytes()`, a view
   * into the scanner's buffer, and a later scan may shift that buffer and
   * so overwrite the text of lines stored before (on inputs of some
   * kilobytes); the scanner's 64 KB limit on one line is not modelled
   * either. Both only matter for large inputs.
   */
  method NewText(s: string) returns (cs: seq<Comparable>)
    ensures |cs| == |ScanLines(s)|
    ensures forall i :: 0 <= i < |cs| ==> cs[i] == NewLine(ScanLines(s)[i])
  {
    var tokens := ScanTokens(s);
    cs := [];
    for i := 0 to |tokens|
      invariant |cs| == i
      invariant forall k :: 0 <= k < i ==> cs[k] == NewLine(tokens[k])
    {
      cs := cs + [NewLine(tokens[i])];
    }
    if |s| > 0 && s[|s| - 1] == '\n' {
      cs := cs + [NewLine([])];
    }
  }

  /** The texts of a list of lines, in order. */
  function Strs(cs: seq<Comparable>): (r: seq<string>)
    requires forall i :: 0 <= i < |cs| ==> cs[i].Line?
    ensures |r| == |cs| && forall i :: 0 <= i < |cs| ==> r[i] == cs[i].str
  {
    if cs == [] then [] else Strs(cs[..|cs| - 1]) + [cs[|cs| - 1].str]
  }

  /**
   * `Text.String`: the lines' texts joined with "\n". The type assertion
   * `c.(*Line)` panics at the first item that is not a line; `panics`
   * reports that.
   */
  method TextString(cs: seq<Comparable>) returns (panics: bool, out: string)
    ensures panics <==> exists i :: 0 <= i < |cs| && !cs[i].Line?
    ensures !panics ==> out == Join(Strs(cs), "\n")
  {
    var parts: seq<string> := [];
    for i := 0 to |cs|
      invariant forall k :: 0 <= k < i ==> cs[k].Line?
      invariant parts == Strs(cs[..i])
    {
      if !cs[i].Line? {
        return true, "";
      }
      assert cs[..i + 1][..i] == cs[..i];
      parts := parts + [cs[i].str];
    }
    assert cs[..|cs|] == cs;
    panics, out := false, Join(parts, "\n");
  }

  /**
   * Without '\r', the lines `NewText(s)` is modelled to produce join back
   * to `s`. This holds for the Go code only while the scanner never shifts
   * its buffer (see `NewText`).
   */
  lemma {:induction false} TextRoundTrip(s: string, cs: seq<Comparable>)
    requires !Contains(s, '\r')
    requires |cs| == |ScanLines(s)| && forall i :: 0 <= i < |cs| ==> cs[i] == NewLine(ScanLines(s)[i])
    ensures forall i :: 0 <= i < |cs| ==> cs[i].Line?
    ensures Join(Strs(cs), "\n") == s
  {
    assert Strs(cs) == ScanLines(s);
    ScanLinesJoin(s);
  }

  /**
   * `NewText` gives one line per '\n' plus one, counting the empty line
   * after a final '\n': "a", "a\n", "a\n\n" and "\na" give 1, 2, 3 and 2.
   */
  lemma {:induction false} TextCounts()
    ensures |ScanLines("a")| == 1 && |ScanLines("a\n")| == 2
    ensures |ScanLines("a\n\n")| == 3 && |ScanLines("\na")| == 2
  {
    NewlineCounts();
    ScanLinesCount("a");
    ScanLinesCount("a\n");
    ScanLinesCount("a\n\n");
    ScanLinesCount("\na");
  }

  lemma {:induction false} NewlineCounts()
    ensures CountChar("a", '\n') == 0 && CountChar("a\n", '\n') == 1
    ensures CountChar("a\n\n", '\n') == 2 && CountChar("\na", '\n') == 1
  {
    CountSnoc("", 'a');
    CountSnoc("", '\n');
    CountSnoc("a", '\n');
    CountSnoc("a\n", '\n');
    CountSnoc("\n", 'a');
  }

  lemma {:induction false} CountSnoc(s: string, c: char)
    ensures CountChar(s + [c], '\n') == CountChar(s, '\n') + (if c == '\n' then 1 else 0)
  {
    assert (s + [c])[..|s|] == s;
  }
}
