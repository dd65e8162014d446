/**
 * The small helpers of the table-based diff (`lib/diff/utils.go`):
 * `min`, the hash comparisons `eq` and `neq`, and the text of a sequence.
 *
 * The `Sequence` type these helpers read is not part of this model; its
 * elements offer a `Hash()` and a `String()`, both strings, and are
 * modelled as an `Element` carrying the two.
 */
module DiffUtils {
  import opened Strings

  /** An element of a `Sequence`: what its `Hash()` and its `String()` return. */
  datatype Element = Element(hash: string, str: string)

  /** `min`: the smaller of two integers. */
  function Min(x: int, y: int): (r: int)
    ensures r <= x && r <= y
    ensures r == x || r == y
  {
    if x < y then x else y
  }

  /** `eq`: the hashes agree. */
  predicate Eq(x: Element, y: Element) {
    x.hash == y.hash
  }

  /** `neq`: the hashes differ. */
  predicate Neq(x: Element, y: Element) {
    x.hash != y.hash
  }

  /** `neq` is the negation of `eq`, and `eq` is an equivalence. */
  lemma {:induction false} EqNeq(x: Element, y: Element, z: Element)
    ensures Neq(x, y) <==> !Eq(x, y)
    ensures Eq(x, x)
    ensures Eq(x, y) ==> Eq(y, x)
    ensures Eq(x, y) && Eq(y, z) ==> Eq(x, z)
  {
  }

  /** The `String()` of each element, in order. */
  function Texts(x: seq<Element>): (r: seq<string>)
    ensures |r| == |x| && forall i :: 0 <= i < |x| ==> r[i] == x[i].str
  {
    seq(|x|, i requires 0 <= i < |x| => x[i].str)
  }

  /**
   * What `Sequence.String` returns: "" for no elements; the texts run
   * together when the first element's hash is its text (as for runes);
   * otherwise the texts joined by "\n" (as for lines).
   */
  function Shown(x: seq<Element>): string {
    if x == [] then ""
    else if x[0].hash == x[0].str then Concat(Texts(x))
    else Join(Texts(x), "\n")
  }

  /**
   * `Sequence.String`: after the empty check, one loop appends each text
   * when the first element's hash is its text, the other collects the
   * texts and joins them with "\n".
   */
  method SequenceString(x: seq<Element>) returns (out: string)
    ensures out == Shown(x)
  {
    if |x| == 0 {
      return "";
    }
    if x[0].hash == x[0].str {
      out := "";
      for i := 0 to |x|
        invariant out == Concat(Texts(x[..i]))
      {
        assert Texts(x[..i + 1]) == Texts(x[..i]) + [x[i].str];
        ConcatAppend(Texts(x[..i]), x[i].str);
        out := out + x[i].str;
      }
      assert x[..|x|] == x;
      return out;
    }
    var parts: seq<string> := [];
    for i := 0 to |x|
      invariant parts == Texts(x[..i])
    {
      assert Texts(x[..i + 1]) == Texts(x[..i]) + [x[i].str];
      parts := parts + [x[i].str];
    }
    assert x[..|x|] == x;
    out := Join(parts, "\n");
  }

  /**
   * Runes shown together: when every text is one character and the first
   * element's hash is its text, the result has one character per element,
   * the element's own.
   */
  lemma {:induction false} ShownRunes(x: seq<Element>)
    requires x != [] && x[0].hash == x[0].str
    requires forall i :: 0 <= i < |x| ==> |x[i].str| == 1
    ensures |Shown(x)| == |x|
    ensures forall i :: 0 <= i < |x| ==> Shown(x)[i] == x[i].str[0]
  {
    RunesConcat(x);
  }

  lemma {:induction false} RunesConcat(x: seq<Element>)
    requires forall i :: 0 <= i < |x| ==> |x[i].str| == 1
    ensures |Concat(Texts(x))| == |x|
    ensures forall i :: 0 <= i < |x| ==> Concat(Texts(x))[i] == x[i].str[0]
    decreases |x|
  {
    if x != [] {
      var init := x[..|x| - 1];
      assert Texts(x) == Texts(init) + [x[|x| - 1].str];
      ConcatAppend(Texts(init), x[|x| - 1].str);
      RunesConcat(init);
    }
  }

  /**
   * Lines shown joined: when no text holds a newline and the first
   * element's hash is not its text, splitting the result at each "\n"
   * gives back the texts.
   */
  lemma {:induction false} ShownLines(x: seq<Element>)
    requires x != [] && x[0].hash != x[0].str
    requires forall i :: 0 <= i < |x| ==> !Contains(x[i].str, '\n')
    ensures SplitNewlines(Shown(x)) == Texts(x)
  {
    JoinSplitNewlines(Texts(x));
  }
}
