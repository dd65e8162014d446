/**
 * Run-length compression of LCS index lists (`lib/lcs/indices.go`).
 *
 * An `Indices` list holds x-positions; a negative entry `-k` stands for the
 * `k` successors of the entry before it, so `[1, 2, 3, 4, 5, 10, 20, 21, 22]`
 * compresses to `[1, -4, 10, 20, -2]`.
 */
module LcsIndices {

  /** `[p + 1, p + 2, ..., p + k]`. */
  function Run(p: int, k: nat): (r: seq<int>)
    ensures |r| == k
  {
    if k == 0 then [] else Run(p, k - 1) + [p + k]
  }

  /** The `j`-th index of a run. */
  lemma {:induction false} RunIndex(p: int, k: nat, j: int)
    requires 0 <= j < k
    ensures Run(p, k)[j] == p + 1 + j
    decreases k
  {
    if j < k - 1 {
      RunIndex(p, k - 1, j);
    }
  }

  lemma {:induction false} RunSnoc(p: int, k: nat)
    ensures Run(p, k + 1) == Run(p, k) + [p + k + 1]
  {
  }

  /** A list `Decompress` can read: it looks back from a negative entry, so the first entry must not be one. */
  predicate Readable(idx: seq<int>) {
    idx == [] || idx[0] >= 0
  }

  predicate NonNegative(idx: seq<int>) {
    forall i :: 0 <= i < |idx| ==> idx[i] >= 0
  }

  /** What one entry contributes: itself, or the successors of the raw entry before it. */
  function Piece(idx: seq<int>, i: nat): seq<int>
    requires i < |idx| && (idx[i] < 0 ==> i > 0)
  {
    if idx[i] >= 0 then [idx[i]] else Run(idx[i - 1], -idx[i])
  }

  /** The decompressed list, entry by entry. */
  function Expand(idx: seq<int>): seq<int>
    requires Readable(idx)
  {
    if idx == [] then [] else Expand(idx[..|idx| - 1]) + Piece(idx, |idx| - 1)
  }

  /** Number of positions a compressed list stands for. */
  function Weight(idx: seq<int>): nat {
    if idx == [] then 0
    else Weight(idx[..|idx| - 1]) + (if idx[|idx| - 1] >= 0 then 1 else -idx[|idx| - 1])
  }

  lemma {:induction false} ExpandLength(idx: seq<int>)
    requires Readable(idx)
    ensures |Expand(idx)| == Weight(idx)
  {
    if idx != [] {
      ExpandLength(idx[..|idx| - 1]);
    }
  }

  /** Appending one entry appends what it stands for: itself, or the run after the last entry. */
  lemma {:induction false} ExpandSnoc(c: seq<int>, e: int)
    requires Readable(c) && (e < 0 ==> c != [])
    ensures Readable(c + [e])
    ensures Expand(c + [e]) == Expand(c) + (if e >= 0 then [e] else Run(c[|c| - 1], -e))
  {
    var r := c + [e];
    assert r[..|c|] == c;
    if c != [] {
      assert r[|c| - 1] == c[|c| - 1];
    }
  }

  /** A prefix one longer is the shorter prefix and one more element. */
  lemma {:induction false} TakeSnoc(s: seq<int>, n: nat)
    requires 0 < n <= |s|
    ensures s[..n] == s[..n - 1] + [s[n - 1]]
  {
  }

  /** `Indices.Decompress`: appends each entry, or the run it stands for, to `s`. */
  method Decompress(idx: seq<int>) returns (s: seq<int>)
    requires Readable(idx)
    ensures s == Expand(idx)
    ensures |s| == Weight(idx)
  {
    s := [];
    for i := 0 to |idx|
      invariant s == Expand(idx[..i])
    {
      TakeSnoc(idx, i + 1);
      ExpandSnoc(idx[..i], idx[i]);
      var ix := idx[i];
      if ix >= 0 {
        s := s + [ix];
      } else {
        var p := idx[i - 1];
        var start := s;
        for j := 0 to -ix
          invariant s == start + Run(idx[i - 1], j)
          invariant p == idx[i - 1] + j
        {
          p := p + 1;
          s := s + [p];
        }
      }
    }
    assert idx[..|idx|] == idx;
    ExpandLength(idx);
  }

  // ----------------------------------------------------------------- Compress

  /**
   * One step of `Compress`: folds the next index `v` into the compressed
   * list `c`, extending the current run by decrementing its last entry,
   * opening a run with `-1`, or appending `v` as it is.
   */
  function Step(c: seq<int>, v: int): (r: seq<int>)
    requires Extendable(c)
    ensures |c| <= |r| <= |c| + 1
    ensures r[0] == c[0]
    ensures Extendable(r)
  {
    var p := c[|c| - 1];
    if p < 0 then
      if v == c[|c| - 2] - p + 1 then c[|c| - 1 := p - 1] else c + [v]
    else if v == p + 1 then c + [-1]
    else c + [v]
  }

  /** A compressed list `Step` can extend: a negative last entry has an entry before it. */
  predicate Extendable(c: seq<int>) {
    c != [] && (c[|c| - 1] < 0 ==> |c| >= 2)
  }

  /** The compressed form of the first `n` indices (a negative first entry is only allowed alone). */
  function Compressed(idx: seq<int>, n: nat): (c: seq<int>)
    requires 1 <= n <= |idx| && (n > 1 ==> idx[0] >= 0)
    ensures c != [] && c[0] == idx[0] && |c| <= n
    ensures idx[0] >= 0 ==> Extendable(c)
    decreases n
  {
    if n == 1 then [idx[0]] else Step(Compressed(idx, n - 1), idx[n - 1])
  }

  /** `Compress` only reads a negative entry's left neighbour once it has one: a negative first entry fails as soon as a second entry arrives. */
  predicate Compressible(idx: seq<int>) {
    |idx| <= 1 || idx[0] >= 0
  }

  /** The compressed form, with the empty list returned as it is. */
  function CompressSpec(idx: seq<int>): (c: seq<int>)
    requires Compressible(idx)
    ensures |c| <= |idx|
    ensures idx == [] <==> c == []
    ensures idx != [] ==> c[0] == idx[0]
  {
    if idx == [] then [] else Compressed(idx, |idx|)
  }

  /** `Indices.Compress`: the list `c` grows by appends, and a run grows by decrementing its last entry. */
  method Compress(idx: seq<int>) returns (c: seq<int>)
    requires Compressible(idx)
    ensures c == CompressSpec(idx)
    ensures NonNegative(idx) ==> Readable(c) && Expand(c) == idx
  {
    var l := |idx|;
    if l == 0 {
      return idx;
    }
    c := [idx[0]];
    var i, j := 1, 1;
    while i < l
      invariant 1 <= i <= l
      invariant j == |c|
      invariant c == Compressed(idx, i)
    {
      var p := c[j - 1];
      if p < 0 && idx[i] == c[j - 2] - p + 1 {
        c := c[j - 1 := p - 1];
      } else if p >= 0 && idx[i] == p + 1 {
        c := c + [-1];
        j := j + 1;
      } else {
        c := c + [idx[i]];
        j := j + 1;
      }
      i := i + 1;
    }
    if NonNegative(idx) {
      CompressRoundTrip(idx);
    }
  }

  // -------------------------------------------------------------- properties

  /** Entry `i` is not a run that follows another run. */
  predicate Follows(c: seq<int>, i: int)
    requires 0 < i < |c|
  {
    c[i] < 0 ==> c[i - 1] >= 0
  }

  /** The shape `Compressed` keeps for non-negative input. */
  predicate WellFormed(c: seq<int>) {
    c != [] && c[0] >= 0 &&
    forall i :: 0 < i < |c| ==> Follows(c, i)
  }

  /** Decrementing a negative last entry keeps the shape. */
  lemma {:induction false} LowerLastShape(c: seq<int>)
    requires WellFormed(c) && |c| >= 2 && c[|c| - 1] < 0
    ensures WellFormed(c[|c| - 1 := c[|c| - 1] - 1])
  {
    var n := |c| - 1;
    var r := c[n := c[n] - 1];
    forall i | 0 < i < |r| ensures Follows(r, i) {
      assert Follows(c, i);
    }
  }

  /** A non-empty list is its front and its last entry, before and after that entry is replaced. */
  lemma {:induction false} SplitLast(c: seq<int>, x: int)
    requires c != []
    ensures c == c[..|c| - 1] + [c[|c| - 1]]
    ensures c[|c| - 1 := x] == c[..|c| - 1] + [x]
  {
  }

  /** Extending the last run by one appends its next index to the expansion. */
  lemma {:induction false} ExtendRun(c: seq<int>, v: int)
    requires WellFormed(c) && |c| >= 2
    requires c[|c| - 1] < 0 && v == c[|c| - 2] - c[|c| - 1] + 1
    ensures WellFormed(c[|c| - 1 := c[|c| - 1] - 1])
    ensures Expand(c[|c| - 1 := c[|c| - 1] - 1]) == Expand(c) + [v]
  {
    var n := |c| - 1;
    var p := c[n];
    var q := c[..n];
    SplitLast(c, p - 1);
    assert q[0] == c[0] && q[n - 1] == c[n - 1];
    ExpandSnoc(q, p);
    ExpandSnoc(q, p - 1);
    RunSnoc(c[n - 1], -p);
    LowerLastShape(c);
  }

  /** Appending an entry that is not negative, or a fresh `-1` after one, appends one index. */
  lemma {:induction false} AppendEntry(c: seq<int>, e: int, v: int)
    requires WellFormed(c)
    requires e >= 0 ==> e == v
    requires e < 0 ==> e == -1 && c[|c| - 1] >= 0 && v == c[|c| - 1] + 1
    ensures WellFormed(c + [e])
    ensures Expand(c + [e]) == Expand(c) + [v]
  {
    var r := c + [e];
    ExpandSnoc(c, e);
    if e < 0 {
      assert Run(c[|c| - 1], 1) == [v];
    }
    forall i | 0 < i < |r| ensures Follows(r, i) {
      if i < |c| {
        assert Follows(c, i);
      }
    }
  }

  /** A step keeps the shape and appends exactly `v` to the expansion. */
  lemma {:induction false} StepExpand(c: seq<int>, v: int)
    requires WellFormed(c) && v >= 0
    ensures WellFormed(Step(c, v))
    ensures Expand(Step(c, v)) == Expand(c) + [v]
  {
    var n := |c| - 1;
    var p := c[n];
    if p < 0 {
      if v == c[n - 1] - p + 1 {
        ExtendRun(c, v);
      } else {
        AppendEntry(c, v, v);
      }
    } else if v == p + 1 {
      AppendEntry(c, -1, v);
    } else {
      AppendEntry(c, v, v);
    }
  }

  /** The compressed form of non-negative input is well formed and expands back to it. */
  lemma {:induction false} CompressedShape(idx: seq<int>, n: nat)
    requires NonNegative(idx) && 1 <= n <= |idx|
    ensures WellFormed(Compressed(idx, n))
    ensures Expand(Compressed(idx, n)) == idx[..n]
    decreases n
  {
    if n == 1 {
      ExpandSnoc([], idx[0]);
      assert [] + [idx[0]] == [idx[0]] == idx[..1];
    } else {
      var c := Compressed(idx, n - 1);
      assert Compressed(idx, n) == Step(c, idx[n - 1]);
      TakeSnoc(idx, n);
      CompressedShape(idx, n - 1);
      StepExpand(c, idx[n - 1]);
      calc {
        Expand(Compressed(idx, n));
        Expand(Step(c, idx[n - 1]));
        Expand(c) + [idx[n - 1]];
        idx[..n - 1] + [idx[n - 1]];
      }
    }
  }

  /** `Decompress(Compress(idx)) == idx` for every list of non-negative indices. */
  lemma {:induction false} CompressRoundTrip(idx: seq<int>)
    requires NonNegative(idx)
    ensures Readable(CompressSpec(idx))
    ensures Expand(CompressSpec(idx)) == idx
  {
    if idx != [] {
      CompressedShape(idx, |idx|);
      assert idx[..|idx|] == idx;
    }
  }

  /** For non-negative input, the compressed list never holds two negative entries in a row. */
  lemma {:induction false} NoAdjacentRuns(idx: seq<int>)
    requires NonNegative(idx) && idx != []
    ensures forall i :: 0 < i < |CompressSpec(idx)| ==>
      !(CompressSpec(idx)[i - 1] < 0 && CompressSpec(idx)[i] < 0)
  {
    CompressedShape(idx, |idx|);
    var c := CompressSpec(idx);
    forall i | 0 < i < |c| ensures !(c[i - 1] < 0 && c[i] < 0) {
      assert Follows(c, i);
    }
  }

  /** The example from the documentation of `Compress`. */
  lemma {:induction false} CompressExample()
    ensures CompressSpec([1, 2, 3, 4, 5, 10, 20, 21, 22]) == [1, -4, 10, 20, -2]
    ensures Expand([1, -4, 10, 20, -2]) == [1, 2, 3, 4, 5, 10, 20, 21, 22]
  {
    var idx := [1, 2, 3, 4, 5, 10, 20, 21, 22];
    assert Compressed(idx, 2) == [1, -1];
    assert Compressed(idx, 3) == [1, -2];
    assert Compressed(idx, 4) == [1, -3];
    assert Compressed(idx, 5) == [1, -4];
    assert Compressed(idx, 6) == [1, -4, 10];
    assert Compressed(idx, 7) == [1, -4, 10, 20];
    assert Compressed(idx, 8) == [1, -4, 10, 20, -1];
    assert Compressed(idx, 9) == [1, -4, 10, 20, -2];
    CompressRoundTrip(idx);
  }
}
