/**
 * The table-based common subsequence of `lib/diff/lcs.go`: `sort` puts the
 * pair in hash order, `scaleDown` strips the common prefix and suffix,
 * `lcsTable` fills a table in the style of the longest-common-subsequence
 * algorithm and `lcsFromTable` walks it back.
 *
 * Items are compared with `equal`, byte equality of their hashes; a common
 * subsequence is therefore one up to `equal` (`HashSub`). The table keeps
 * the recurrence of lib/diff/lcs.go, `max(top, left) + 1` on a match, so its
 * entries are not LCS lengths and the walk back, although it always yields
 * a common subsequence, does not always yield a longest one
 * (`ShortLcsAsWritten`). With the textbook recurrence, one more than the
 * diagonal entry on a match (`LcsTable` with `longest`), the same walk back
 * does yield a longest one (`LongestCommon`).
 */
module DiffLcs {
  import opened DiffSequence
  import LcsLength

  /** An item that is not a nil slot, so it can be asked for its hash. */
  type Item = c: Comparable | !c.Absent? witness Char(' ')

  /** `equal`: the two hashes are the same bytes. */
  predicate Equal(a: Item, b: Item) {
    Hash(a) == Hash(b)
  }

  /** Runes are `equal` exactly when they are the same rune. */
  lemma {:induction false} EqualChars(c: char, d: char)
    ensures Equal(Char(c), Char(d)) <==> c == d
  {
    CharHashInjective(c, d);
  }

  /** Lines made by `NewLine` are `equal` exactly when their texts are. */
  lemma {:induction false} EqualLines(a: string, b: string)
    ensures Equal(NewLine(a), NewLine(b)) <==> a == b
  {
    LineHash(a, b);
  }

  /** `max`. */
  function Max(x: int, y: int): (m: int)
    ensures m >= x && m >= y && (m == x || m == y)
  {
    if x < y then y else x
  }

  // ------------------------------------------------------------------- sort

  /** `bytes.Compare(a, b) > 0`: `a` is larger at the first difference, or `b` is a proper prefix of `a`. */
  predicate After(a: seq<int>, b: seq<int>) {
    a != [] && (b == [] || a[0] > b[0] || (a[0] == b[0] && After(a[1..], b[1..])))
  }

  /** `After` is a strict order: never both ways, so never from a hash to itself. */
  lemma {:induction false} AfterAsymmetric(a: seq<int>, b: seq<int>)
    ensures !(After(a, b) && After(b, a))
  {
    if a != [] && b != [] && a[0] == b[0] {
      AfterAsymmetric(a[1..], b[1..]);
    }
  }

  /** Some position below both lengths where `x`'s hash sorts after `y`'s. */
  predicate Swapped(x: seq<Item>, y: seq<Item>)
  {
    exists i :: 0 <= i < |x| && i < |y| && After(Hash(x[i]), Hash(y[i]))
  }

  /**
   * `sort`: walks both lists in step and returns `(y, x)` at the first
   * position where `x`'s hash compares greater, `(x, y)` when there is none.
   */
  method Sort(x: seq<Item>, y: seq<Item>) returns (small: seq<Item>, large: seq<Item>)
    ensures Swapped(x, y) ==> small == y && large == x
    ensures !Swapped(x, y) ==> small == x && large == y
  {
    var i, j := 0, 0;
    while i < |x| && j < |y|
      invariant i == j && 0 <= i <= |x| && j <= |y|
      invariant forall k :: 0 <= k < i ==> !After(Hash(x[k]), Hash(y[k]))
    {
      if After(Hash(x[i]), Hash(y[j])) {
        return y, x;
      }
      i, j := i + 1, j + 1;
    }
    return x, y;
  }

  /** Lists that are `equal` wherever both have an item are never swapped. */
  lemma {:induction false} SortKeepsEqual(x: seq<Item>, y: seq<Item>)
    requires forall k :: 0 <= k < |x| && k < |y| ==> Equal(x[k], y[k])
    ensures !Swapped(x, y)
  {
    forall k | 0 <= k < |x| && k < |y|
      ensures !After(Hash(x[k]), Hash(y[k]))
    {
      AfterAsymmetric(Hash(x[k]), Hash(y[k]));
    }
  }

  // -------------------------------------------------------------- scaleDown

  /** `a` and `b` have the same length and are `equal` item by item. */
  predicate Pointwise(a: seq<Item>, b: seq<Item>) {
    |a| == |b| && forall k {:trigger a[k], b[k]} :: 0 <= k < |a| ==> Equal(a[k], b[k])
  }

  /** Items at the same position of `Pointwise` lists are `equal`. */
  lemma {:induction false} PointwiseAt(a: seq<Item>, b: seq<Item>, k: nat)
    requires Pointwise(a, b) && k < |a|
    ensures k < |b| && Equal(a[k], b[k])
    decreases |a|
  {
    if k < |a| - 1 {
      PointwiseAt(a[..|a| - 1], b[..|b| - 1], k);
    }
  }

  /** Lists `equal` at every position are `Pointwise`. */
  lemma {:induction false} PointwiseAll(a: seq<Item>, b: seq<Item>)
    requires |a| == |b| && forall k :: 0 <= k < |a| ==> Equal(a[k], b[k])
    ensures Pointwise(a, b)
    decreases |a|
  {
    if a != [] {
      PointwiseAll(a[..|a| - 1], b[..|b| - 1]);
    }
  }

  /** Prepending an `equal` pair keeps lists `Pointwise`. */
  lemma {:induction false} PointwiseCons(u: Item, a: seq<Item>, v: Item, b: seq<Item>)
    requires Equal(u, v) && Pointwise(a, b)
    ensures Pointwise([u] + a, [v] + b)
    decreases |a|
  {
    if a == [] {
      assert ([u] + a)[..0] == [] && ([v] + b)[..0] == [];
    } else {
      PointwiseCons(u, a[..|a| - 1], v, b[..|b| - 1]);
      assert ([u] + a)[..|a|] == [u] + a[..|a| - 1];
      assert ([v] + b)[..|b|] == [v] + b[..|b| - 1];
    }
  }

  /** Dropping the first pair keeps lists `Pointwise`. */
  lemma {:induction false} PointwiseTail(a: seq<Item>, b: seq<Item>)
    requires Pointwise(a, b) && a != []
    ensures Pointwise(a[1..], b[1..])
    decreases |a|
  {
    if |a| > 1 {
      PointwiseTail(a[..|a| - 1], b[..|b| - 1]);
      assert a[1..][..|a| - 2] == a[..|a| - 1][1..];
      assert b[1..][..|b| - 2] == b[..|b| - 1][1..];
    }
  }

  /** A pair in front belongs to `Pointwise` lists exactly when it is `equal` and the rest is `Pointwise`. */
  lemma {:induction false} PointwiseConsIff(u: Item, a: seq<Item>, v: Item, b: seq<Item>)
    ensures Pointwise([u] + a, [v] + b) <==> Equal(u, v) && Pointwise(a, b)
  {
    if Pointwise([u] + a, [v] + b) {
      PointwiseAt([u] + a, [v] + b, 0);
      PointwiseTail([u] + a, [v] + b);
      assert ([u] + a)[1..] == a && ([v] + b)[1..] == b;
    }
    if Equal(u, v) && Pointwise(a, b) {
      PointwiseCons(u, a, v, b);
    }
  }

  lemma {:induction false} PointwiseRefl(a: seq<Item>)
    ensures Pointwise(a, a)
    decreases |a|
  {
    if a != [] {
      PointwiseRefl(a[..|a| - 1]);
    }
  }

  /** `Pointwise` does not depend on the order of its arguments. */
  lemma {:induction false} PointwiseSymmetric(a: seq<Item>, b: seq<Item>)
    requires Pointwise(a, b)
    ensures Pointwise(b, a)
    decreases |a|
  {
    if a != [] {
      PointwiseSymmetric(a[..|a| - 1], b[..|b| - 1]);
    }
  }

  /** The length of the longest common prefix, up to `equal`. */
  function PrefixLen(x: seq<Item>, y: seq<Item>): (n: nat)
    ensures n <= |x| && n <= |y|
  {
    PrefixFrom(x, y, 0)
  }

  /** Where the scan for the common prefix started at position `i` stops. */
  function PrefixFrom(x: seq<Item>, y: seq<Item>, i: nat): (n: nat)
    requires i <= |x| && i <= |y|
    ensures i <= n <= |x| && n <= |y|
    decreases |x| - i
  {
    if i == |x| || i == |y| || !Equal(x[i], y[i]) then i else PrefixFrom(x, y, i + 1)
  }

  /** From a position before which the lists agree, the scan stops at a prefix with the prefix property. */
  lemma {:induction false} PrefixFromSpec(x: seq<Item>, y: seq<Item>, i: nat)
    requires i <= |x| && i <= |y| && Pointwise(x[..i], y[..i])
    ensures var n := PrefixFrom(x, y, i);
      Pointwise(x[..n], y[..n]) && (n == |x| || n == |y| || !Equal(x[n], y[n]))
    decreases |x| - i
  {
    if i < |x| && i < |y| && Equal(x[i], y[i]) {
      assert x[..i + 1][..i] == x[..i] && y[..i + 1][..i] == y[..i];
      PrefixFromSpec(x, y, i + 1);
    }
  }

  /** The first `PrefixLen` items are `equal` in pairs, and the pair after them is not. */
  lemma PrefixLenSpec(x: seq<Item>, y: seq<Item>)
    ensures var n := PrefixLen(x, y);
      Pointwise(x[..n], y[..n]) && (n == |x| || n == |y| || !Equal(x[n], y[n]))
  {
    assert x[..0] == [] && y[..0] == [];
    PrefixFromSpec(x, y, 0);
  }

  /** From any position up to a length with the prefix property, the scan stops at that length. */
  lemma {:induction false} PrefixFromIs(x: seq<Item>, y: seq<Item>, i: nat, n: nat)
    requires i <= n <= |x| && n <= |y| && Pointwise(x[..n], y[..n])
    requires n == |x| || n == |y| || !Equal(x[n], y[n])
    ensures PrefixFrom(x, y, i) == n
    decreases n - i
  {
    if i < n {
      PointwiseAt(x[..n], y[..n], i);
      PrefixFromIs(x, y, i + 1, n);
    }
  }

  /** Any length with the prefix property is the prefix length. */
  lemma PrefixLenIs(x: seq<Item>, y: seq<Item>, n: nat)
    requires n <= |x| && n <= |y| && Pointwise(x[..n], y[..n])
    requires n == |x| || n == |y| || !Equal(x[n], y[n])
    ensures PrefixLen(x, y) == n
  {
    PrefixFromIs(x, y, 0, n);
  }

  /** The length of the longest common suffix, up to `equal`. */
  function SuffixLen(x: seq<Item>, y: seq<Item>): (n: nat)
    ensures n <= |x| && n <= |y|
  {
    SuffixCount(x, y, 0)
  }

  /** Where the scan for the common suffix stops once the last `n` pairs are counted. */
  function SuffixCount(x: seq<Item>, y: seq<Item>, n: nat): (r: nat)
    requires n <= |x| && n <= |y|
    ensures n <= r <= |x| && r <= |y|
    decreases |x| - n
  {
    if n == |x| || n == |y| || !Equal(x[|x| - 1 - n], y[|y| - 1 - n]) then n else SuffixCount(x, y, n + 1)
  }

  /** The last n items of `x` and of `y` are `equal` in pairs, each position counted from the end. */
  ghost predicate AgreeBack(x: seq<Item>, y: seq<Item>, n: nat) {
    n <= |x| && n <= |y| && forall i :: |x| - n <= i < |x| ==> Equal(x[i], y[i + |y| - |x|])
  }

  /** `AgreeBack` is `Pointwise` on the last n items. */
  lemma AgreeBackIff(x: seq<Item>, y: seq<Item>, n: nat)
    requires n <= |x| && n <= |y|
    ensures AgreeBack(x, y, n) <==> Pointwise(x[|x| - n..], y[|y| - n..])
  {
    var xs, ys := x[|x| - n..], y[|y| - n..];
    if AgreeBack(x, y, n) {
      forall k | 0 <= k < n ensures Equal(xs[k], ys[k]) {
        assert xs[k] == x[|x| - n + k] && ys[k] == y[(|x| - n + k) + |y| - |x|];
      }
    }
    if Pointwise(xs, ys) {
      forall i | |x| - n <= i < |x| ensures Equal(x[i], y[i + |y| - |x|]) {
        assert x[i] == xs[i - (|x| - n)] && y[i + |y| - |x|] == ys[i - (|x| - n)];
      }
    }
  }

  /** From a count whose pairs agree, the scan stops at a count whose pairs agree and whose next pair does not. */
  lemma {:induction false} SuffixCountSpec(x: seq<Item>, y: seq<Item>, n: nat)
    requires AgreeBack(x, y, n)
    ensures var r := SuffixCount(x, y, n);
      AgreeBack(x, y, r) && (r == |x| || r == |y| || !Equal(x[|x| - r - 1], y[|y| - r - 1]))
    decreases |x| - n
  {
    if n < |x| && n < |y| && Equal(x[|x| - 1 - n], y[|y| - 1 - n]) {
      assert AgreeBack(x, y, n + 1);
      SuffixCountSpec(x, y, n + 1);
    }
  }

  /** The last `SuffixLen` items are `equal` in pairs, and the pair before them is not. */
  lemma SuffixLenSpec(x: seq<Item>, y: seq<Item>)
    ensures var n := SuffixLen(x, y);
      Pointwise(x[|x| - n..], y[|y| - n..]) && (n == |x| || n == |y| || !Equal(x[|x| - n - 1], y[|y| - n - 1]))
  {
    assert AgreeBack(x, y, 0);
    SuffixCountSpec(x, y, 0);
    AgreeBackIff(x, y, SuffixLen(x, y));
  }

  /** From any count up to a length with the suffix property, the scan stops at that length. */
  lemma {:induction false} SuffixCountIs(x: seq<Item>, y: seq<Item>, n: nat, m: nat)
    requires n <= m && AgreeBack(x, y, m)
    requires m == |x| || m == |y| || !Equal(x[|x| - m - 1], y[|y| - m - 1])
    ensures SuffixCount(x, y, n) == m
    decreases m - n
  {
    if n < m {
      assert Equal(x[|x| - 1 - n], y[(|x| - 1 - n) + |y| - |x|]);
      SuffixCountIs(x, y, n + 1, m);
    }
  }

  /** The common prefix is the same whichever list comes first. */
  lemma {:induction false} PrefixSymmetric(x: seq<Item>, y: seq<Item>)
    ensures PrefixLen(x, y) == PrefixLen(y, x)
  {
    var n := PrefixLen(x, y);
    PrefixLenSpec(x, y);
    PointwiseSymmetric(x[..n], y[..n]);
    PrefixLenIs(y, x, n);
  }

  /** The common suffix is the same whichever list comes first. */
  lemma {:induction false} SuffixSymmetric(x: seq<Item>, y: seq<Item>)
    ensures SuffixLen(x, y) == SuffixLen(y, x)
  {
    var n := SuffixLen(x, y);
    SuffixLenSpec(x, y);
    var a, b := |x| - n, |y| - n;
    PointwiseSymmetric(x[a..], y[b..]);
    if a > 0 && b > 0 {
      assert !Equal(y[b - 1], x[a - 1]);
    }
    SuffixFrom(y, x, b, a);
  }

  /**
   * `scaleDown` with the prefix scan bounded by both lengths: `p` is the
   * longest common prefix, `s` the longest common suffix of what is left,
   * and `xs`, `ys` the middles.
   */
  method ScaleDown(x: seq<Item>, y: seq<Item>)
    returns (xs: seq<Item>, ys: seq<Item>, p: seq<Item>, s: seq<Item>)
    ensures Scaled(x, y, xs, ys, p, s)
  {
    p := CommonPrefix(x, y);
    var x1, y1 := x[|p|..], y[|p|..];
    s := CommonSuffix(x1, y1);
    xs, ys := x1[..|x1| - |s|], y1[..|y1| - |s|];
    ScaledEnds(x, y, p, s);
  }

  /** The common prefix of the lists and the common suffix of what follows it, with the middles, are what `Scaled` describes. */
  lemma ScaledEnds(x: seq<Item>, y: seq<Item>, p: seq<Item>, s: seq<Item>)
    requires |p| == PrefixLen(x, y) && p == x[..|p|] && Pointwise(p, y[..|p|])
    requires var x1, y1 := x[|p|..], y[|p|..];
      |s| == SuffixLen(x1, y1) && s == x1[|x1| - |s|..] && Pointwise(s, y1[|y1| - |s|..])
    ensures var x1, y1 := x[|p|..], y[|p|..];
      Scaled(x, y, x1[..|x1| - |s|], y1[..|y1| - |s|], p, s)
  {
    CutEnds(x, y, p, s);
    SuffixAgrees(y, |p|, s);
  }

  /**
   * What `ScaleDown` returns: `p` is the longest common prefix, `s` the
   * longest common suffix of what is left, and `xs`, `ys` the middles.
   */
  ghost predicate Scaled(x: seq<Item>, y: seq<Item>, xs: seq<Item>, ys: seq<Item>, p: seq<Item>, s: seq<Item>) {
    Parts(x, y, xs, ys, p, s) && Pointwise(p, y[..|p|]) && Pointwise(s, y[|y| - |s|..])
  }

  /** The lengths of the common ends, and the ends with the middles making up both lists. */
  ghost predicate Parts(x: seq<Item>, y: seq<Item>, xs: seq<Item>, ys: seq<Item>, p: seq<Item>, s: seq<Item>) {
    |p| == PrefixLen(x, y) && |p| <= |y| && |s| == SuffixLen(x[|p|..], y[|p|..])
    && p + xs + s == x
    && |p| + |s| <= |y| && ys == y[|p|..|y| - |s|]
  }

  /** The common prefix, the common suffix of the rest and the middles between them make up both lists. */
  lemma CutEnds(x: seq<Item>, y: seq<Item>, p: seq<Item>, s: seq<Item>)
    requires |p| == PrefixLen(x, y) && p == x[..|p|]
    requires var x1, y1 := x[|p|..], y[|p|..];
      |s| == SuffixLen(x1, y1) && s == x1[|x1| - |s|..]
    ensures var x1, y1 := x[|p|..], y[|p|..];
      Parts(x, y, x1[..|x1| - |s|], y1[..|y1| - |s|], p, s)
  {
    Cut(x, |p|, |s|);
    CutMiddle(y, |p|, |s|);
  }

  /** A suffix agreeing with the end of what follows the first n items of `y` agrees with the end of `y`. */
  lemma SuffixAgrees(y: seq<Item>, n: nat, s: seq<Item>)
    requires n + |s| <= |y|
    requires var y1 := y[n..]; Pointwise(s, y1[|y1| - |s|..])
    ensures Pointwise(s, y[|y| - |s|..])
  {
    CutMiddle(y, n, |s|);
  }

  /** Cutting n items off the front and then m off the back of the rest leaves three pieces that make up the list. */
  lemma Cut(x: seq<Item>, n: nat, m: nat)
    requires n + m <= |x|
    ensures var r := x[n..]; x[..n] + r[..|r| - m] + r[|r| - m..] == x
  {
    var r := x[n..];
    assert r[..|r| - m] + r[|r| - m..] == r;
  }

  /** The middle and the back piece of such a cut, as slices of the list. */
  lemma CutMiddle(y: seq<Item>, n: nat, m: nat)
    requires n + m <= |y|
    ensures var r := y[n..]; r[..|r| - m] == y[n..|y| - m] && r[|r| - m..] == y[|y| - m..]
  {
  }

  /** The first loop of `scaleDown`, bounded by both lengths: the longest common prefix. */
  method CommonPrefix(x: seq<Item>, y: seq<Item>) returns (p: seq<Item>)
    ensures |p| == PrefixLen(x, y) && p == x[..|p|] && Pointwise(p, y[..|p|])
  {
    p := [];
    var i := 0;
    while i < |x| && i < |y|
      invariant 0 <= i <= |x| && i <= |y| && p == x[..i]
      invariant Pointwise(p, y[..i])
    {
      if Equal(x[i], y[i]) {
        assert (p + [x[i]])[..i] == p && y[..i + 1][..i] == y[..i];
        p := p + [x[i]];
      } else {
        break;
      }
      i := i + 1;
    }
    PrefixLenIs(x, y, i);
  }

  /** The second loop of `scaleDown`: the longest common suffix. */
  method CommonSuffix(x: seq<Item>, y: seq<Item>) returns (s: seq<Item>)
    ensures |s| == SuffixLen(x, y) && s == x[|x| - |s|..] && Pointwise(s, y[|y| - |s|..])
  {
    s := [];
    // `a` and `b` are one past `i` and `j` of lib/diff/lcs.go, so that they stay natural.
    var a: nat, b: nat := |x|, |y|;
    while a > 0 && b > 0 && Equal(x[a - 1], y[b - 1])
      invariant a <= |x| && b <= |y|
      invariant |s| == |x| - a == |y| - b && s == x[a..]
      invariant Pointwise(s, y[b..])
    {
      PointwiseCons(x[a - 1], s, y[b - 1], y[b..]);
      assert y[b - 1..] == [y[b - 1]] + y[b..] && x[a - 1..] == [x[a - 1]] + x[a..];
      s := [x[a - 1]] + s;
      a, b := a - 1, b - 1;
    }
    SuffixFrom(x, y, a, b);
  }

  /** A suffix property stated from the start positions `a` and `b`: it is `SuffixLen`. */
  lemma SuffixFrom(x: seq<Item>, y: seq<Item>, a: nat, b: nat)
    requires a <= |x| && b <= |y| && |x| - a == |y| - b && Pointwise(x[a..], y[b..])
    requires a == 0 || b == 0 || !Equal(x[a - 1], y[b - 1])
    ensures SuffixLen(x, y) == |x| - a
  {
    AgreeBackIff(x, y, |x| - a);
    SuffixCountIs(x, y, 0, |x| - a);
  }

  /** How the prefix scan of `scaleDown` as written ends: out of range, or at a position. */
  datatype Scan = Panic | Stop(n: nat)

  /**
   * The prefix scan of `scaleDown` as written, from position `i`: its loop
   * is bounded by `len(x)` only and reads `y[i]`, which panics once `y` is
   * used up while every pair so far was `equal`.
   */
  function PrefixScanAsWritten(x: seq<Item>, y: seq<Item>, i: nat): (r: Scan)
    requires i <= |x| && i <= |y|
    ensures r.Panic? <==> |y| < |x| && Pointwise(x[i..|y|], y[i..])
    ensures r.Stop? ==> r.n == PrefixFrom(x, y, i)
    decreases |x| - i
  {
    if i == |x| then Stop(i)
    else if i >= |y| then Panic
    else
      ScanStep(x, y, i);
      if Equal(x[i], y[i]) then PrefixScanAsWritten(x, y, i + 1)
      else Stop(i)
  }

  /** One step of the scan: the rest from `i` agrees up to the end of `y` when the pair at `i` does and the rest after it agrees. */
  lemma {:induction false} ScanStep(x: seq<Item>, y: seq<Item>, i: nat)
    requires i < |x| && i < |y|
    ensures (|y| < |x| && Pointwise(x[i..|y|], y[i..])) <==>
      (Equal(x[i], y[i]) && |y| < |x| && Pointwise(x[i + 1..|y|], y[i + 1..]))
  {
    if |y| < |x| {
      assert x[i..|y|] == [x[i]] + x[i + 1..|y|] && y[i..] == [y[i]] + y[i + 1..];
      PointwiseConsIff(x[i], x[i + 1..|y|], y[i], y[i + 1..]);
    }
  }

  /**
   * `LCS(["a", "b"], ["a"])` on lines: `sort` keeps the order, since the
   * lists agree wherever both have an item, and the prefix scan then reads
   * past the end of `y`; the bounded scan stops at 1.
   */
  lemma {:induction false} ScaleDownPanics()
    ensures !Swapped([NewLine("a"), NewLine("b")], [NewLine("a")])
    ensures PrefixScanAsWritten([NewLine("a"), NewLine("b")], [NewLine("a")], 0).Panic?
    ensures PrefixLen([NewLine("a"), NewLine("b")], [NewLine("a")]) == 1
  {
    var x, y := [NewLine("a"), NewLine("b")], [NewLine("a")];
    SortKeepsEqual(x, y);
    PrefixLenIs(x, y, 1);
  }

  // -------------------------------------------------------------- lcsTable

  /** The shape `lcsFromTable` reads: `|x|` rows of `|y|` entries. */
  predicate Shaped(c: seq<seq<int>>, w: nat, h: nat) {
    |c| == w && forall i :: 0 <= i < |c| ==> |c[i]| == h
  }

  /** The row above row `i`: zeros for the first row. */
  function Above(c: seq<seq<int>>, i: nat, h: nat): seq<int>
    requires i <= |c|
  {
    if i == 0 then seq(h, _ => 0) else c[i - 1]
  }

  /**
   * The entry of `lcsTable` in column `j` of the row for item `a`, from the
   * row above and the entry to the left: the larger of the two, plus one
   * where `a` is `equal` to `y[j]`. With `longest`, a match adds one to the
   * diagonal entry instead, as the textbook recurrence does; lib/diff/lcs.go
   * is the case `longest == false`.
   */
  function Entry(above: seq<int>, left: int, a: Item, y: seq<Item>, j: nat, longest: bool): int
    requires j < |y| == |above|
  {
    if Equal(a, y[j]) then
      (if longest then (if j == 0 then 0 else above[j - 1]) else Max(above[j], left)) + 1
    else Max(above[j], left)
  }

  /** Entry `j` of a row for item `a` follows `Entry`. */
  ghost predicate EntryAt(row: seq<int>, above: seq<int>, a: Item, y: seq<Item>, j: nat, longest: bool)
    requires j < |row| == |y| == |above|
  {
    row[j] == Entry(above, if j == 0 then 0 else row[j - 1], a, y, j, longest)
  }

  /** The first `n` entries of a row of the table for item `a`. */
  ghost predicate RowOf(row: seq<int>, above: seq<int>, a: Item, y: seq<Item>, n: nat, longest: bool)
  {
    |row| == |y| == |above| && n <= |y| &&
    forall j :: 0 <= j < n ==> EntryAt(row, above, a, y, j, longest)
  }

  /** Row `i` of `c` is the row for `x[i]` under the row above it. */
  ghost predicate RowIn(c: seq<seq<int>>, x: seq<Item>, y: seq<Item>, i: nat, longest: bool)
    requires i < |c| && i < |x|
  {
    RowOf(c[i], Above(c, i, |y|), x[i], y, |y|, longest)
  }

  /** The table `lcsTable(x, y)` builds, one row per item of `x`. */
  ghost predicate IsTable(c: seq<seq<int>>, x: seq<Item>, y: seq<Item>, longest: bool)
  {
    Shaped(c, |x|, |y|) && forall i :: 0 <= i < |c| ==> RowIn(c, x, y, i, longest)
  }

  /**
   * `lcsTable`: fills the table row by row, left to right; `longest` selects
   * the textbook recurrence on a match (see `Entry`).
   */
  method LcsTable(x: seq<Item>, y: seq<Item>, longest: bool) returns (c: seq<seq<int>>)
    ensures IsTable(c, x, y, longest)
  {
    var w, h := |x|, |y|;
    c := [];
    for i := 0 to w
      invariant Shaped(c, i, h)
      invariant forall k :: 0 <= k < i ==> RowIn(c, x, y, k, longest)
    {
      var row := seq(h, _ => 0);
      ghost var above := Above(c, i, h);
      for j := 0 to h
        invariant RowOf(row, above, x[i], y, j, longest)
      {
        var top, left := 0, 0;
        if i != 0 {
          top := c[i - 1][j];
        }
        if j != 0 {
          left := row[j - 1];
        }
        assert top == above[j];
        var maxAdjoin := Max(top, left);
        var v := if Equal(x[i], y[j]) then maxAdjoin + 1 else maxAdjoin;
        if longest && Equal(x[i], y[j]) {
          var diagonal := 0;
          if i != 0 && j != 0 {
            diagonal := c[i - 1][j - 1];
          }
          assert diagonal == (if j == 0 then 0 else above[j - 1]);
          v := diagonal + 1;
        }
        RowStep(row, above, x[i], y, j, v, longest);
        row := row[j := v];
      }
      TableStep(c, row, x, y, longest);
      c := c + [row];
    }
  }

  /** Filling entry `j` of a row keeps the entries before it and extends `RowOf` by one. */
  lemma RowStep(row: seq<int>, above: seq<int>, a: Item, y: seq<Item>, j: nat, v: int, longest: bool)
    requires RowOf(row, above, a, y, j, longest) && j < |y|
    requires v == Entry(above, if j == 0 then 0 else row[j - 1], a, y, j, longest)
    ensures RowOf(row[j := v], above, a, y, j + 1, longest)
  {
    var next := row[j := v];
    forall k | 0 <= k < j + 1
      ensures EntryAt(next, above, a, y, k, longest)
    {
      RowStepAt(row, above, a, y, j, v, k, longest);
    }
  }

  /** Entry `k` of the row after filling entry `j`. */
  lemma RowStepAt(row: seq<int>, above: seq<int>, a: Item, y: seq<Item>, j: nat, v: int, k: nat, longest: bool)
    requires RowOf(row, above, a, y, j, longest) && j < |y| && k <= j
    requires v == Entry(above, if j == 0 then 0 else row[j - 1], a, y, j, longest)
    ensures var next := row[j := v];
      next[k] == Entry(above, if k == 0 then 0 else next[k - 1], a, y, k, longest)
  {
    var next := row[j := v];
    var left := if k == 0 then 0 else next[k - 1];
    if k < j {
      assert next[k] == row[k];
      assert EntryAt(row, above, a, y, k, longest);
      assert left == (if k == 0 then 0 else row[k - 1]);
    } else {
      assert next[k] == v;
      assert left == (if j == 0 then 0 else row[j - 1]);
    }
  }

  /** Appending a row built on the last one extends a partial table by one row. */
  lemma TableStep(c: seq<seq<int>>, row: seq<int>, x: seq<Item>, y: seq<Item>, longest: bool)
    requires |c| < |x| && Shaped(c, |c|, |y|) && forall k :: 0 <= k < |c| ==> RowIn(c, x, y, k, longest)
    requires RowOf(row, Above(c, |c|, |y|), x[|c|], y, |y|, longest)
    ensures Shaped(c + [row], |c| + 1, |y|)
    ensures forall k :: 0 <= k < |c| + 1 ==> RowIn(c + [row], x, y, k, longest)
  {
    var c' := c + [row];
    forall k | 0 <= k < |c| + 1
      ensures RowIn(c', x, y, k, longest)
    {
      AboveSnoc(c, row, k, |y|);
      if k < |c| {
        SnocAt(c, row, k);
        assert RowIn(c, x, y, k, longest);
      }
    }
  }

  /** Appending a row does not change the rows above the existing ones. */
  lemma AboveSnoc(c: seq<seq<int>>, row: seq<int>, k: nat, h: nat)
    requires k <= |c|
    ensures Above(c + [row], k, h) == Above(c, k, h)
  {
  }

  /** Appending a row does not change the existing rows. */
  lemma SnocAt(c: seq<seq<int>>, row: seq<int>, k: nat)
    requires k < |c|
    ensures (c + [row])[k] == c[k] && (c + [row])[|c|] == row
  {
  }

  /** Every entry is at least its neighbours above and to the left, and at least 0. */
  lemma {:induction false} TableMonotone(c: seq<seq<int>>, x: seq<Item>, y: seq<Item>, i: nat, j: nat, longest: bool)
    requires IsTable(c, x, y, longest)
    requires i < |x| && j < |y|
    ensures i > 0 ==> c[i][j] >= c[i - 1][j]
    ensures j > 0 ==> c[i][j] >= c[i][j - 1]
    ensures c[i][j] >= 0
    decreases i
  {
    if longest {
      var hx, hy := Hashes(x), Hashes(y);
      HashesAt(x, y, i, j);
      TableLcsLen(c, x, y, i, j);
      if i > 0 {
        TableLcsLen(c, x, y, i - 1, j);
        LcsLength.LcsLenGrowX(hx, hy, i, j + 1);
      }
      if j > 0 {
        TableLcsLen(c, x, y, i, j - 1);
        LcsLength.LcsLenGrowY(hx, hy, i + 1, j);
      }
    } else {
      var above := Above(c, i, |y|);
      assert RowIn(c, x, y, i, false);
      assert EntryAt(c[i], above, x[i], y, j, false);
      assert c[i][j] == Max(above[j], if j == 0 then 0 else c[i][j - 1]) + (if Equal(x[i], y[j]) then 1 else 0);
      if i > 0 {
        TableMonotone(c, x, y, i - 1, j, false);
      }
    }
  }

  // ---------------------------------------------------------- lcsFromTable

  /** `r` occurs in order within `x`, items matched up to `equal`. */
  predicate HashSub(r: seq<Item>, x: seq<Item>)
    decreases |x|
  {
    r == [] ||
    (x != [] &&
      ((Equal(r[|r| - 1], x[|x| - 1]) && HashSub(r[..|r| - 1], x[..|x| - 1])) || HashSub(r, x[..|x| - 1])))
  }

  lemma {:induction false} HashSubSnoc(r: seq<Item>, x: seq<Item>, a: Item, b: Item)
        requires HashSub(r, x) && Equal(a, b)
    ensures HashSub(r + [a], x + [b])
  {
    assert (r + [a])[..|r|] == r;
    assert (x + [b])[..|x|] == x;
  }

  lemma {:induction false} HashSubGrow(r: seq<Item>, x: seq<Item>, b: Item)
    requires HashSub(r, x)
    ensures HashSub(r, x + [b])
  {
    assert (x + [b])[..|x|] == x;
  }

  /** A non-empty list occurs only in a non-empty one. */
  lemma {:induction false} HashSubNonEmpty(r: seq<Item>, x: seq<Item>)
    requires HashSub(r, x) && r != []
    ensures x != [] && |r| <= |x|
    decreases |x|
  {
    var r', x' := r[..|r| - 1], x[..|x| - 1];
    if Equal(r[|r| - 1], x[|x| - 1]) && HashSub(r', x') {
      if r' != [] {
        HashSubNonEmpty(r', x');
      }
    } else {
      HashSubNonEmpty(r, x');
    }
  }

  /** Read from the front: the rest of `r` occurs in the rest of `x`. */
  lemma {:induction false} HashSubRest(r: seq<Item>, x: seq<Item>)
    requires HashSub(r, x) && r != []
    ensures x != [] && HashSub(r[1..], x[1..])
    decreases |x|
  {
    HashSubNonEmpty(r, x);
    var r', x' := r[..|r| - 1], x[..|x| - 1];
    if r' == [] {
      assert r[1..] == [];
    } else if Equal(r[|r| - 1], x[|x| - 1]) && HashSub(r', x') {
      HashSubRest(r', x');
      assert r[1..] == r'[1..] + [r[|r| - 1]] && x[1..] == x'[1..] + [x[|x| - 1]];
      HashSubSnoc(r'[1..], x'[1..], r[|r| - 1], x[|x| - 1]);
    } else {
      HashSubRest(r, x');
      assert x[1..] == x'[1..] + [x[|x| - 1]];
      HashSubGrow(r[1..], x'[1..], x[|x| - 1]);
    }
  }

  /** Read from the front: when the first items differ, all of `r` occurs after the first item of `x`. */
  lemma {:induction false} HashSubSkip(r: seq<Item>, x: seq<Item>)
    requires HashSub(r, x) && r != [] && !Equal(r[0], x[0])
    ensures HashSub(r, x[1..])
    decreases |x|, 1
  {
    HashSubNonEmpty(r, x);
    var r', x' := r[..|r| - 1], x[..|x| - 1];
    if Equal(r[|r| - 1], x[|x| - 1]) && HashSub(r', x') {
      if r' == [] {
        SkipSingle(r, x);
      } else {
        SkipMatched(r, x);
      }
    } else {
      SkipUnmatched(r, x);
    }
  }

  /** `HashSubSkip` when `r` has one item, matched by the last item of `x`. */
  lemma {:induction false} SkipSingle(r: seq<Item>, x: seq<Item>)
    requires |r| == 1 && 0 < |x| && Equal(r[0], x[|x| - 1]) && !Equal(r[0], x[0])
    ensures HashSub(r, x[1..])
  {
    var x' := x[..|x| - 1];
    assert |x| > 1;
    assert x[1..][..|x| - 2] == x'[1..];
    assert HashSub([], x'[1..]);
    HashSubSnoc([], x'[1..], r[0], x[|x| - 1]);
    assert [] + [r[0]] == r && x'[1..] + [x[|x| - 1]] == x[1..];
  }

  /** `HashSubSkip` when the last item of `r` is matched by the last item of `x`. */
  lemma {:induction false} SkipMatched(r: seq<Item>, x: seq<Item>)
    requires 1 < |r| && 0 < |x| && !Equal(r[0], x[0])
    requires Equal(r[|r| - 1], x[|x| - 1]) && HashSub(r[..|r| - 1], x[..|x| - 1])
    ensures HashSub(r, x[1..])
    decreases |x|, 0
  {
    var r', x' := r[..|r| - 1], x[..|x| - 1];
    HashSubNonEmpty(r', x');
    FrontLast(r);
    FrontLast(x);
    HashSubSkip(r', x');
    HashSubSnoc(r', x'[1..], r[|r| - 1], x[|x| - 1]);
  }

  /** A list of two or more items, cut before its last item, read from the front. */
  lemma FrontLast(x: seq<Item>)
    requires 1 < |x|
    ensures x[..|x| - 1][0] == x[0]
    ensures x[..|x| - 1] + [x[|x| - 1]] == x && x[..|x| - 1][1..] + [x[|x| - 1]] == x[1..]
  {
  }

  /** `HashSubSkip` when all of `r` occurs before the last item of `x`. */
  lemma {:induction false} SkipUnmatched(r: seq<Item>, x: seq<Item>)
    requires r != [] && 0 < |x| && !Equal(r[0], x[0]) && HashSub(r, x[..|x| - 1])
    ensures HashSub(r, x[1..])
    decreases |x|, 0
  {
    var x' := x[..|x| - 1];
    HashSubNonEmpty(r, x');
    assert x'[0] == x[0];
    HashSubSkip(r, x');
    HashSubGrow(r, x'[1..], x[|x| - 1]);
    assert x'[1..] + [x[|x| - 1]] == x[1..];
  }

  /**
   * `lcsFromTable`: from the corner `(i, j)` keeps `x[i]` and steps
   * diagonally when the items are `equal`, otherwise steps up when the
   * entry above is larger than the one to the left, left otherwise. The
   * result is a common subsequence of `x[..i + 1]` and `y[..j + 1]`.
   */
  function LcsFromTable(c: seq<seq<int>>, x: seq<Item>, y: seq<Item>, i: int, j: int): (r: seq<Item>)
    requires Shaped(c, |x|, |y|)
    requires -1 <= i < |x| && -1 <= j < |y|
    ensures |r| <= i + 1 && |r| <= j + 1
    ensures HashSub(r, x[..i + 1]) && HashSub(r, y[..j + 1])
    decreases i + j
  {
    if i < 0 || j < 0 then []
    else
      assert x[..i + 1] == x[..i] + [x[i]] && y[..j + 1] == y[..j] + [y[j]];
      if Equal(x[i], y[j]) then
        var r := LcsFromTable(c, x, y, i - 1, j - 1);
        HashSubSnoc(r, x[..i], x[i], x[i]);
        HashSubSnoc(r, y[..j], x[i], y[j]);
        r + [x[i]]
      else
        var top := if i != 0 then c[i - 1][j] else 0;
        var left := if j != 0 then c[i][j - 1] else 0;
        if top > left then
          var r := LcsFromTable(c, x, y, i - 1, j);
          HashSubGrow(r, x[..i], x[i]);
          r
        else
          var r := LcsFromTable(c, x, y, i, j - 1);
          HashSubGrow(r, y[..j], y[j]);
          r
  }

  /** The backtrack only picks items of `x`. */
  lemma {:induction false} LcsFromTableDrawn(c: seq<seq<int>>, x: seq<Item>, y: seq<Item>, i: int, j: int)
    requires Shaped(c, |x|, |y|)
    requires -1 <= i < |x| && -1 <= j < |y|
    ensures forall e :: e in LcsFromTable(c, x, y, i, j) ==> e in x
    decreases i + j
  {
    if i >= 0 && j >= 0 {
      if Equal(x[i], y[j]) {
        LcsFromTableDrawn(c, x, y, i - 1, j - 1);
        var r := LcsFromTable(c, x, y, i - 1, j - 1);
        assert LcsFromTable(c, x, y, i, j) == r + [x[i]];
        DrawnSnoc(r, x, i);
      } else {
        var top := if i != 0 then c[i - 1][j] else 0;
        var left := if j != 0 then c[i][j - 1] else 0;
        if top > left {
          LcsFromTableDrawn(c, x, y, i - 1, j);
        } else {
          LcsFromTableDrawn(c, x, y, i, j - 1);
        }
      }
    }
  }

  /** Adding an item of `x` to a list drawn from `x` keeps it drawn from `x`. */
  lemma DrawnSnoc(r: seq<Item>, x: seq<Item>, i: nat)
    requires i < |x| && forall e :: e in r ==> e in x
    ensures forall e :: e in r + [x[i]] ==> e in x
  {
  }

  /** A list is a common subsequence of itself and anything `equal` to it item by item. */
  lemma {:induction false} HashSubPointwise(r: seq<Item>, x: seq<Item>)
    requires Pointwise(r, x)
    ensures HashSub(r, x)
  {
    if r != [] {
      HashSubPointwise(r[..|r| - 1], x[..|x| - 1]);
    }
  }

  /** Common subsequences of two pieces join into one of the joined lists. */
  lemma {:induction false} HashSubConcat(a: seq<Item>, u: seq<Item>, b: seq<Item>, v: seq<Item>)
    requires HashSub(a, u) && HashSub(b, v)
    ensures HashSub(a + b, u + v)
    decreases |v|
  {
    if v == [] {
      assert b == [] && u + v == u && a + b == a;
    } else {
      var v' := v[..|v| - 1];
      assert (u + v)[..|u + v| - 1] == u + v';
      if b != [] && Equal(b[|b| - 1], v[|v| - 1]) && HashSub(b[..|b| - 1], v') {
        HashSubConcat(a, u, b[..|b| - 1], v');
        assert (a + b)[..|a + b| - 1] == a + b[..|b| - 1];
      } else {
        HashSubConcat(a, u, b, v');
      }
    }
  }

  // ------------------------------------------------------ longest or not

  /** The hashes of the items: two items are `equal` exactly when their hashes are. */
  function Hashes(x: seq<Item>): seq<seq<int>> {
    seq(|x|, k requires 0 <= k < |x| => Hash(x[k]))
  }

  /**
   * With the textbook recurrence, each entry is the length of a longest
   * common subsequence of the two prefixes it stands for.
   */
  lemma {:induction false} TableLcsLen(c: seq<seq<int>>, x: seq<Item>, y: seq<Item>, i: nat, j: nat)
    requires IsTable(c, x, y, true) && i < |x| && j < |y|
    ensures c[i][j] == LcsLength.LcsLen(Hashes(x), Hashes(y), i + 1, j + 1)
    decreases i + j
  {
    var hx, hy := Hashes(x), Hashes(y);
    LcsLength.LcsLenEdges(hx, hy, i, j);
    LcsLength.LcsLenEdges(hx, hy, i + 1, j + 1);
    var top := if i == 0 then 0 else c[i - 1][j];
    var left := if j == 0 then 0 else c[i][j - 1];
    var diagonal := if i == 0 || j == 0 then 0 else c[i - 1][j - 1];
    assert top == LcsLength.LcsLen(hx, hy, i, j + 1) by {
      if i > 0 {
        TableLcsLen(c, x, y, i - 1, j);
      }
    }
    assert left == LcsLength.LcsLen(hx, hy, i + 1, j) by {
      if j > 0 {
        TableLcsLen(c, x, y, i, j - 1);
      }
    }
    assert diagonal == LcsLength.LcsLen(hx, hy, i, j) by {
      if i > 0 && j > 0 {
        TableLcsLen(c, x, y, i - 1, j - 1);
      }
    }
    TableEntry(c, x, y, i, j, true);
    HashesAt(x, y, i, j);
    EntryLcsLen(hx, hy, i, j, c[i][j], top, left, diagonal, Equal(x[i], y[j]));
  }

  /** The textbook recurrence computes `LcsLen` from its three neighbours. */
  lemma EntryLcsLen(hx: seq<seq<int>>, hy: seq<seq<int>>, i: nat, j: nat, v: int, top: int, left: int, diagonal: int, eq: bool)
    requires i < |hx| && j < |hy| && (eq <==> hx[i] == hy[j])
    requires top == LcsLength.LcsLen(hx, hy, i, j + 1) && left == LcsLength.LcsLen(hx, hy, i + 1, j)
    requires diagonal == LcsLength.LcsLen(hx, hy, i, j)
    requires v == if eq then diagonal + 1 else Max(top, left)
    ensures v == LcsLength.LcsLen(hx, hy, i + 1, j + 1)
  {
    LcsLength.LcsLenStep(hx, hy, i, j);
  }

  /**
   * Entry `(i, j)` of a table from its neighbours above, to the left and
   * on the diagonal, with 0 outside the table.
   */
  lemma TableEntry(c: seq<seq<int>>, x: seq<Item>, y: seq<Item>, i: nat, j: nat, longest: bool)
    requires IsTable(c, x, y, longest) && i < |x| && j < |y|
    ensures |c[i]| == |y| && (i > 0 ==> |c[i - 1]| == |y|)
    ensures var top := if i == 0 then 0 else c[i - 1][j];
      var left := if j == 0 then 0 else c[i][j - 1];
      var diagonal := if i == 0 || j == 0 then 0 else c[i - 1][j - 1];
      c[i][j] == if Equal(x[i], y[j]) then (if longest then diagonal else Max(top, left)) + 1 else Max(top, left)
  {
    assert RowIn(c, x, y, i, longest);
    assert EntryAt(c[i], Above(c, i, |y|), x[i], y, j, longest);
    if i > 0 {
      assert RowIn(c, x, y, i - 1, longest);
    }
  }

  /** The hashes at `(i, j)` are equal exactly when the items are `equal`. */
  lemma HashesAt(x: seq<Item>, y: seq<Item>, i: nat, j: nat)
    requires i < |x| && j < |y|
    ensures |Hashes(x)| == |x| && |Hashes(y)| == |y|
    ensures Hashes(x)[i] == Hashes(y)[j] <==> Equal(x[i], y[j])
  {
  }

  /**
   * Over the textbook table, the backtrack of `lcsFromTable` is as long as
   * a longest common subsequence of the two prefixes.
   */
  lemma {:induction false} LongestFromTable(c: seq<seq<int>>, x: seq<Item>, y: seq<Item>, i: int, j: int)
    requires IsTable(c, x, y, true)
    requires -1 <= i < |x| && -1 <= j < |y|
    ensures |LcsFromTable(c, x, y, i, j)| == LcsLength.LcsLen(Hashes(x), Hashes(y), i + 1, j + 1)
    decreases i + j
  {
    if i >= 0 && j >= 0 {
      var hx, hy := Hashes(x), Hashes(y);
      HashesAt(x, y, i, j);
      LcsLength.LcsLenStep(hx, hy, i, j);
      if Equal(x[i], y[j]) {
        LongestFromTable(c, x, y, i - 1, j - 1);
      } else {
        LcsLength.LcsLenEdges(hx, hy, i + 1, j + 1);
        var top := if i != 0 then c[i - 1][j] else 0;
        var left := if j != 0 then c[i][j - 1] else 0;
        assert top == LcsLength.LcsLen(hx, hy, i, j + 1) by {
          if i > 0 {
            TableLcsLen(c, x, y, i - 1, j);
          }
        }
        assert left == LcsLength.LcsLen(hx, hy, i + 1, j) by {
          if j > 0 {
            TableLcsLen(c, x, y, i, j - 1);
          }
        }
        if top > left {
          LongestFromTable(c, x, y, i - 1, j);
        } else {
          LongestFromTable(c, x, y, i, j - 1);
        }
      }
    }
  }

  /**
   * What the doc comments of lib/diff/lcs.go promise, for the textbook
   * table: the backtrack from the last corner is a common subsequence of
   * `x` and `y`, and no common subsequence, given by the positions `p` and
   * `q` of `equal` items in `x` and `y`, is longer.
   */
  lemma LongestCommon(c: seq<seq<int>>, x: seq<Item>, y: seq<Item>, p: seq<int>, q: seq<int>)
    requires IsTable(c, x, y, true)
    requires LcsLength.Embeds(p, q, Hashes(x), Hashes(y), |x|, |y|)
    ensures var r := LcsFromTable(c, x, y, |x| - 1, |y| - 1);
      HashSub(r, x) && HashSub(r, y) && |p| <= |r|
  {
    LongestFromTable(c, x, y, |x| - 1, |y| - 1);
    LcsLength.EmbedBound(p, q, Hashes(x), Hashes(y), |x|, |y|);
    assert x[..|x|] == x && y[..|y|] == y;
  }

  /**
   * `LCS(["a", "b"], ["b", "a", "b", "a", "a"])` as lib/diff/lcs.go has
   * it: `sort` swaps the lists ("b" sorts after "a" at index 1),
   * `scaleDown` strips nothing, and the backtrack over the table of
   * `max(top, left) + 1` keeps a single item, where the longest common
   * subsequence ("a", "b") has two.
   */
  lemma {:induction false} ShortLcsAsWritten(x: seq<Item>, y: seq<Item>, c: seq<seq<int>>)
    requires x == [Char('a'), Char('b')] && y == [Char('b'), Char('a'), Char('b'), Char('a'), Char('a')]
    requires IsTable(c, y, x, false)
    ensures Swapped(x, y) && PrefixLen(y, x) == 0 && SuffixLen(y, x) == 0
    ensures |LcsFromTable(c, y, x, |y| - 1, |x| - 1)| == 1
    ensures LcsLength.LcsLen(Hashes(y), Hashes(x), |y|, |x|) == 2
  {
    EqualChars('a', 'b');
    EqualChars('a', 'a');
    EqualChars('b', 'b');
    AfterBA();
    PrefixLenIs(y, x, 0);
    assert AgreeBack(y, x, 0);
    SuffixCountIs(y, x, 0, 0);
    ShortTable(c, y, x);
    LcsLength.EmbedBound([1, 2], [0, 1], Hashes(y), Hashes(x), |y|, |x|);
  }

  /** The two entries of the example's table that send the backtrack left. */
  lemma {:induction false} ShortTable(c: seq<seq<int>>, y: seq<Item>, x: seq<Item>)
    requires |x| == 2 && |y| == 5 && IsTable(c, y, x, false)
    requires !Equal(x[0], y[0]) && Equal(x[0], y[1]) && !Equal(x[0], y[2]) && Equal(x[0], y[3]) && Equal(x[0], y[4])
    requires Equal(x[1], y[0]) && !Equal(x[1], y[1]) && Equal(x[1], y[2]) && !Equal(x[1], y[3]) && !Equal(x[1], y[4])
    ensures c[3][1] == 2 && c[4][0] == 3
  {
    TableEntry(c, y, x, 0, 0, false);
    TableEntry(c, y, x, 0, 1, false);
    TableEntry(c, y, x, 1, 0, false);
    TableEntry(c, y, x, 1, 1, false);
    TableEntry(c, y, x, 2, 0, false);
    TableEntry(c, y, x, 2, 1, false);
    TableEntry(c, y, x, 3, 0, false);
    TableEntry(c, y, x, 3, 1, false);
    TableEntry(c, y, x, 4, 0, false);
  }

  /** "b" sorts after "a": their hashes first differ in the last byte. */
  lemma AfterBA()
    ensures After(Hash(Char('b')), Hash(Char('a')))
  {
    var hb, ha := Hash(Char('b')), Hash(Char('a'));
    assert hb == [0, 0, 0, 98] && ha == [0, 0, 0, 97];
    assert After(hb[3..], ha[3..]);
    assert After(hb[2..], ha[2..]);
    assert After(hb[1..], ha[1..]);
  }

  // -------------------------------------------------------------------- LCS

  /**
   * What `LCS` promises of `r` for the lists `x` and `y`: a common
   * subsequence of both, starting with their longest common prefix and
   * ending with the longest common suffix of what follows that prefix.
   */
  ghost predicate CommonWithEnds(r: seq<Item>, x: seq<Item>, y: seq<Item>) {
    HashSub(r, x) && HashSub(r, y) &&
    SameEnds(r, x, y, PrefixLen(x, y), SuffixLen(x[PrefixLen(x, y)..], y[PrefixLen(x, y)..]))
  }

  /** The first `n` and the last `m` items of `r` are `equal` to those of `x` and of `y`. */
  ghost predicate SameEnds(r: seq<Item>, x: seq<Item>, y: seq<Item>, n: nat, m: nat) {
    n + m <= |r| && n <= |x| && n <= |y| && m <= |x| && m <= |y| &&
    Pointwise(r[..n], x[..n]) && Pointwise(r[..n], y[..n]) &&
    Pointwise(r[|r| - m..], x[|x| - m..]) && Pointwise(r[|r| - m..], y[|y| - m..])
  }

  /** `CommonWithEnds` does not depend on the order of the two lists. */
  lemma {:induction false} CommonWithEndsSymmetric(r: seq<Item>, x: seq<Item>, y: seq<Item>)
    requires CommonWithEnds(r, x, y)
    ensures CommonWithEnds(r, y, x)
  {
    var n := PrefixLen(x, y);
    PrefixSymmetric(x, y);
    SuffixSymmetric(x[n..], y[n..]);
  }

  /** `LCS` with the bounded prefix scan. */
  method Lcs(x: seq<Item>, y: seq<Item>) returns (r: seq<Item>)
    ensures CommonWithEnds(r, x, y)
    ensures forall e :: e in r ==> e in x || e in y
  {
    var small, large := Sort(x, y);
    var xs, ys, p, s := ScaleDown(small, large);
    var c := LcsTable(xs, ys, false);
    var mid := LcsFromTable(c, xs, ys, |xs| - 1, |ys| - 1);
    LcsFromTableDrawn(c, xs, ys, |xs| - 1, |ys| - 1);
    assert xs[..|xs|] == xs && ys[..|ys|] == ys;
    r := p + mid + s;
    Assembled(small, large, xs, ys, p, s, mid);
    if small != x {
      CommonWithEndsSymmetric(r, small, large);
    }
    assert forall e :: e in r ==> e in small by {
      assert small == p + xs + s;
    }
  }

  /** The pieces `ScaleDown` cuts, around a common subsequence of the middles, satisfy `CommonWithEnds`. */
  lemma {:induction false} Assembled(x: seq<Item>, y: seq<Item>, xs: seq<Item>, ys: seq<Item>, p: seq<Item>, s: seq<Item>,
                                     mid: seq<Item>)
    requires |p| == PrefixLen(x, y) && |s| == SuffixLen(x[|p|..], y[|p|..])
    requires p + xs + s == x && |p| + |s| <= |y| && ys == y[|p|..|y| - |s|]
    requires Pointwise(p, y[..|p|]) && Pointwise(s, y[|y| - |s|..])
    requires HashSub(mid, xs) && HashSub(mid, ys)
    ensures CommonWithEnds(p + mid + s, x, y)
  {
    Pieces(x, y, xs, ys, p, s, mid);
    assert x[..|p|] == p && x[|x| - |s|..] == s;
    AssembledEnds(x, y, p, mid, s);
  }

  /** The prefix and the suffix of `p + mid + s` match those of both lists. */
  lemma {:induction false} AssembledEnds(x: seq<Item>, y: seq<Item>, p: seq<Item>, mid: seq<Item>, s: seq<Item>)
    requires |p| + |s| <= |x| && p == x[..|p|] && s == x[|x| - |s|..]
    requires |p| + |s| <= |y| && Pointwise(p, y[..|p|]) && Pointwise(s, y[|y| - |s|..])
    ensures SameEnds(p + mid + s, x, y, |p|, |s|)
  {
    PointwiseRefl(p);
    PointwiseRefl(s);
    var r := p + mid + s;
    assert r[..|p|] == p && r[|r| - |s|..] == s;
  }

  /** The pieces of `ScaleDown` and a common subsequence of the middles give a common subsequence of the lists. */
  lemma {:induction false} Pieces(small: seq<Item>, large: seq<Item>,
                                  xs: seq<Item>, ys: seq<Item>, p: seq<Item>, s: seq<Item>,
                                  mid: seq<Item>)
    requires p + xs + s == small && |p| + |s| <= |large| && ys == large[|p|..|large| - |s|]
    requires Pointwise(p, large[..|p|]) && Pointwise(s, large[|large| - |s|..])
    requires HashSub(mid, xs) && HashSub(mid, ys)
    ensures HashSub(p + mid + s, small) && HashSub(p + mid + s, large)
  {
    PiecesSmall(small, xs, p, s, mid);
    PiecesLarge(large, ys, p, s, mid);
  }

  /** `p + mid + s` is a common subsequence of `p + xs + s` when `mid` is one of `xs`. */
  lemma {:induction false} PiecesSmall(small: seq<Item>, xs: seq<Item>, p: seq<Item>, s: seq<Item>, mid: seq<Item>)
    requires p + xs + s == small && HashSub(mid, xs)
    ensures HashSub(p + mid + s, small)
  {
    PointwiseRefl(p);
    PointwiseRefl(s);
    HashSubPointwise(p, p);
    HashSubPointwise(s, s);
    HashSubConcat(p, p, mid, xs);
    HashSubConcat(p + mid, p + xs, s, s);
  }

  /** `p + mid + s` is a common subsequence of `large` when its ends match those of `large` item by item. */
  lemma {:induction false} PiecesLarge(large: seq<Item>, ys: seq<Item>, p: seq<Item>, s: seq<Item>, mid: seq<Item>)
    requires |p| + |s| <= |large| && ys == large[|p|..|large| - |s|]
    requires Pointwise(p, large[..|p|]) && Pointwise(s, large[|large| - |s|..])
    requires HashSub(mid, ys)
    ensures HashSub(p + mid + s, large)
  {
    var lp, ls := large[..|p|], large[|large| - |s|..];
    HashSubPointwise(p, lp);
    HashSubPointwise(s, ls);
    HashSubConcat(p, lp, mid, ys);
    HashSubConcat(p + mid, lp + ys, s, ls);
    assert lp + ys + ls == large;
  }
}
