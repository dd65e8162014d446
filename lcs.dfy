/**
 * The LIS-based longest-common-subsequence solver of `lib/lcs/lcs.go`.
 *
 * `YadLCS` walks, for each item of `ys`, the positions in `xs` with the same
 * key (largest first) and keeps a patience-sorting list of pile tops
 * (`result.list`) whose x-positions strictly increase. Every pile top is the
 * last node of a backtracking chain; nodes are reference counted, recycled
 * through a free list and run-length compressed (a negative `cx` stands for
 * the run of positions after the parent's).
 *
 * Nodes live in an arena (`nodes`), a node reference is an index into it and
 * `Nil` is the nil pointer. Ghost bookkeeping per node records the
 * x-positions its chain stands for (`xpath`), the y-positions that witness
 * them (`ypath`) and the set of its counted children (`kids`); `live` holds
 * every node some pile top may still reach.
 */
module Lcs {
  import opened LcsIndices
  import opened LcsSequence
  import LcsLength

  const Nil := -1

  /** `node`: `cx` is an x-position, or `-k` for the `k` positions after the parent's; `c` counts the links to it. */
  datatype Node = Node(cx: int, p: int, c: int)

  function Last(s: seq<int>): int
    requires s != []
  {
    s[|s| - 1]
  }

  /** Node references that are nil or point into the arena. */
  predicate Ref(nodes: seq<Node>, v: int) {
    v == Nil || 0 <= v < |nodes|
  }

  /** `node.x`: the x-position a node stands for. */
  function XOf(nodes: seq<Node>, v: int, compress: bool): int
    requires 0 <= v < |nodes|
    requires compress && nodes[v].cx < 0 ==> 0 <= nodes[v].p < |nodes|
  {
    if compress && nodes[v].cx < 0 then nodes[nodes[v].p].cx - nodes[v].cx else nodes[v].cx
  }

  /**
   * The decision `node.link` takes: the `cx` it stores and the parent it
   * links to, given the position `x` and the node `m` it extends.
   */
  function Attach(nodes: seq<Node>, x: int, m: int, compress: bool): (int, int)
    requires Ref(nodes, m)
    requires m != Nil && compress && nodes[m].cx < 0 ==> 0 <= nodes[m].p < |nodes|
  {
    if m == Nil || !compress then (x, m)
    else if nodes[m].cx < 0 then
      if x == nodes[nodes[m].p].cx - nodes[m].cx + 1 then (nodes[m].cx - 1, nodes[m].p) else (x, m)
    else if x == nodes[m].cx + 1 then (-1, m)
    else (x, m)
  }

  // ---------------------------------------------------------------- invariant

  /** The arena with its ghost bookkeeping, as one value. */
  datatype Arena = Arena(
    nodes: seq<Node>, list: seq<int>, recycle: seq<int>,
    live: set<int>, kids: seq<set<int>>, xpath: seq<seq<int>>, ypath: seq<seq<int>>)

  /** One ghost entry per node. */
  ghost predicate Shape(a: Arena) {
    |a.kids| == |a.nodes| && |a.xpath| == |a.nodes| && |a.ypath| == |a.nodes|
  }

  ghost predicate Sized(a: Arena) {
    Shape(a) && forall v :: v in a.live ==> 0 <= v < |a.nodes|
  }

  /** What node `v`'s fields say about the x-positions of its chain. */
  ghost predicate Linked(a: Arena, v: int, compress: bool)
    requires Sized(a) && 0 <= v < |a.nodes|
  {
    var n := a.nodes[v];
    if n.p == Nil then n.cx >= 0 && a.xpath[v] == [n.cx]
    else
      0 <= n.p < |a.nodes| &&
      if n.cx >= 0 then a.xpath[v] == a.xpath[n.p] + [n.cx]
      else compress && a.nodes[n.p].cx >= 0 && a.xpath[v] == a.xpath[n.p] + Run(a.nodes[n.p].cx, -n.cx)
  }

  /**
   * Entry `i` of `s` is below entry `j`. Kept as a term of its own, so that
   * the order of a chain is only looked at where a proof asks for it.
   */
  predicate Rises(s: seq<int>, i: int, j: int)
    requires 0 <= i < |s| && 0 <= j < |s|
  {
    s[i] < s[j]
  }

  /** `yp` holds positions of `ys` matching the positions `xp` of `xs`, both strictly increasing. */
  ghost predicate Witnessed(xp: seq<int>, yp: seq<int>, xs: seq<Key>, ys: seq<Key>) {
    |xp| == |yp| && (forall i, j :: 0 <= i < j < |xp| ==> Rises(xp, i, j) && Rises(yp, i, j)) &&
    forall k :: 0 <= k < |xp| ==> 0 <= xp[k] < |xs| && 0 <= yp[k] < |ys| && xs[xp[k]] == ys[yp[k]]
  }

  /** Parents of live nodes are live (node `except` is being relinked). */
  ghost predicate Closed(a: Arena, except: int)
    requires Sized(a)
  {
    forall v :: v in a.live && v != except && a.nodes[v].p != Nil ==>
      a.nodes[v].p in a.live && v in a.kids[a.nodes[v].p]
  }

  /** A live node's count covers its live children; free nodes are dead and have count 0. */
  ghost predicate Counted(a: Arena)
    requires Sized(a)
  {
    (forall v :: v in a.live ==> a.nodes[v].c >= |a.kids[v]|) &&
    (forall k :: 0 <= k < |a.recycle| ==>
      0 <= a.recycle[k] < |a.nodes| && a.recycle[k] !in a.live &&
      a.nodes[a.recycle[k]].c == 0 && a.kids[a.recycle[k]] == {}) &&
    (forall k, k' :: 0 <= k < k' < |a.recycle| ==> Apart(a.recycle, k, k'))
  }

  /** Entries `i` and `j` of `s` differ; a term of its own, like `Rises`. */
  predicate Apart(s: seq<int>, i: int, j: int)
    requires 0 <= i < |s| && 0 <= j < |s|
  {
    s[i] != s[j]
  }

  /** A prefix of a list without repeats has none. */
  lemma {:induction false} ApartPrefix(s: seq<int>, n: int)
    requires 0 <= n <= |s|
    requires forall k, k' :: 0 <= k < k' < |s| ==> Apart(s, k, k')
    ensures forall k, k' :: 0 <= k < k' < n ==> Apart(s[..n], k, k')
  {
    forall k, k' | 0 <= k < k' < n ensures Apart(s[..n], k, k') {
      assert Apart(s, k, k');
    }
  }

  /** Appending a new entry to a list without repeats keeps it so. */
  lemma {:induction false} ApartSnoc(s: seq<int>, e: int)
    requires forall k, k' :: 0 <= k < k' < |s| ==> Apart(s, k, k')
    requires forall k :: 0 <= k < |s| ==> s[k] != e
    ensures forall k, k' :: 0 <= k < k' < |s| + 1 ==> Apart(s + [e], k, k')
  {
    forall k, k' | 0 <= k < k' < |s| + 1 ensures Apart(s + [e], k, k') {
      if k' < |s| {
        assert Apart(s, k, k');
      }
    }
  }

  /** Every live chain is a common subsequence of `xs` and `ys`. */
  ghost predicate Chains(a: Arena, compress: bool, xs: seq<Key>, ys: seq<Key>)
    requires Sized(a)
  {
    forall v :: v in a.live ==> Linked(a, v, compress) && Witnessed(a.xpath[v], a.ypath[v], xs, ys)
  }

  /** Pile `k` holds a live chain of `k + 1` positions. */
  ghost predicate Stacked(a: Arena)
    requires Sized(a)
  {
    forall k :: 0 <= k < |a.list| ==> a.list[k] in a.live && |a.xpath[a.list[k]]| == k + 1
  }

  /** The positions of the pile tops, first pile first. */
  ghost function Tops(a: Arena): (t: seq<int>)
    requires Sized(a) && Stacked(a)
    ensures |t| == |a.list|
  {
    seq(|a.list|, k requires 0 <= k < |a.list| => Last(a.xpath[a.list[k]]))
  }

  /** Top `k` is the last position of pile `k`'s chain. */
  lemma {:induction false} TopAt(a: Arena, k: int)
    requires Sized(a) && Stacked(a) && 0 <= k < |a.list|
    ensures a.xpath[a.list[k]] != [] && Tops(a)[k] == Last(a.xpath[a.list[k]])
  {
  }

  /** The piles are stacked and the pile tops' positions strictly increase. */
  ghost predicate Piles(a: Arena)
    requires Sized(a)
  {
    Stacked(a) && Ascending(Tops(a))
  }

  ghost predicate Core(a: Arena, compress: bool, xs: seq<Key>, ys: seq<Key>, except: int) {
    Sized(a) && Closed(a, except) && Counted(a) && Chains(a, compress, xs, ys)
  }

  ghost predicate Inv(a: Arena, compress: bool, xs: seq<Key>, ys: seq<Key>) {
    Core(a, compress, xs, ys, Nil) && Piles(a)
  }

  /** A live node's chain is not empty and its last position is what `node.x` reports. */
  lemma {:induction false} LiveX(a: Arena, v: int, compress: bool, xs: seq<Key>, ys: seq<Key>, except: int)
    requires Core(a, compress, xs, ys, except) && v in a.live
    ensures a.xpath[v] != []
    ensures compress && a.nodes[v].cx < 0 ==> 0 <= a.nodes[v].p < |a.nodes|
    ensures XOf(a.nodes, v, compress) == Last(a.xpath[v])
  {
    assert Linked(a, v, compress);
  }

  /**
   * What the arena functions below read: pile tops are nodes with an
   * in-bounds parent and a defined `node.x`, and the last free node is a node.
   */
  ghost predicate Piled(a: Arena, compress: bool) {
    Shape(a) && Probed(a.nodes, a.list, compress) &&
    (a.recycle != [] ==> 0 <= a.recycle[|a.recycle| - 1] < |a.nodes|)
  }

  /** Every pile top is a node with an in-bounds parent and a defined `node.x`. */
  predicate Probed(nodes: seq<Node>, list: seq<int>, compress: bool) {
    forall k :: 0 <= k < |list| ==>
      0 <= list[k] < |nodes| && Ref(nodes, nodes[list[k]].p) &&
      (compress && nodes[list[k]].cx < 0 ==> nodes[list[k]].p != Nil)
  }

  /** `node.x` of every pile top, first pile first. */
  function Xs(nodes: seq<Node>, list: seq<int>, compress: bool): (r: seq<int>)
    requires Probed(nodes, list, compress)
    ensures |r| == |list|
  {
    seq(|list|, k requires 0 <= k < |list| => XOf(nodes, list[k], compress))
  }

  ghost function TopX(a: Arena, compress: bool): (r: seq<int>)
    requires Piled(a, compress)
    ensures |r| == |a.list|
  {
    Xs(a.nodes, a.list, compress)
  }

  /** Each entry is below the next. */
  predicate Ascending(t: seq<int>) {
    |t| < 2 || (t[0] < t[1] && Ascending(t[1..]))
  }

  lemma {:induction false} AscendingBelow(t: seq<int>, i: int, j: int)
    requires Ascending(t) && 0 <= i < j < |t|
    ensures t[i] < t[j]
    decreases j
  {
    if i > 0 {
      AscendingBelow(t[1..], i - 1, j - 1);
    } else if j > 1 {
      AscendingBelow(t[1..], 0, j - 1);
    }
  }

  /** Lowering an entry to a value still above its predecessor keeps the order. */
  lemma {:induction false} AscendingSet(t: seq<int>, i: int, x: int)
    requires Ascending(t) && 0 <= i < |t|
    requires i > 0 ==> t[i - 1] < x
    requires x < t[i]
    ensures Ascending(t[i := x])
    decreases i
  {
    if i > 0 {
      AscendingSet(t[1..], i - 1, x);
      assert t[i := x][1..] == t[1..][i - 1 := x];
    } else {
      assert t[i := x][1..] == t[1..];
    }
  }

  /** Appending a value above the last entry keeps the order. */
  lemma {:induction false} AscendingSnoc(t: seq<int>, x: int)
    requires Ascending(t) && (t != [] ==> t[|t| - 1] < x)
    ensures Ascending(t + [x])
    decreases |t|
  {
    if t != [] {
      if |t| >= 2 {
        AscendingSnoc(t[1..], x);
      }
      assert (t + [x])[1..] == t[1..] + [x];
    }
  }

  lemma {:induction false} IncreasingAscending(t: seq<int>)
    requires Increasing(t)
    ensures Ascending(t)
    decreases |t|
  {
    if |t| >= 2 {
      assert Increasing(t[1..]) by {
        forall i, j | 0 <= i < j < |t| - 1 ensures t[1..][i] < t[1..][j] {
          assert t[1..][i] == t[i + 1] && t[1..][j] == t[j + 1];
        }
      }
      IncreasingAscending(t[1..]);
    }
  }

  /**
   * What the operations need to stay within the arena: live nodes' parents
   * are live and stand for shorter chains (so every walk up the parents
   * ends), a run node has a parent, pile tops are live, free nodes are
   * nodes, and `node.x` strictly increases along the piles.
   */
  ghost predicate Wf(a: Arena, compress: bool) {
    Piled(a, compress) &&
    Rooted(a) &&
    (forall v :: v in a.live ==> 0 <= v < |a.nodes| && (compress && a.nodes[v].cx < 0 ==> a.nodes[v].p != Nil)) &&
    (forall k :: 0 <= k < |a.list| ==> a.list[k] in a.live) &&
    (forall k :: 0 <= k < |a.recycle| ==> 0 <= a.recycle[k] < |a.nodes|) &&
    Ascending(TopX(a, compress))
  }

  /** Live nodes' parents are live and stand for shorter chains, so every walk up the parents ends. */
  ghost predicate Rooted(a: Arena) {
    Shape(a) &&
    forall v :: v in a.live ==>
      0 <= v < |a.nodes| &&
      (a.nodes[v].p == Nil ||
       (0 <= a.nodes[v].p < |a.nodes| && a.nodes[v].p in a.live && |a.xpath[a.nodes[v].p]| < |a.xpath[v]|))
  }

  /** The invariant gives the operations what they need. */
  lemma {:induction false} InvWf(a: Arena, compress: bool, xs: seq<Key>, ys: seq<Key>)
    requires Inv(a, compress, xs, ys)
    ensures Wf(a, compress) && TopX(a, compress) == Tops(a)
  {
    forall v | v in a.live
      ensures (compress && a.nodes[v].cx < 0 ==> a.nodes[v].p != Nil) &&
        (a.nodes[v].p == Nil ||
         (0 <= a.nodes[v].p < |a.nodes| && a.nodes[v].p in a.live && |a.xpath[a.nodes[v].p]| < |a.xpath[v]|))
    {
      assert Linked(a, v, compress);
    }
    SortedTops(a, compress, xs, ys);
    assert TopX(a, compress) == Tops(a);
  }

  // --------------------------------------------------------------------- link

  /** `p.c++` in `node.link`: `v` now counts as a child of `p`. */
  ghost function Bump(a: Arena, p: int, v: int): (r: Arena)
    requires 0 <= p < |a.nodes| && p < |a.kids|
    ensures Shape(a) ==> Shape(r)
  {
    a.(nodes := a.nodes[p := a.nodes[p].(c := a.nodes[p].c + 1)], kids := a.kids[p := a.kids[p] + {v}])
  }

  /** `v`'s fields set by `node.link`, with the chain it now stands for. */
  ghost function Settle(a: Arena, v: int, cx: int, p: int, xp: seq<int>, yp: seq<int>): Arena
    requires 0 <= v < |a.nodes| && v < |a.xpath| && v < |a.ypath|
  {
    a.(nodes := a.nodes[v := a.nodes[v].(cx := cx, p := p)], live := a.live + {v},
       xpath := a.xpath[v := xp], ypath := a.ypath[v := yp])
  }

  /** The arena after `v.link(x, m)`: `v` becomes a live chain extending `m`'s with `x`, witnessed at `y`. */
  ghost function AfterLink(a: Arena, v: int, x: int, m: int, y: int, compress: bool): Arena
    requires Shape(a) && 0 <= v < |a.nodes| && Ref(a.nodes, m)
    requires m != Nil && compress && a.nodes[m].cx < 0 ==> 0 <= a.nodes[m].p < |a.nodes|
  {
    var t := Attach(a.nodes, x, m, compress);
    var b := if m == Nil then a else Bump(a, t.1, v);
    Settle(b, v, t.0, t.1, (if m == Nil then [] else a.xpath[m]) + [x], (if m == Nil then [] else a.ypath[m]) + [y])
  }

  /** What `link` may be asked to do: relink a childless node that is not free after a chain ending before `(x, y)`. */
  ghost predicate CanLink(a: Arena, v: int, x: int, m: int, y: int, compress: bool, xs: seq<Key>, ys: seq<Key>) {
    Core(a, compress, xs, ys, v) && 0 <= v < |a.nodes| &&
    a.nodes[v].c == 0 && a.kids[v] == {} &&
    (forall k :: 0 <= k < |a.recycle| ==> a.recycle[k] != v) &&
    0 <= x < |xs| && 0 <= y < |ys| && xs[x] == ys[y] &&
    (m == Nil || (m in a.live && m != v && a.xpath[m] != [] && a.ypath[m] != [] &&
                  Last(a.xpath[m]) < x && Last(a.ypath[m]) < y &&
                  (compress && a.nodes[m].cx < 0 ==> 0 <= a.nodes[m].p < |a.nodes|)))
  }

  /** The node `link` attaches to is live and is not `v` itself. */
  lemma {:induction false} AttachLive(a: Arena, v: int, x: int, m: int, y: int, compress: bool, xs: seq<Key>, ys: seq<Key>)
    requires CanLink(a, v, x, m, y, compress, xs, ys) && m != Nil
    ensures compress && a.nodes[m].cx < 0 ==> 0 <= a.nodes[m].p < |a.nodes|
    ensures Attach(a.nodes, x, m, compress).1 in a.live
    ensures Attach(a.nodes, x, m, compress).1 != v
  {
    assert Linked(a, m, compress);
    var q := a.nodes[m].p;
    if q != Nil {
      assert q in a.live && m in a.kids[q];
    }
  }

  lemma {:induction false} LinkClosed(a: Arena, v: int, x: int, m: int, y: int, compress: bool, xs: seq<Key>, ys: seq<Key>)
    requires CanLink(a, v, x, m, y, compress, xs, ys)
    requires m != Nil ==> (compress && a.nodes[m].cx < 0 ==> 0 <= a.nodes[m].p < |a.nodes|)
    requires m != Nil ==> Attach(a.nodes, x, m, compress).1 in a.live
    ensures Sized(AfterLink(a, v, x, m, y, compress))
    ensures Closed(AfterLink(a, v, x, m, y, compress), Nil)
  {
    var b := AfterLink(a, v, x, m, y, compress);
    forall u | u in b.live && b.nodes[u].p != Nil
      ensures b.nodes[u].p in b.live && u in b.kids[b.nodes[u].p]
    {
      if u != v {
        assert b.nodes[u].p == a.nodes[u].p;
      }
    }
  }

  lemma {:induction false} LinkCounted(a: Arena, v: int, x: int, m: int, y: int, compress: bool, xs: seq<Key>, ys: seq<Key>)
    requires CanLink(a, v, x, m, y, compress, xs, ys)
    requires m != Nil ==> (compress && a.nodes[m].cx < 0 ==> 0 <= a.nodes[m].p < |a.nodes|)
    requires m != Nil ==> Attach(a.nodes, x, m, compress).1 in a.live
    requires m != Nil ==> Attach(a.nodes, x, m, compress).1 != v
    ensures Sized(AfterLink(a, v, x, m, y, compress))
    ensures Counted(AfterLink(a, v, x, m, y, compress))
  {
    var b := AfterLink(a, v, x, m, y, compress);
    var p := Attach(a.nodes, x, m, compress).1;
    forall u | u in b.live ensures b.nodes[u].c >= |b.kids[u]| {
      if u == p {
        assert |b.kids[u]| <= |a.kids[u]| + 1;
      }
    }
  }

  /** The fields `link` sets on `v`, and the chain of the node it attaches to, which it leaves alone. */
  lemma {:induction false} AfterLinkFields(a: Arena, v: int, x: int, m: int, y: int, compress: bool)
    requires Sized(a) && 0 <= v < |a.nodes| && Ref(a.nodes, m)
    requires m != Nil && compress && a.nodes[m].cx < 0 ==> 0 <= a.nodes[m].p < |a.nodes|
    requires m != Nil ==> Attach(a.nodes, x, m, compress).1 != v && m != v
    ensures var b := AfterLink(a, v, x, m, y, compress);
      var (cx, p) := Attach(a.nodes, x, m, compress);
      Sized(b) && b.nodes[v].cx == cx && b.nodes[v].p == p &&
      b.xpath[v] == (if m == Nil then [] else a.xpath[m]) + [x] &&
      b.ypath[v] == (if m == Nil then [] else a.ypath[m]) + [y] &&
      (p != Nil ==> b.nodes[p].cx == a.nodes[p].cx && b.xpath[p] == a.xpath[p])
  {
  }

  /** Extending a witnessed chain by a later match keeps it witnessed. */
  lemma {:induction false} WitnessedSnoc(xp: seq<int>, yp: seq<int>, x: int, y: int, xs: seq<Key>, ys: seq<Key>)
    requires Witnessed(xp, yp, xs, ys)
    requires xp != [] ==> Last(xp) < x && Last(yp) < y
    requires 0 <= x < |xs| && 0 <= y < |ys| && xs[x] == ys[y]
    ensures Witnessed(xp + [x], yp + [y], xs, ys)
  {
    var n := |xp|;
    forall i, j | 0 <= i < j < n + 1 ensures Rises(xp + [x], i, j) && Rises(yp + [y], i, j) {
      if j < n {
        assert Rises(xp, i, j) && Rises(yp, i, j);
      } else if i < n - 1 {
        assert Rises(xp, i, n - 1) && Rises(yp, i, n - 1);
      }
    }
  }

  /**
   * `p` is a list of positions of a common subsequence of `xs` and `ys`:
   * strictly increasing positions of `xs` whose items occur in `ys`, in the
   * same order, at strictly increasing positions.
   */
  ghost predicate CommonPositions(p: seq<int>, xs: seq<Key>, ys: seq<Key>) {
    Increasing(p) && (forall k :: 0 <= k < |p| ==> 0 <= p[k] < |xs|) &&
    exists yp: seq<int> :: |yp| == |p| && Increasing(yp) &&
      forall k :: 0 <= k < |p| ==> 0 <= yp[k] < |ys| && ys[yp[k]] == xs[p[k]]
  }

  /** A witnessed chain is a common subsequence. */
  lemma {:induction false} WitnessedCommon(xp: seq<int>, yp: seq<int>, xs: seq<Key>, ys: seq<Key>)
    requires Witnessed(xp, yp, xs, ys)
    ensures CommonPositions(xp, xs, ys)
  {
    forall i, j | 0 <= i < j < |xp| ensures xp[i] < xp[j] && yp[i] < yp[j] {
      assert Rises(xp, i, j) && Rises(yp, i, j);
    }
  }

  /** Requirements on the node `m` that `link` extends, local to `m`. */
  ghost predicate Extends(a: Arena, v: int, x: int, m: int, y: int, compress: bool, xs: seq<Key>, ys: seq<Key>) {
    Sized(a) && 0 <= v < |a.nodes| && Ref(a.nodes, m) &&
    0 <= x < |xs| && 0 <= y < |ys| && xs[x] == ys[y] &&
    (m != Nil ==>
      m != v && Linked(a, m, compress) && Witnessed(a.xpath[m], a.ypath[m], xs, ys) &&
      a.xpath[m] != [] && Last(a.xpath[m]) < x && Last(a.ypath[m]) < y &&
      (compress && a.nodes[m].cx < 0 ==> 0 <= a.nodes[m].p < |a.nodes|) &&
      Attach(a.nodes, x, m, compress).1 != v)
  }

  /** Compression extends the run `m` stands for. */
  lemma {:induction false} LinkRun(a: Arena, v: int, x: int, m: int, y: int, compress: bool)
    requires Sized(a) && 0 <= v < |a.nodes| && 0 <= m < |a.nodes| && m != v && Linked(a, m, compress)
    requires compress && a.nodes[m].cx < 0 && 0 <= a.nodes[m].p < |a.nodes| && a.nodes[m].p != v
    requires x == a.nodes[a.nodes[m].p].cx - a.nodes[m].cx + 1
    ensures Sized(AfterLink(a, v, x, m, y, compress))
    ensures Linked(AfterLink(a, v, x, m, y, compress), v, compress)
  {
    var b := AfterLink(a, v, x, m, y, compress);
    AfterLinkFields(a, v, x, m, y, compress);
    var n := a.nodes[m];
    var front, pcx := a.xpath[n.p], a.nodes[n.p].cx;
    var run := Run(pcx, -n.cx);
    assert a.xpath[m] == front + run;
    RunSnoc(pcx, -n.cx);
    assert b.xpath[v] == (front + run) + [x];
    assert (front + run) + [x] == front + (run + [x]);
    assert b.nodes[v] == Node(n.cx - 1, n.p, a.nodes[v].c);
  }

  /** Compression starts a run after `m`. */
  lemma {:induction false} LinkStartRun(a: Arena, v: int, x: int, m: int, y: int, compress: bool, xs: seq<Key>, ys: seq<Key>)
    requires Extends(a, v, x, m, y, compress, xs, ys) && m != Nil
    requires compress && a.nodes[m].cx >= 0 && x == a.nodes[m].cx + 1
    ensures Sized(AfterLink(a, v, x, m, y, compress))
    ensures Linked(AfterLink(a, v, x, m, y, compress), v, compress)
  {
    AfterLinkFields(a, v, x, m, y, compress);
    assert Run(a.nodes[m].cx, 1) == [x];
  }

  /** Without compression `v` stores `x` itself. */
  lemma {:induction false} LinkPlain(a: Arena, v: int, x: int, m: int, y: int, compress: bool, xs: seq<Key>, ys: seq<Key>)
    requires Extends(a, v, x, m, y, compress, xs, ys)
    requires Attach(a.nodes, x, m, compress) == (x, m)
    ensures Sized(AfterLink(a, v, x, m, y, compress))
    ensures Linked(AfterLink(a, v, x, m, y, compress), v, compress)
  {
    AfterLinkFields(a, v, x, m, y, compress);
  }

  lemma {:induction false} LinkNew(a: Arena, v: int, x: int, m: int, y: int, compress: bool, xs: seq<Key>, ys: seq<Key>)
    requires Extends(a, v, x, m, y, compress, xs, ys)
    ensures Sized(AfterLink(a, v, x, m, y, compress))
    ensures Linked(AfterLink(a, v, x, m, y, compress), v, compress)
    ensures var b := AfterLink(a, v, x, m, y, compress);
      Witnessed(b.xpath[v], b.ypath[v], xs, ys) && Last(b.xpath[v]) == x && Last(b.ypath[v]) == y
  {
    AfterLinkFields(a, v, x, m, y, compress);
    if m == Nil {
      WitnessedSnoc([], [], x, y, xs, ys);
      LinkPlain(a, v, x, m, y, compress, xs, ys);
    } else {
      WitnessedSnoc(a.xpath[m], a.ypath[m], x, y, xs, ys);
      var n := a.nodes[m];
      if compress && n.cx < 0 && x == a.nodes[n.p].cx - n.cx + 1 {
        LinkRun(a, v, x, m, y, compress);
      } else if compress && n.cx >= 0 && x == n.cx + 1 {
        LinkStartRun(a, v, x, m, y, compress, xs, ys);
      } else {
        LinkPlain(a, v, x, m, y, compress, xs, ys);
      }
    }
  }

  lemma {:induction false} LinkOthers(a: Arena, v: int, x: int, m: int, y: int, compress: bool, xs: seq<Key>, ys: seq<Key>)
    requires CanLink(a, v, x, m, y, compress, xs, ys)
    requires m != Nil ==> (compress && a.nodes[m].cx < 0 ==> 0 <= a.nodes[m].p < |a.nodes|)
    requires m != Nil ==> Attach(a.nodes, x, m, compress).1 != v
    ensures Sized(AfterLink(a, v, x, m, y, compress))
    ensures var b := AfterLink(a, v, x, m, y, compress);
      forall u :: u in b.live && u != v ==> Linked(b, u, compress) && Witnessed(b.xpath[u], b.ypath[u], xs, ys)
  {
    var b := AfterLink(a, v, x, m, y, compress);
    forall u | u in b.live && u != v
      ensures Linked(b, u, compress) && Witnessed(b.xpath[u], b.ypath[u], xs, ys)
    {
      assert Linked(a, u, compress);
      var q := a.nodes[u].p;
      if q != Nil {
        assert q in a.live && u in a.kids[q];
        assert q != v;
      }
    }
  }

  /**
   * What `link` leaves behind in `b`: the invariant but the piles holds, `v`
   * is live and stands for `x`, its chain is `m`'s extended by `x`, and no
   * other chain changed.
   */
  ghost predicate Relinked(a: Arena, b: Arena, v: int, x: int, m: int, y: int, compress: bool, xs: seq<Key>, ys: seq<Key>)
    requires Sized(a) && Ref(a.nodes, m)
  {
    Core(b, compress, xs, ys, Nil) && v in b.live && b.live == a.live + {v} && b.list == a.list &&
    b.xpath[v] == (if m == Nil then [] else a.xpath[m]) + [x] &&
    XOf(b.nodes, v, compress) == x && Last(b.xpath[v]) == x && Last(b.ypath[v]) == y &&
    |b.xpath| == |a.xpath| &&
    forall u :: 0 <= u < |b.xpath| && u != v ==> b.xpath[u] == a.xpath[u] && b.ypath[u] == a.ypath[u]
  }

  /** `link` keeps every part of the invariant but the piles, and `v` stands for `x` afterwards. */
  lemma {:induction false} LinkKeeps(a: Arena, v: int, x: int, m: int, y: int, compress: bool, xs: seq<Key>, ys: seq<Key>)
    requires CanLink(a, v, x, m, y, compress, xs, ys)
    ensures m != Nil ==> (compress && a.nodes[m].cx < 0 ==> 0 <= a.nodes[m].p < |a.nodes|)
    ensures Relinked(a, AfterLink(a, v, x, m, y, compress), v, x, m, y, compress, xs, ys)
  {
    if m != Nil {
      AttachLive(a, v, x, m, y, compress, xs, ys);
    }
    LinkClosed(a, v, x, m, y, compress, xs, ys);
    LinkCounted(a, v, x, m, y, compress, xs, ys);
    if m != Nil {
      assert Linked(a, m, compress) && Witnessed(a.xpath[m], a.ypath[m], xs, ys);
    }
    assert Extends(a, v, x, m, y, compress, xs, ys);
    LinkNew(a, v, x, m, y, compress, xs, ys);
    LinkOthers(a, v, x, m, y, compress, xs, ys);
    LiveX(AfterLink(a, v, x, m, y, compress), v, compress, xs, ys, Nil);
  }

  // -------------------------------------------------------------- allocation

  /** The arena once `result.new` has taken a node: the last free one, or a fresh zero node. */
  ghost function Pop(a: Arena): Arena {
    if a.recycle != [] then a.(recycle := a.recycle[..|a.recycle| - 1])
    else a.(nodes := a.nodes + [Node(0, Nil, 0)], kids := a.kids + [{}],
            xpath := a.xpath + [[]], ypath := a.ypath + [[]])
  }

  /** The node `Pop` hands out. */
  ghost function Popped(a: Arena): int {
    if a.recycle != [] then a.recycle[|a.recycle| - 1] else |a.nodes|
  }

  /** `n` may be linked to: nil, or a node whose `node.x` is defined. */
  ghost predicate Target(a: Arena, n: int, compress: bool) {
    Ref(a.nodes, n) && (n != Nil && compress && a.nodes[n].cx < 0 ==> 0 <= a.nodes[n].p < |a.nodes|)
  }

  /** The top of pile `k` may be linked to, and so may `Nil` (for `k` = -1). */
  lemma TopTarget(a: Arena, compress: bool, k: int)
    requires Wf(a, compress) && -1 <= k < |a.list|
    ensures Target(a, if k < 0 then Nil else a.list[k], compress)
  {
  }

  /** The arena after `result.new(x, n)`: the popped node linked after `n`. */
  ghost function AfterNew(a: Arena, x: int, n: int, y: int, compress: bool): Arena
    requires Shape(a) && Target(a, n, compress)
    requires a.recycle != [] ==> 0 <= a.recycle[|a.recycle| - 1] < |a.nodes|
  {
    AfterLink(Pop(a), Popped(a), x, n, y, compress)
  }

  /** A popped node may be linked after any live chain ending before `(x, y)`. */
  lemma {:induction false} PopKeeps(a: Arena, x: int, m: int, y: int, compress: bool, xs: seq<Key>, ys: seq<Key>)
    requires Core(a, compress, xs, ys, Nil)
    requires 0 <= x < |xs| && 0 <= y < |ys| && xs[x] == ys[y]
    requires m == Nil || (m in a.live && a.xpath[m] != [] && a.ypath[m] != [] &&
                          Last(a.xpath[m]) < x && Last(a.ypath[m]) < y)
    ensures Popped(a) !in a.live && 0 <= Popped(a) < |Pop(a).nodes|
    ensures CanLink(Pop(a), Popped(a), x, m, y, compress, xs, ys)
  {
    var b, v := Pop(a), Popped(a);
    if m != Nil {
      LiveX(a, m, compress, xs, ys, Nil);
    }
    if a.recycle != [] {
      assert v == a.recycle[|a.recycle| - 1];
      forall k | 0 <= k < |b.recycle| ensures b.recycle[k] != v {
        assert b.recycle[k] == a.recycle[k] && Apart(a.recycle, k, |a.recycle| - 1);
      }
      ApartPrefix(a.recycle, |a.recycle| - 1);
    } else {
      assert Sized(b);
      assert Closed(b, v) by {
        forall u | u in b.live && u != v && b.nodes[u].p != Nil
          ensures b.nodes[u].p in b.live && u in b.kids[b.nodes[u].p]
        {
          assert b.nodes[u] == a.nodes[u];
        }
      }
      assert Chains(b, compress, xs, ys) by {
        forall u | u in b.live ensures Linked(b, u, compress) && Witnessed(b.xpath[u], b.ypath[u], xs, ys) {
          assert Linked(a, u, compress);
          if a.nodes[u].p != Nil {
            assert a.nodes[u].p in a.live;
          }
        }
      }
    }
  }

  /** `result.new` keeps every part of the invariant but the piles; the new node stands for `x` after `n`'s chain. */
  lemma {:induction false} NewKeeps(a: Arena, x: int, n: int, y: int, compress: bool, xs: seq<Key>, ys: seq<Key>)
    requires Core(a, compress, xs, ys, Nil)
    requires 0 <= x < |xs| && 0 <= y < |ys| && xs[x] == ys[y]
    requires n == Nil || (n in a.live && a.xpath[n] != [] && a.ypath[n] != [] &&
                          Last(a.xpath[n]) < x && Last(a.ypath[n]) < y)
    ensures Target(a, n, compress) && (a.recycle != [] ==> 0 <= a.recycle[|a.recycle| - 1] < |a.nodes|)
    ensures var b, v := AfterNew(a, x, n, y, compress), Popped(a);
      Core(b, compress, xs, ys, Nil) && v !in a.live && b.live == a.live + {v} && b.list == a.list &&
      b.xpath[v] == (if n == Nil then [] else a.xpath[n]) + [x] &&
      b.ypath[v] != [] && Last(b.ypath[v]) == y &&
      forall u :: u in a.live ==> b.xpath[u] == a.xpath[u] && b.ypath[u] == a.ypath[u]
  {
    if n != Nil {
      LiveX(a, n, compress, xs, ys, Nil);
    }
    PopKeeps(a, x, n, y, compress, xs, ys);
    LinkKeeps(Pop(a), Popped(a), x, n, y, compress, xs, ys);
  }

  // -------------------------------------------------------------------- walk

  /** `p.c--` in `replace`'s walk: `child`, the node below `p`, no longer counts. */
  ghost function Decrement(a: Arena, p: int, child: int): Arena
    requires 0 <= p < |a.nodes| && p < |a.kids|
  {
    a.(nodes := a.nodes[p := a.nodes[p].(c := a.nodes[p].c - 1)], kids := a.kids[p := a.kids[p] - {child}])
  }

  /** Pushing `p` onto the free list. */
  ghost function Free(a: Arena, p: int): Arena {
    a.(recycle := a.recycle + [p], live := a.live - {p})
  }

  /** Facts about a live node's parent. */
  lemma {:induction false} ParentOf(a: Arena, compress: bool, xs: seq<Key>, ys: seq<Key>, except: int, u: int)
    requires Core(a, compress, xs, ys, except) && u in a.live && u != except
    ensures a.nodes[u].p != Nil ==>
      a.nodes[u].p in a.live && u in a.kids[a.nodes[u].p] && |a.xpath[a.nodes[u].p]| < |a.xpath[u]|
    ensures a.nodes[u].p == Nil || 0 <= a.nodes[u].p < |a.nodes|
  {
    assert Linked(a, u, compress);
  }

  lemma {:induction false} DecrementKeeps(a: Arena, p: int, child: int, compress: bool, xs: seq<Key>, ys: seq<Key>, m: int)
    requires Core(a, compress, xs, ys, m) && Piles(a)
    requires p in a.live && child in a.kids[p] && (child == m || child !in a.live)
    ensures Core(Decrement(a, p, child), compress, xs, ys, m) && Piles(Decrement(a, p, child))
  {
    var b := Decrement(a, p, child);
    assert forall u :: 0 <= u < |a.nodes| ==> b.nodes[u].cx == a.nodes[u].cx && b.nodes[u].p == a.nodes[u].p;
    assert Closed(b, m) by {
      forall u | u in b.live && u != m && b.nodes[u].p != Nil
        ensures b.nodes[u].p in b.live && u in b.kids[b.nodes[u].p]
      {
        assert u in a.kids[a.nodes[u].p];
      }
    }
    assert Counted(b) by {
      forall u | u in b.live ensures b.nodes[u].c >= |b.kids[u]| {
        if u == p {
          assert |b.kids[u]| == |a.kids[u]| - 1;
        }
      }
      forall k | 0 <= k < |b.recycle|
        ensures b.nodes[b.recycle[k]].c == 0 && b.kids[b.recycle[k]] == {}
      {
        assert b.recycle[k] != p;
      }
    }
    assert Chains(b, compress, xs, ys) by {
      forall u | u in b.live ensures Linked(b, u, compress) {
        assert Linked(a, u, compress);
      }
    }
  }

  lemma {:induction false} FreeKeeps(a: Arena, p: int, compress: bool, xs: seq<Key>, ys: seq<Key>, m: int)
    requires Core(a, compress, xs, ys, m) && Piles(a)
    requires p in a.live && a.nodes[p].c == 0 && p !in a.list
    ensures Core(Free(a, p), compress, xs, ys, m) && Piles(Free(a, p))
  {
    var b := Free(a, p);
    assert |a.kids[p]| == 0;
    assert Closed(b, m) by {
      forall u | u in b.live && u != m && b.nodes[u].p != Nil
        ensures b.nodes[u].p in b.live && u in b.kids[b.nodes[u].p]
      {
        assert u in a.kids[a.nodes[u].p];
      }
    }
    assert Counted(b) by {
      forall k | 0 <= k < |b.recycle| ensures b.recycle[k] !in b.live && b.kids[b.recycle[k]] == {} {
        if k < |a.recycle| {
          assert b.recycle[k] == a.recycle[k];
        }
      }
      ApartSnoc(a.recycle, p);
    }
    assert Piles(b) by {
      forall k | 0 <= k < |b.list| ensures b.list[k] != p {
        assert b.list[k] == a.list[k];
      }
      assert Tops(b) == Tops(a);
    }
  }

  // ------------------------------------------------------------------- piles

  /** Replacing pile `i`'s top by a chain of `i + 1` positions ending between its neighbours' keeps the piles. */
  lemma {:induction false} PilesReplace(a: Arena, b: Arena, i: int, v: int)
    requires Sized(a) && Sized(b) && Piles(a) && 0 <= i < |a.list|
    requires b.list == a.list[i := v]
    requires v in b.live && |b.xpath[v]| == i + 1
    requires forall k :: 0 <= k < |a.list| && k != i ==>
      a.list[k] in b.live && b.xpath[a.list[k]] == a.xpath[a.list[k]]
    requires i > 0 ==> Last(a.xpath[a.list[i - 1]]) < Last(b.xpath[v])
    requires Last(b.xpath[v]) < Last(a.xpath[a.list[i]])
    ensures Piles(b)
  {
    assert Tops(b) == Tops(a)[i := Last(b.xpath[v])];
    AscendingSet(Tops(a), i, Last(b.xpath[v]));
  }

  /** The piles are no part of `Core`. */
  lemma {:induction false} CoreWithList(a: Arena, list: seq<int>, compress: bool, xs: seq<Key>, ys: seq<Key>)
    requires Core(a, compress, xs, ys, Nil)
    ensures Core(a.(list := list), compress, xs, ys, Nil)
  {
    var b := a.(list := list);
    assert Chains(b, compress, xs, ys) by {
      forall u | u in b.live ensures Linked(b, u, compress) {
        assert Linked(a, u, compress);
      }
    }
  }

  /** Pile tops are distinct nodes. */
  lemma {:induction false} PilesDistinct(a: Arena, i: int)
    requires Sized(a) && Piles(a) && 0 <= i < |a.list|
    ensures forall k :: 0 <= k < |a.list| && k != i ==> a.list[k] != a.list[i]
  {
    forall k | 0 <= k < |a.list| && k != i ensures a.list[k] != a.list[i] {
      assert |a.xpath[a.list[k]]| == k + 1;
    }
  }

  /** Putting a chain of `|list| + 1` positions ending after the last pile's on a new pile keeps the piles. */
  lemma {:induction false} PilesAppend(a: Arena, b: Arena, v: int)
    requires Sized(a) && Sized(b) && Piles(a)
    requires b.list == a.list + [v]
    requires v in b.live && |b.xpath[v]| == |a.list| + 1
    requires forall k :: 0 <= k < |a.list| ==> a.list[k] in b.live && b.xpath[a.list[k]] == a.xpath[a.list[k]]
    requires a.list != [] ==> Last(a.xpath[a.list[|a.list| - 1]]) < Last(b.xpath[v])
    ensures Piles(b)
  {
    assert Tops(b) == Tops(a) + [Last(b.xpath[v])];
    AscendingSnoc(Tops(a), Last(b.xpath[v]));
  }

  // ----------------------------------------------------------------- replace

  /** The state of the walk of `replace`: `p` is the next ancestor to visit, `child` the node below it. */
  ghost predicate Walking(a: Arena, b: Arena, m: int, child: int, p: int, compress: bool, xs: seq<Key>, ys: seq<Key>) {
    Released(a, b, m, compress, xs, ys) &&
    (child == m || child !in b.live) &&
    (p == Nil || 0 <= p < |b.nodes|) &&
    (p != Nil ==> p in b.live && child in b.kids[p] && |b.xpath[p]| < |b.xpath[m]|)
  }

  lemma {:induction false} WalkStart(a: Arena, m: int, compress: bool, xs: seq<Key>, ys: seq<Key>)
    requires Inv(a, compress, xs, ys) && m in a.live && a.nodes[m].c == 0
    ensures Walking(a, a, m, m, a.nodes[m].p, compress, xs, ys)
  {
    ParentOf(a, compress, xs, ys, Nil, m);
  }

  /** One step of the walk: the count drops; an ancestor left unlinked that is no pile top is freed. */
  lemma {:induction false} WalkStep(a: Arena, b: Arena, m: int, child: int, p: int, compress: bool, xs: seq<Key>, ys: seq<Key>)
    requires Walking(a, b, m, child, p, compress, xs, ys) && p != Nil
    ensures Released(a, Decrement(b, p, child), m, compress, xs, ys)
    ensures var d := Decrement(b, p, child);
      d.nodes[p].c == 0 && p !in d.list ==> Walking(a, Free(d, p), m, p, d.nodes[p].p, compress, xs, ys)
    ensures var q := b.nodes[p].p; 0 <= p < |b.xpath| && (0 <= q < |b.xpath| ==> |b.xpath[q]| < |b.xpath[p]|)
  {
    var d := Decrement(b, p, child);
    ParentOf(b, compress, xs, ys, m, p);
    DecrementKeeps(b, p, child, compress, xs, ys, m);
    assert d.nodes[p].p == b.nodes[p].p;
    if d.nodes[p].c == 0 && p !in d.list {
      FreeKeeps(d, p, compress, xs, ys, m);
      var f := Free(d, p);
      assert a.recycle <= f.recycle;
    }
  }

  /**
   * The rest of the corrected walk of `replace` (see LcsRecycle) from
   * ancestor `p` (with `child` below it) up to `n`: the state once it
   * stops. Unlike lib/lcs/lcs.go:127-134, the walk also stops at an
   * ancestor that is still a pile top, so that node is never recycled.
   */
  ghost function Unwind(a: Arena, child: int, p: int, n: int): (r: Arena)
    requires Shape(a) && Ref(a.nodes, p)
    ensures Shape(r) && |r.nodes| == |a.nodes| && r.list == a.list && r.xpath == a.xpath && r.ypath == a.ypath
    ensures forall u :: 0 <= u < |a.nodes| ==> r.nodes[u].cx == a.nodes[u].cx && r.nodes[u].p == a.nodes[u].p
    decreases if p == Nil then 0 else |a.xpath[p]| + 1
  {
    if p == Nil || p == n then a
    else
      var d := Decrement(a, p, child);
      var q := a.nodes[p].p;
      if d.nodes[p].c != 0 || p in d.list then d
      else if Ref(a.nodes, q) && (q == Nil || |a.xpath[q]| < |a.xpath[p]|) then Unwind(Free(d, p), p, q, n)
      else Free(d, p)
  }

  /** The walk ends with the invariant back, `m` unlinked from its ancestors. */
  lemma {:induction false} UnwindReleases(a: Arena, b: Arena, m: int, child: int, p: int, n: int,
                                          compress: bool, xs: seq<Key>, ys: seq<Key>)
    requires Walking(a, b, m, child, p, compress, xs, ys)
    ensures Released(a, Unwind(b, child, p, n), m, compress, xs, ys)
    decreases if p == Nil then 0 else |b.xpath[p]| + 1
  {
    if p != Nil && p != n {
      WalkStep(a, b, m, child, p, compress, xs, ys);
      var d := Decrement(b, p, child);
      if d.nodes[p].c == 0 && p !in d.list {
        UnwindReleases(a, Free(d, p), m, p, d.nodes[p].p, n, compress, xs, ys);
      }
    }
  }

  /** What the walk of `replace` leaves behind: the invariant with `m` about to be relinked. */
  ghost predicate Released(a: Arena, b: Arena, m: int, compress: bool, xs: seq<Key>, ys: seq<Key>) {
    Core(b, compress, xs, ys, m) && Piles(b) &&
    b.list == a.list && b.xpath == a.xpath && b.ypath == a.ypath && |b.nodes| == |a.nodes| &&
    b.live <= a.live && a.recycle <= b.recycle &&
    m in b.live && 0 <= m < |b.nodes| && b.nodes[m] == a.nodes[m] && b.kids[m] == {}
  }

  /** The pile before pile `i`, or nil for the first. */
  function Before(list: seq<int>, i: int): int
    requires 0 <= i < |list|
  {
    if i == 0 then Nil else list[i - 1]
  }

  /** Pile `k`'s top is live and `node.x` reports its chain's last position. */
  lemma {:induction false} PileX(a: Arena, k: int, compress: bool, xs: seq<Key>, ys: seq<Key>)
    requires Inv(a, compress, xs, ys) && 0 <= k < |a.list|
    ensures a.list[k] in a.live && 0 <= a.list[k] < |a.nodes|
    ensures a.xpath[a.list[k]] != [] && a.ypath[a.list[k]] != []
    ensures compress && a.nodes[a.list[k]].cx < 0 ==> 0 <= a.nodes[a.list[k]].p < |a.nodes|
    ensures XOf(a.nodes, a.list[k], compress) == Last(a.xpath[a.list[k]])
  {
    LiveX(a, a.list[k], compress, xs, ys, Nil);
    assert Witnessed(a.xpath[a.list[k]], a.ypath[a.list[k]], xs, ys);
  }

  /** The chains `replace` works with: pile `i - 1`'s ends before `(x, y)`, pile `i`'s after `x`. */
  ghost predicate Fits(a: Arena, i: int, x: int, y: int, compress: bool, xs: seq<Key>, ys: seq<Key>) {
    Inv(a, compress, xs, ys) && 0 <= i < |a.list| &&
    0 <= x < |xs| && 0 <= y < |ys| && xs[x] == ys[y] &&
    (i > 0 ==> a.xpath[a.list[i - 1]] != [] && a.ypath[a.list[i - 1]] != [] &&
               Last(a.xpath[a.list[i - 1]]) < x && Last(a.ypath[a.list[i - 1]]) < y) &&
    a.xpath[a.list[i]] != [] && x < Last(a.xpath[a.list[i]])
  }

  /** `replace(i, x, n)` put `n`'s chain extended by `x` on pile `i` and changed no other pile. */
  ghost predicate Replaced(a: Arena, b: Arena, i: int, x: int, y: int, compress: bool, xs: seq<Key>, ys: seq<Key>)
    requires Inv(a, compress, xs, ys) && 0 <= i < |a.list|
  {
    Inv(b, compress, xs, ys) && |b.list| == |a.list| &&
    (forall k :: 0 <= k < |a.list| && k != i ==>
      b.list[k] == a.list[k] && b.xpath[a.list[k]] == a.xpath[a.list[k]] && b.ypath[a.list[k]] == a.ypath[a.list[k]]) &&
    b.xpath[b.list[i]] == (if i == 0 then [] else a.xpath[a.list[i - 1]]) + [x] &&
    b.ypath[b.list[i]] != [] && Last(b.ypath[b.list[i]]) == y
  }

  lemma {:induction false} ReleasedCanLink(a: Arena, c: Arena, i: int, x: int, y: int, compress: bool, xs: seq<Key>, ys: seq<Key>)
    requires Fits(a, i, x, y, compress, xs, ys)
    requires Released(a, c, a.list[i], compress, xs, ys) && a.nodes[a.list[i]].c == 0
    ensures CanLink(c, a.list[i], x, Before(a.list, i), y, compress, xs, ys)
  {
    var m := a.list[i];
    PilesDistinct(a, i);
    if i > 0 {
      PileX(a, i - 1, compress, xs, ys);
      assert Linked(c, a.list[i - 1], compress);
    }
    forall k | 0 <= k < |c.recycle| ensures c.recycle[k] != m {
      assert c.recycle[k] !in c.live;
    }
  }

  lemma {:induction false} RelinkReplaces(a: Arena, c: Arena, b: Arena, i: int, x: int, y: int, compress: bool, xs: seq<Key>, ys: seq<Key>)
    requires Fits(a, i, x, y, compress, xs, ys)
    requires Released(a, c, a.list[i], compress, xs, ys)
    requires Relinked(c, b, a.list[i], x, Before(a.list, i), y, compress, xs, ys)
    ensures Replaced(a, b, i, x, y, compress, xs, ys)
  {
    var m := a.list[i];
    PilesDistinct(a, i);
    assert b.list == a.list[i := m];
    assert forall k :: 0 <= k < |a.list| && k != i ==>
      a.list[k] in b.live && b.xpath[a.list[k]] == a.xpath[a.list[k]] && b.ypath[a.list[k]] == a.ypath[a.list[k]];
    if i > 0 {
      assert |a.xpath[a.list[i - 1]]| == i;
    }
    PilesReplace(a, b, i, m);
  }

  lemma {:induction false} RenewReplaces(a: Arena, c: Arena, b: Arena, i: int, v: int, x: int, y: int,
                      compress: bool, xs: seq<Key>, ys: seq<Key>)
    requires Fits(a, i, x, y, compress, xs, ys)
    requires Core(c, compress, xs, ys, Nil) && c.list == a.list && v !in a.live && c.live == a.live + {v}
    requires c.xpath[v] == (if i == 0 then [] else a.xpath[a.list[i - 1]]) + [x]
    requires c.ypath[v] != [] && Last(c.ypath[v]) == y
    requires forall u :: u in a.live ==> c.xpath[u] == a.xpath[u] && c.ypath[u] == a.ypath[u]
    requires b == c.(list := c.list[i := v])
    ensures Replaced(a, b, i, x, y, compress, xs, ys)
  {
    CoreWithList(c, b.list, compress, xs, ys);
    assert forall k :: 0 <= k < |a.list| ==> a.list[k] in a.live;
    if i > 0 {
      assert |a.xpath[a.list[i - 1]]| == i;
    }
    PilesReplace(a, b, i, v);
  }

  /**
   * The arena after `result.replace(i, x, n)`: an old top nothing links to
   * is unlinked from its ancestors and relinked after `n`; otherwise a new
   * node takes pile `i`.
   */
  ghost function AfterReplace(a: Arena, i: int, x: int, n: int, y: int, compress: bool): Arena
    requires Piled(a, compress) && 0 <= i < |a.list| && Target(a, n, compress)
  {
    var m := a.list[i];
    if a.nodes[m].c == 0 then AfterLink(Unwind(a, m, a.nodes[m].p, n), m, x, n, y, compress)
    else
      var b := AfterNew(a, x, n, y, compress);
      b.(list := b.list[i := Popped(a)])
  }

  /** `replace(i, x, n)` with `n` the previous pile's top puts `x` on pile `i` and keeps the invariant. */
  lemma {:induction false} ReplaceKeeps(a: Arena, i: int, x: int, y: int, compress: bool, xs: seq<Key>, ys: seq<Key>)
    requires Fits(a, i, x, y, compress, xs, ys) && Wf(a, compress)
    ensures Target(a, Before(a.list, i), compress)
    ensures Replaced(a, AfterReplace(a, i, x, Before(a.list, i), y, compress), i, x, y, compress, xs, ys)
  {
    PileX(a, i, compress, xs, ys);
    if i > 0 {
      PileX(a, i - 1, compress, xs, ys);
    }
    if a.nodes[a.list[i]].c == 0 {
      ReplaceRelinks(a, i, x, y, compress, xs, ys);
    } else {
      ReplaceRenews(a, i, x, y, compress, xs, ys);
    }
  }

  /** `ReplaceKeeps` when the old top has no children: its chain is released and the node relinked. */
  lemma {:induction false} ReplaceRelinks(a: Arena, i: int, x: int, y: int, compress: bool, xs: seq<Key>, ys: seq<Key>)
    requires Fits(a, i, x, y, compress, xs, ys) && Wf(a, compress)
    requires Target(a, Before(a.list, i), compress) && a.nodes[a.list[i]].c == 0
    ensures Replaced(a, AfterReplace(a, i, x, Before(a.list, i), y, compress), i, x, y, compress, xs, ys)
  {
    var n := Before(a.list, i);
    var m := a.list[i];
    WalkStart(a, m, compress, xs, ys);
    UnwindReleases(a, a, m, m, a.nodes[m].p, n, compress, xs, ys);
    var c := Unwind(a, m, a.nodes[m].p, n);
    ReleasedCanLink(a, c, i, x, y, compress, xs, ys);
    LinkKeeps(c, m, x, n, y, compress, xs, ys);
    RelinkReplaces(a, c, AfterLink(c, m, x, n, y, compress), i, x, y, compress, xs, ys);
  }

  /** `ReplaceKeeps` when the old top has children: a new node goes on the pile. */
  lemma {:induction false} ReplaceRenews(a: Arena, i: int, x: int, y: int, compress: bool, xs: seq<Key>, ys: seq<Key>)
    requires Fits(a, i, x, y, compress, xs, ys) && Wf(a, compress)
    requires Target(a, Before(a.list, i), compress) && a.nodes[a.list[i]].c != 0
    ensures Replaced(a, AfterReplace(a, i, x, Before(a.list, i), y, compress), i, x, y, compress, xs, ys)
  {
    var n := Before(a.list, i);
    NewKeeps(a, x, n, y, compress, xs, ys);
    var c := AfterNew(a, x, n, y, compress);
    RenewReplaces(a, c, c.(list := c.list[i := Popped(a)]), i, Popped(a), x, y, compress, xs, ys);
  }

  // --------------------------------------------------------------------- add

  /** Pile tops' positions strictly increase, and `node.x` reports them. */
  lemma {:induction false} SortedTops(a: Arena, compress: bool, xs: seq<Key>, ys: seq<Key>)
    requires Inv(a, compress, xs, ys)
    ensures forall k :: 0 <= k < |a.list| ==>
      a.list[k] in a.live && 0 <= a.list[k] < |a.nodes| && a.xpath[a.list[k]] != [] && a.ypath[a.list[k]] != [] &&
      (compress && a.nodes[a.list[k]].cx < 0 ==> 0 <= a.nodes[a.list[k]].p < |a.nodes|) &&
      XOf(a.nodes, a.list[k], compress) == Last(a.xpath[a.list[k]])
  {
    forall k | 0 <= k < |a.list|
      ensures a.list[k] in a.live && 0 <= a.list[k] < |a.nodes| && a.xpath[a.list[k]] != [] && a.ypath[a.list[k]] != [] &&
        (compress && a.nodes[a.list[k]].cx < 0 ==> 0 <= a.nodes[a.list[k]].p < |a.nodes|) &&
        XOf(a.nodes, a.list[k], compress) == Last(a.xpath[a.list[k]])
    {
      PileX(a, k, compress, xs, ys);
    }
  }

  /**
   * Within the round of item `y` of `ys`: every pile top was matched at an
   * earlier item, or at `y` itself at a position no smaller than `xlast`;
   * the round has added at most one pile to the `l0` it started with, and
   * that pile was matched at `y`.
   */
  ghost predicate Round(a: Arena, y: int, xlast: int, l0: int, compress: bool, xs: seq<Key>, ys: seq<Key>) {
    Inv(a, compress, xs, ys) &&
    (forall k :: 0 <= k < |a.list| ==>
      a.ypath[a.list[k]] != [] &&
      (Last(a.ypath[a.list[k]]) < y || (Last(a.ypath[a.list[k]]) == y && xlast <= Last(a.xpath[a.list[k]])))) &&
    0 <= l0 <= |a.list| <= l0 + 1 &&
    (|a.list| == l0 + 1 ==> Last(a.ypath[a.list[l0]]) == y)
  }

  /** Every pile top was matched before item `y` of `ys`. */
  ghost predicate Settled(a: Arena, y: int)
    requires Sized(a)
  {
    forall k :: 0 <= k < |a.list| ==>
      a.list[k] in a.live && a.ypath[a.list[k]] != [] && Last(a.ypath[a.list[k]]) < y
  }

  /** A round starts with every pile top matched before `y`. */
  lemma {:induction false} RoundStart(a: Arena, y: int, xlast: int, compress: bool, xs: seq<Key>, ys: seq<Key>)
    requires Inv(a, compress, xs, ys) && Settled(a, y)
    ensures Round(a, y, xlast, |a.list|, compress, xs, ys)
  {
  }

  /** After the round of `y`, every pile top was matched before `y + 1`. */
  lemma {:induction false} RoundEnds(a: Arena, y: int, xlast: int, l0: int, compress: bool, xs: seq<Key>, ys: seq<Key>)
    requires Round(a, y, xlast, l0, compress, xs, ys)
    ensures Inv(a, compress, xs, ys) && Settled(a, y + 1)
  {
    forall k | 0 <= k < |a.list| ensures a.list[k] in a.live {
      assert Stacked(a);
    }
  }

  /**
   * What `add(from, x, rest)` did to the piles: kept them, put `x` on a new
   * last pile, or lowered one top to `x`; the round goes on below `x`.
   */
  ghost predicate Added(a: Arena, b: Arena, x: int, y: int, l0: int, next: int,
                        compress: bool, xs: seq<Key>, ys: seq<Key>)
    requires Sized(a) && Piles(a)
  {
    Round(b, y, x, l0, compress, xs, ys) && 0 <= next <= |b.list| &&
    (Tops(b) == Tops(a) || Tops(b) == Tops(a) + [x] ||
     exists s :: 0 <= s < |Tops(a)| && x < Tops(a)[s] && Tops(b) == Tops(a)[s := x])
  }

  /** Leaving the piles alone keeps the round. */
  lemma {:induction false} AddedNothing(a: Arena, m: Move, x: int, y: int, xlast: int, l0: int, next: int,
                     compress: bool, xs: seq<Key>, ys: seq<Key>)
    requires Round(a, y, xlast, l0, compress, xs, ys) && Wf(a, compress) && x < xlast && 0 <= next <= |a.list|
    requires m == Keep
    ensures Added(a, Moved(a, m, x, y, compress), x, y, l0, next, compress, xs, ys)
  {
  }

  /** The piles around slot `i` bracket `x`, so `replace(i, x, n)` may run. */
  lemma {:induction false} AddFits(a: Arena, i: int, x: int, y: int, xlast: int, l0: int, compress: bool, xs: seq<Key>, ys: seq<Key>)
    requires Round(a, y, xlast, l0, compress, xs, ys) && x < xlast && 0 <= i < |a.list|
    requires 0 <= x < |xs| && 0 <= y < |ys| && xs[x] == ys[y]
    requires i > 0 ==> Tops(a)[i - 1] < x
    requires x < Tops(a)[i]
    ensures Fits(a, i, x, y, compress, xs, ys)
  {
    if i > 0 {
      PileX(a, i - 1, compress, xs, ys);
    }
    PileX(a, i, compress, xs, ys);
  }

  /** A pile top below `x` may be extended at `y`: it was matched before `y`, and is no pile the round added. */
  lemma {:induction false} AddParent(a: Arena, k: int, x: int, y: int, xlast: int, l0: int, compress: bool, xs: seq<Key>, ys: seq<Key>)
    requires Round(a, y, xlast, l0, compress, xs, ys) && x < xlast
    requires 0 <= k < |a.list| && Tops(a)[k] < x
    ensures a.list[k] in a.live && a.xpath[a.list[k]] != [] && a.ypath[a.list[k]] != []
    ensures Last(a.xpath[a.list[k]]) < x && Last(a.ypath[a.list[k]]) < y
    ensures k + 1 == |a.list| ==> |a.list| == l0
  {
    PileX(a, k, compress, xs, ys);
  }

  lemma {:induction false} AddedReplaced(a: Arena, b: Arena, i: int, x: int, y: int, xlast: int, l0: int, next: int,
                      compress: bool, xs: seq<Key>, ys: seq<Key>)
    requires Round(a, y, xlast, l0, compress, xs, ys) && x < xlast && 0 <= i < |a.list|
    requires x < Tops(a)[i] && 0 <= next <= |a.list|
    requires Replaced(a, b, i, x, y, compress, xs, ys)
    ensures Added(a, b, x, y, l0, next, compress, xs, ys)
  {
    TopsReplaced(a, b, i, x, compress, xs, ys);
    assert forall k :: 0 <= k < |b.list| ==> b.ypath[b.list[k]] != [];
  }

  /** Replacing pile `i` by a chain ending at `x` replaces top `i` by `x`. */
  lemma {:induction false} TopsReplaced(a: Arena, b: Arena, i: int, x: int, compress: bool, xs: seq<Key>, ys: seq<Key>)
    requires Sized(a) && Stacked(a) && Sized(b) && Stacked(b) && |b.list| == |a.list| && 0 <= i < |a.list|
    requires forall k :: 0 <= k < |a.list| && k != i ==> b.list[k] == a.list[k] && b.xpath[a.list[k]] == a.xpath[a.list[k]]
    requires b.xpath[b.list[i]] != [] && Last(b.xpath[b.list[i]]) == x
    ensures Tops(b) == Tops(a)[i := x]
  {
  }

  lemma {:induction false} AddedAppended(a: Arena, b: Arena, v: int, x: int, y: int, xlast: int, l0: int, next: int,
                      compress: bool, xs: seq<Key>, ys: seq<Key>)
    requires Round(a, y, xlast, l0, compress, xs, ys) && x < xlast && |a.list| == l0
    requires Core(b, compress, xs, ys, Nil) && b.list == a.list + [v] && 0 <= next <= |b.list|
    requires v !in a.live && a.live <= b.live && v in b.live && 0 <= v < |b.xpath|
    requires forall u :: u in a.live ==> b.xpath[u] == a.xpath[u] && b.ypath[u] == a.ypath[u]
    requires b.xpath[v] == (if a.list == [] then [] else a.xpath[a.list[|a.list| - 1]]) + [x]
    requires b.ypath[v] != [] && Last(b.ypath[v]) == y
    requires a.list != [] ==> Tops(a)[|a.list| - 1] < x
    ensures Added(a, b, x, y, l0, next, compress, xs, ys)
  {
    forall k | 0 <= k < |a.list|
      ensures b.list[k] == a.list[k] && a.list[k] in b.live && b.xpath[a.list[k]] == a.xpath[a.list[k]]
    {
      assert a.list[k] in a.live;
    }
    assert Last(b.xpath[v]) == x;
    if a.list != [] {
      var top := a.list[|a.list| - 1];
      assert |a.xpath[top]| == |a.list|;
      TopAt(a, |a.list| - 1);
    }
    PilesAppend(a, b, v);
    TopsAppended(a, b, x);
    RoundAppended(a, b, v, x, y, xlast, l0, compress, xs, ys);
  }

  /** The piles of the round, and the new one matched at `y` and ending at `x`, were all matched in time. */
  lemma {:induction false} RoundAppended(a: Arena, b: Arena, v: int, x: int, y: int, xlast: int, l0: int,
                                         compress: bool, xs: seq<Key>, ys: seq<Key>)
    requires Round(a, y, xlast, l0, compress, xs, ys) && x < xlast && |a.list| == l0
    requires Sized(b) && b.list == a.list + [v] && v !in a.live && a.live <= b.live && v in b.live
    requires forall u :: u in a.live ==> b.xpath[u] == a.xpath[u] && b.ypath[u] == a.ypath[u]
    requires b.xpath[v] != [] && Last(b.xpath[v]) == x
    requires b.ypath[v] != [] && Last(b.ypath[v]) == y
    ensures forall k :: 0 <= k < |b.list| ==>
      b.ypath[b.list[k]] != [] &&
      (Last(b.ypath[b.list[k]]) < y || (Last(b.ypath[b.list[k]]) == y && x <= Last(b.xpath[b.list[k]])))
  {
    forall k | 0 <= k < |b.list|
      ensures b.ypath[b.list[k]] != [] &&
        (Last(b.ypath[b.list[k]]) < y || (Last(b.ypath[b.list[k]]) == y && x <= Last(b.xpath[b.list[k]])))
    {
      if k < |a.list| {
        assert b.list[k] == a.list[k] && a.list[k] in a.live;
      }
    }
  }

  /** A new pile whose chain ends at `x` appends `x` to the tops. */
  lemma {:induction false} TopsAppended(a: Arena, b: Arena, x: int)
    requires Sized(a) && Stacked(a) && Sized(b) && Stacked(b) && |b.list| == |a.list| + 1
    requires forall k :: 0 <= k < |a.list| ==> b.list[k] == a.list[k] && b.xpath[a.list[k]] == a.xpath[a.list[k]]
    requires Last(b.xpath[b.list[|a.list|]]) == x
    ensures Tops(b) == Tops(a) + [x]
  {
  }

  /**
   * How many of the first `j` pile tops `result.find` keeps below `x`, given
   * the tops' positions `t`: a linear scan from the back for the last one
   * below `x`.
   */
  function Below(t: seq<int>, j: int, x: int): (h: int)
    requires 0 <= j <= |t|
    ensures 0 <= h <= j
    ensures h > 0 ==> t[h - 1] < x
    ensures forall k :: h <= k < j ==> x <= t[k]
  {
    if j == 0 then 0
    else if t[j - 1] < x then j
    else Below(t, j - 1, x)
  }

  /** Since the tops increase, every top before the `Below` count is below `x`. */
  lemma {:induction false} BelowSorted(t: seq<int>, j: int, x: int)
    requires Increasing(t) && 0 <= j <= |t|
    ensures forall k :: 0 <= k < Below(t, j, x) ==> t[k] < x
  {
    var h := Below(t, j, x);
    forall k | 0 <= k < h ensures t[k] < x {
      if k < h - 1 {
        assert t[k] < t[h - 1];
      }
    }
  }

  /** A split point with the tops below `x` before it and none after it is the `Below` count. */
  lemma {:induction false} BelowIs(t: seq<int>, j: int, x: int, i: int)
    requires 0 <= i <= j <= |t|
    requires i > 0 ==> t[i - 1] < x
    requires forall k :: i <= k < j ==> x <= t[k]
    ensures Below(t, j, x) == i
    decreases j
  {
    if j > i {
      BelowIs(t, j - 1, x, i);
    }
  }

  /** `r.list = append(r.list, r.new(x, n))`. */
  ghost function Append(a: Arena, x: int, n: int, y: int, compress: bool): Arena
    requires Piled(a, compress) && Target(a, n, compress)
  {
    var b := AfterNew(a, x, n, y, compress);
    b.(list := b.list + [Popped(a)])
  }

  /** What `result.add` does to the piles: nothing, a new last pile, or a lowered pile `i`. */
  datatype Move = Keep | Grow | Lower(i: int)

  /** The top a new last pile extends: the last pile's top, or nil. */
  function Top(list: seq<int>): int {
    if list == [] then Nil else list[|list| - 1]
  }

  /**
   * The choice `result.add(from, x, rest)` makes, and the bound it returns
   * for the next, smaller position's search.
   */
  function AddMove(t: seq<int>, from: int, x: int, rest: int): (r: (Move, int))
    requires 0 <= from <= |t|
    ensures r.0.Lower? ==> 0 <= r.0.i < |t|
  {
    var l := |t|;
    var h := Below(t, from, x);
    var next := if h == 0 then from + 1 else h;
    if h != 0 && l - next < rest then
      if next == l then (Grow, next)
      else if x < t[next] then (Lower(next), next)
      else (Keep, next)
    else if l == 0 then (Grow, 1)
    else if l - 1 < rest && x < t[0] then (Lower(0), 0)
    else (Keep, 0)
  }

  /**
   * What `add` relies on when it acts: a new last pile goes above every top,
   * a lowered top stays above the one before it, and the returned bound is
   * a slot of the piles (or the new one).
   */
  lemma {:induction false} AddMoveFits(t: seq<int>, from: int, x: int, rest: int)
    requires 0 <= from <= |t|
    ensures var (m, next) := AddMove(t, from, x, rest);
      0 <= next <= |t| + 1 && (!m.Grow? ==> next <= |t|) &&
      (m.Grow? ==> t == [] || t[|t| - 1] < x) &&
      (m.Lower? ==> (m.i > 0 ==> t[m.i - 1] < x) && x < t[m.i])
  {
  }

  /** The arena after move `m` places position `x` (matched at item `y`). */
  ghost function Moved(a: Arena, m: Move, x: int, y: int, compress: bool): Arena
    requires Piled(a, compress) && (m.Lower? ==> 0 <= m.i < |a.list|)
  {
    match m
    case Keep => a
    case Grow => Append(a, x, Top(a.list), y, compress)
    case Lower(i) => AfterReplace(a, i, x, Before(a.list, i), y, compress)
  }

  /** Appending a new node after the last pile's top. */
  lemma {:induction false} AppendKeeps(a: Arena, m: Move, x: int, y: int, xlast: int, l0: int, next: int,
                    compress: bool, xs: seq<Key>, ys: seq<Key>)
    requires Round(a, y, xlast, l0, compress, xs, ys) && Wf(a, compress) && x < xlast
    requires 0 <= x < |xs| && 0 <= y < |ys| && xs[x] == ys[y]
    requires a.list != [] ==> Tops(a)[|a.list| - 1] < x
    requires 0 <= next <= |a.list| + 1 && m == Grow
    ensures Added(a, Moved(a, m, x, y, compress), x, y, l0, next, compress, xs, ys)
  {
    var n := Top(a.list);
    if n != Nil {
      AddParent(a, |a.list| - 1, x, y, xlast, l0, compress, xs, ys);
      PileX(a, |a.list| - 1, compress, xs, ys);
    }
    NewKeeps(a, x, n, y, compress, xs, ys);
    var c := AfterNew(a, x, n, y, compress);
    CoreWithList(c, c.list + [Popped(a)], compress, xs, ys);
    AddedAppended(a, c.(list := c.list + [Popped(a)]), Popped(a), x, y, xlast, l0, next, compress, xs, ys);
  }

  /** Lowering pile `i` to `x`, when the piles around it bracket `x`. */
  lemma {:induction false} LowerKeeps(a: Arena, m: Move, x: int, y: int, xlast: int, l0: int, next: int,
                   compress: bool, xs: seq<Key>, ys: seq<Key>)
    requires Round(a, y, xlast, l0, compress, xs, ys) && Wf(a, compress) && x < xlast
    requires m.Lower? && 0 <= m.i < |a.list| && 0 <= next <= |a.list|
    requires 0 <= x < |xs| && 0 <= y < |ys| && xs[x] == ys[y]
    requires m.i > 0 ==> Tops(a)[m.i - 1] < x
    requires x < Tops(a)[m.i]
    ensures Added(a, Moved(a, m, x, y, compress), x, y, l0, next, compress, xs, ys)
  {
    var i := m.i;
    AddFits(a, i, x, y, xlast, l0, compress, xs, ys);
    ReplaceKeeps(a, i, x, y, compress, xs, ys);
    AddedReplaced(a, AfterReplace(a, i, x, Before(a.list, i), y, compress), i, x, y, xlast, l0, next, compress, xs, ys);
  }

  /** `add` keeps the round going: the piles change as `Added` says. */
  lemma {:induction false} AddKeeps(a: Arena, m: Move, next: int, from: int, x: int, rest: int, y: int, xlast: int, l0: int,
                 compress: bool, xs: seq<Key>, ys: seq<Key>)
    requires Round(a, y, xlast, l0, compress, xs, ys) && Wf(a, compress) && 0 <= from <= |a.list|
    requires 0 <= x < |xs| && 0 <= y < |ys| && xs[x] == ys[y] && x < xlast
    requires (m, next) == AddMove(TopX(a, compress), from, x, rest)
    ensures Added(a, Moved(a, m, x, y, compress), x, y, l0, next, compress, xs, ys)
  {
    InvWf(a, compress, xs, ys);
    AddMoveFits(TopX(a, compress), from, x, rest);
    AddCase(a, m, x, y, xlast, l0, next, compress, xs, ys);
  }

  /** `AddKeeps` for each move `AddMove` may choose, given where it puts `x` among the tops. */
  lemma {:induction false} AddCase(a: Arena, m: Move, x: int, y: int, xlast: int, l0: int, next: int,
                                   compress: bool, xs: seq<Key>, ys: seq<Key>)
    requires Round(a, y, xlast, l0, compress, xs, ys) && Wf(a, compress) && x < xlast
    requires 0 <= x < |xs| && 0 <= y < |ys| && xs[x] == ys[y]
    requires |Tops(a)| == |a.list|
    requires 0 <= next <= |a.list| + 1 && (!m.Grow? ==> next <= |a.list|)
    requires m.Grow? ==> a.list == [] || Tops(a)[|a.list| - 1] < x
    requires m.Lower? ==> 0 <= m.i < |a.list| && (m.i > 0 ==> Tops(a)[m.i - 1] < x) && x < Tops(a)[m.i]
    ensures Added(a, Moved(a, m, x, y, compress), x, y, l0, next, compress, xs, ys)
  {
    match m
    case Grow => AppendKeeps(a, m, x, y, xlast, l0, next, compress, xs, ys);
    case Lower(_) => LowerKeeps(a, m, x, y, xlast, l0, next, compress, xs, ys);
    case Keep => AddedNothing(a, m, x, y, xlast, l0, next, compress, xs, ys);
  }

  /** What the loop of `YadLCS` keeps of `AddKeeps`: the round goes on with `x` as the last position added. */
  lemma {:induction false} AddRound(a: Arena, m: Move, next: int, from: int, x: int, rest: int, y: int, xlast: int, l0: int,
                 compress: bool, xs: seq<Key>, ys: seq<Key>)
    requires Round(a, y, xlast, l0, compress, xs, ys) && Wf(a, compress) && 0 <= from <= |a.list|
    requires 0 <= x < |xs| && 0 <= y < |ys| && xs[x] == ys[y] && x < xlast
    requires (m, next) == AddMove(TopX(a, compress), from, x, rest)
    ensures Round(Moved(a, m, x, y, compress), y, x, l0, compress, xs, ys)
    ensures 0 <= next <= |Moved(a, m, x, y, compress).list|
  {
    AddKeeps(a, m, next, from, x, rest, y, xlast, l0, compress, xs, ys);
  }


  /** One search of `AddAll`'s loop, at the `i`-th position of the key, keeps the round going. */
  lemma {:induction false} RoundStep(a: Arena, xi: seq<int>, i: int, from: int, rest: int, y: int, xlast: int, l0: int,
                                     compress: bool, xs: seq<Key>, ys: seq<Key>)
    requires Round(a, y, xlast, l0, compress, xs, ys) && 0 <= from <= |a.list|
    requires 0 <= y < |ys| && xi == Positions(xs, ys[y]) && 0 <= i < |xi|
    requires i + 1 < |xi| ==> xlast == xi[i + 1]
    requires i + 1 == |xi| ==> xlast == |xs|
    ensures Wf(a, compress)
    ensures var mv := AddMove(TopX(a, compress), from, xi[i], rest);
      Round(Moved(a, mv.0, xi[i], y, compress), y, xi[i], l0, compress, xs, ys) &&
      0 <= mv.1 <= |Moved(a, mv.0, xi[i], y, compress).list|
  {
    PositionAt(xs, ys[y], i);
    if i + 1 < |xi| {
      PositionsRise(xs, ys[y], i, i + 1);
    }
    InvWf(a, compress, xs, ys);
    var mv := AddMove(TopX(a, compress), from, xi[i], rest);
    AddRound(a, mv.0, mv.1, from, xi[i], rest, y, xlast, l0, compress, xs, ys);
  }

  /** The chain's stored `cx` values, root first: what `result.lcs` collects. */
  ghost function Chain(a: Arena, v: int, compress: bool): (r: seq<int>)
    requires Rooted(a) && (v == Nil || v in a.live)
    ensures v != Nil ==> r != [] && r[|r| - 1] == a.nodes[v].cx
    ensures v == Nil ==> r == []
    decreases if v == Nil then 0 else |a.xpath[v]| + 1
  {
    if v == Nil then [] else Chain(a, a.nodes[v].p, compress) + [a.nodes[v].cx]
  }

  /** The collected chain decompresses to the chain's positions. */
  lemma {:induction false} ChainExpands(a: Arena, v: int, compress: bool, xs: seq<Key>, ys: seq<Key>)
    requires Core(a, compress, xs, ys, Nil) && Wf(a, compress) && v in a.live
    ensures Readable(Chain(a, v, compress))
    ensures Expand(Chain(a, v, compress)) == a.xpath[v]
    decreases |a.xpath[v]|
  {
    assert Linked(a, v, compress);
    var n := a.nodes[v];
    if n.p == Nil {
      assert Chain(a, v, compress) == [] + [n.cx];
      ExpandSnoc([], n.cx);
    } else {
      var front := Chain(a, n.p, compress);
      assert Chain(a, v, compress) == front + [n.cx];
      ChainExpands(a, n.p, compress, xs, ys);
      ExpandSnoc(front, n.cx);
    }
  }

  /**
   * `result.find(from, x)`: a binary search among the first `from` pile
   * tops for the last one whose `node.x` is below `x`. It returns one past
   * that pile (or `from + 1` when there is none) and the top itself (or nil).
   */
  method Find(nodes: seq<Node>, list: seq<int>, compress: bool, from: int, x: int) returns (next: int, found: int)
    requires Probed(nodes, list, compress) && Ascending(Xs(nodes, list, compress)) && 0 <= from <= |list|
    ensures var h := Below(Xs(nodes, list, compress), from, x);
      next == (if h == 0 then from + 1 else h) && found == (if h == 0 then Nil else list[h - 1])
  {
    ghost var t := Xs(nodes, list, compress);
    found := Nil;
    var f := from;
    var i, j := 0, from;
    while i < j
      invariant 0 <= i <= j <= from
      invariant forall k :: 0 <= k < i ==> t[k] < x
      invariant forall k :: j <= k < from ==> x <= t[k]
      invariant found == Nil ==> i == 0 && f == from
      invariant found != Nil ==> f == i - 1 && found == list[f]
    {
      var h := (i + j) / 2;
      var n := list[h];
      if XOf(nodes, n, compress) < x {
        forall k | i <= k < h ensures t[k] < x {
          AscendingBelow(t, k, h);
        }
        f, found := h, n;
        i := h + 1;
      } else {
        forall k | h < k < j ensures x <= t[k] {
          AscendingBelow(t, h, k);
        }
        j := h;
      }
    }
    BelowIs(t, from, x, i);
    next := f + 1;
  }

  // --------------------------------------------------------------- the result

  /** `result`: the pile tops, the free list and the node arena they point into. */
  class Result {
    var nodes: seq<Node>
    var list: seq<int>
    var recycle: seq<int>
    const compress: bool
    ghost const xs: seq<Key>
    ghost const ys: seq<Key>
    ghost var live: set<int>
    ghost var kids: seq<set<int>>
    ghost var xpath: seq<seq<int>>
    ghost var ypath: seq<seq<int>>

    ghost function State(): Arena
      reads this
    {
      Arena(nodes, list, recycle, live, kids, xpath, ypath)
    }

    ghost predicate Valid()
      reads this
    {
      Inv(State(), compress, xs, ys)
    }

    constructor (compress: bool, ghost xs: seq<Key>, ghost ys: seq<Key>)
      ensures Valid() && list == [] && recycle == [] && nodes == []
      ensures this.compress == compress && this.xs == xs && this.ys == ys
    {
      nodes, list, recycle := [], [], [];
      this.compress, this.xs, this.ys := compress, xs, ys;
      live, kids, xpath, ypath := {}, [], [], [];
    }

    /** `node.link`: makes `v` extend the chain of `m` with position `x` (matched at `y` in `ys`). */
    method Link(v: int, x: int, m: int, ghost y: int)
      modifies this
      requires Shape(State()) && 0 <= v < |nodes| && Target(State(), m, compress)
      ensures State() == AfterLink(old(State()), v, x, m, y, compress)
    {
      ghost var a := State();
      var cx, p := x, m;
      if m != Nil {
        if compress {
          if nodes[m].cx < 0 {
            if x == nodes[nodes[m].p].cx - nodes[m].cx + 1 {
              cx := nodes[m].cx - 1;
              p := nodes[m].p;
            }
          } else if x == nodes[m].cx + 1 {
            cx := -1;
          }
        }
        assert (cx, p) == Attach(a.nodes, x, m, compress);
        nodes := nodes[p := nodes[p].(c := nodes[p].c + 1)];
        kids := kids[p := kids[p] + {v}];
        assert State() == Bump(a, p, v);
      }
      ghost var b := State();
      ghost var xp := (if m == Nil then [] else xpath[m]) + [x];
      ghost var yp := (if m == Nil then [] else ypath[m]) + [y];
      nodes := nodes[v := nodes[v].(cx := cx, p := p)];
      live := live + {v};
      xpath := xpath[v := xp];
      ypath := ypath[v := yp];
      assert State() == Settle(b, v, cx, p, xp, yp);
    }

    /** `result.new`: reuses the last free node, or allocates one, and links it after `n`. */
    method New(x: int, n: int, ghost y: int) returns (v: int)
      modifies this
      requires Shape(State()) && Target(State(), n, compress)
      requires recycle != [] ==> 0 <= recycle[|recycle| - 1] < |nodes|
      ensures v == Popped(old(State()))
      ensures State() == AfterNew(old(State()), x, n, y, compress)
    {
      ghost var a := State();
      var l := |recycle|;
      if l > 0 {
        v := recycle[l - 1];
        recycle := recycle[..l - 1];
      } else {
        v := |nodes|;
        nodes := nodes + [Node(0, Nil, 0)];
        kids, xpath, ypath := kids + [{}], xpath + [[]], ypath + [[]];
      }
      assert State() == Pop(a);
      Link(v, x, n, y);
    }

    /**
     * The corrected walk at the head of `result.replace` (see LcsRecycle):
     * the relinked node `m` drops the link it held; every ancestor left
     * without links is pushed onto the free list, and the walk stops at `n`,
     * at an ancestor still linked, or at an ancestor that is still a pile
     * top. The last stop is the correction: lib/lcs/lcs.go:127-134 has no
     * such check and can recycle a pile top.
     */
    method Release(m: int, n: int)
      modifies this
      requires Wf(State(), compress) && m in live
      ensures State() == Unwind(old(State()), m, old(nodes[m].p), n)
    {
      ghost var a := State();
      var p := nodes[m].p;
      ghost var child := m;
      while p != Nil && p != n
        invariant p == Nil || p in a.live
        invariant |nodes| == |a.nodes| && |kids| == |a.kids| && xpath == a.xpath && ypath == a.ypath && list == a.list
        invariant forall u :: 0 <= u < |nodes| ==> nodes[u].p == a.nodes[u].p
        invariant Unwind(State(), child, p, n) == Unwind(a, m, a.nodes[m].p, n)
        decreases if p == Nil then 0 else |a.xpath[p]| + 1
      {
        ghost var b := State();
        nodes := nodes[p := nodes[p].(c := nodes[p].c - 1)];
        kids := kids[p := kids[p] - {child}];
        assert State() == Decrement(b, p, child);
        if nodes[p].c == 0 && p !in list {
          ghost var d := State();
          recycle := recycle + [p];
          live := live - {p};
          assert State() == Free(d, p);
          child := p;
          p := nodes[p].p;
        } else {
          break;
        }
      }
    }

    /**
     * `result.replace`: pile `i`'s top becomes a chain ending at `x` after `n`.
     * An old top nothing links to is released and relinked in place;
     * otherwise a new node takes its slot.
     */
    method Replace(i: int, x: int, n: int, ghost y: int)
      modifies this
      requires Wf(State(), compress) && 0 <= i < |list| && Target(State(), n, compress)
      ensures State() == AfterReplace(old(State()), i, x, n, y, compress)
      ensures n == Before(old(list), i) ==> State() == Moved(old(State()), Lower(i), x, y, compress)
    {
      var m := list[i];
      if nodes[m].c == 0 {
        Release(m, n);
        Link(m, x, n, y);
        return;
      }
      var v := New(x, n, y);
      list := list[i := v];
    }

    /** `r.list = append(r.list, r.new(x, n))`: a new pile after the last. */
    method Push(x: int, n: int, ghost y: int)
      modifies this
      requires Wf(State(), compress) && n == Top(list) && Target(State(), n, compress)
      ensures State() == Moved(old(State()), Grow, x, y, compress)
    {
      var v := New(x, n, y);
      list := list + [v];
    }

    /**
     * `result.add`: position `x` of `ys`'s item `y` (positions of one item
     * come largest first) goes on the pile after the last top below it among
     * the first `from`, provided enough items of `ys` remain (`rest`) for that
     * pile to matter: on a new pile at the end, or over a larger top.
     * Without such a top it may lower the first pile. Returns the bound for
     * the next, smaller position's search.
     */
    method Add(from: int, x: int, rest: int, ghost y: int) returns (next: int)
      modifies this
      requires Wf(State(), compress) && 0 <= from <= |list|
      ensures var mv := AddMove(TopX(old(State()), compress), from, x, rest);
        next == mv.1 && State() == Moved(old(State()), mv.0, x, y, compress)
    {
      ghost var t := Xs(nodes, list, compress);
      assert t == TopX(State(), compress);
      ghost var h := Below(t, from, x);
      ghost var mv := AddMove(t, from, x, rest);
      var l := |list|;
      var n;
      next, n := Find(nodes, list, compress, from, x);
      assert (n != Nil) == (h != 0);
      TopTarget(State(), compress, h - 1);
      if n != Nil && l - next < rest {
        assert mv == (if next == l then Grow else if x < t[next] then Lower(next) else Keep, next);
        AddAbove(next, x, n, y);
        return;
      }
      if l == 0 {
        assert mv == (Grow, 1);
        Push(x, n, y);
        return 1;
      }
      if l - 1 < rest && x < XOf(nodes, list[0], compress) {
        assert mv == (Lower(0), 0);
        Replace(0, x, Nil, y);
      } else {
        assert mv == (Keep, 0);
      }
      return 0;
    }

    /** The first case of `result.add`: `x` goes on the pile after `n`, the top of pile `next - 1`. */
    method AddAbove(next: int, x: int, n: int, ghost y: int)
      modifies this
      requires Wf(State(), compress) && 0 < next <= |list| && n == list[next - 1]
      ensures var t := TopX(old(State()), compress);
        State() == Moved(old(State()), if next == |t| then Grow else if x < t[next] then Lower(next) else Keep, x, y, compress)
    {
      TopTarget(State(), compress, next - 1);
      ghost var t := TopX(State(), compress);
      if next == |list| {
        Push(x, n, y);
      } else if x < XOf(nodes, list[next], compress) {
        assert t[next] == XOf(nodes, list[next], compress);
        Replace(next, x, n, y);
      } else {
        assert t[next] == XOf(nodes, list[next], compress);
      }
    }

    /**
     * The inner loop of `YadLCS` for item `y` of `ys`: adds the positions
     * `xi` of its key, largest first, each search starting where the last
     * one ended. The round adds at most one pile.
     */
    method AddAll(xi: seq<int>, rest: int, ghost y: int)
      modifies this
      requires Valid() && 0 <= y < |ys| && xi == Positions(xs, ys[y]) && Settled(State(), y)
      ensures Valid() && Settled(State(), y + 1)
      ensures |old(list)| <= |list| <= |old(list)| + 1
    {
      var from := |list|;
      ghost var l0 := |list|;
      ghost var xlast := |xs|;
      RoundStart(State(), y, xlast, compress, xs, ys);
      var i := |xi| - 1;
      while i >= 0
        invariant -1 <= i < |xi|
        invariant Round(State(), y, xlast, l0, compress, xs, ys)
        invariant 0 <= from <= |list|
        invariant i + 1 < |xi| ==> xlast == xi[i + 1]
        invariant i + 1 == |xi| ==> xlast == |xs|
        decreases i + 1
      {
        from := AddAt(xi, i, from, rest, y, xlast, l0);
        xlast := xi[i];
        i := i - 1;
      }
      RoundEnds(State(), y, xlast, l0, compress, xs, ys);
    }

    /** One search of `AddAll`'s loop: adds the `i`-th position of the key and keeps the round going. */
    method AddAt(xi: seq<int>, i: int, from: int, rest: int, ghost y: int, ghost xlast: int, ghost l0: int)
      returns (next: int)
      modifies this
      requires Round(State(), y, xlast, l0, compress, xs, ys) && 0 <= from <= |list|
      requires 0 <= y < |ys| && xi == Positions(xs, ys[y]) && 0 <= i < |xi|
      requires i + 1 < |xi| ==> xlast == xi[i + 1]
      requires i + 1 == |xi| ==> xlast == |xs|
      ensures Round(State(), y, xi[i], l0, compress, xs, ys) && 0 <= next <= |list|
    {
      RoundStep(State(), xi, i, from, rest, y, xlast, l0, compress, xs, ys);
      next := Add(from, xi[i], rest, y);
    }

    /**
     * `result.lcs`: the chain of the last pile, or nothing when there are no
     * piles. What it collects decompresses to positions of `xs` that are
     * matched, in order, by positions of `ys`.
     */
    method Lcs() returns (idx: seq<int>)
      requires Valid()
      ensures idx == if list == [] then [] else Chain(State(), list[|list| - 1], compress)
      ensures Readable(idx) && CommonPositions(Expand(idx), xs, ys)
    {
      InvWf(State(), compress, xs, ys);
      var l := |list|;
      if l == 0 {
        idx := [];
      } else {
        idx := Collect(nodes, list[l - 1], State(), compress);
      }
      LastPileCommon(State(), idx, compress, xs, ys);
    }
  }

  /** The first loop of `result.lcs`: the length of the chain of `last`. */
  method ChainLength(nodes: seq<Node>, last: int, ghost a: Arena, compress: bool) returns (c: int)
    requires Rooted(a) && a.nodes == nodes && last in a.live
    ensures c == |Chain(a, last, compress)|
  {
    c := 0;
    var p := last;
    while p != Nil
      invariant p == Nil || p in a.live
      invariant c + |Chain(a, p, compress)| == |Chain(a, last, compress)|
      decreases |Chain(a, p, compress)|
    {
      ChainStep(a, p, compress);
      c := c + 1;
      p := nodes[p].p;
    }
  }

  /** The body of `result.lcs`: counts the chain of `last`, then fills in its `cx` values from the back. */
  method Collect(nodes: seq<Node>, last: int, ghost a: Arena, compress: bool) returns (idx: seq<int>)
    requires Rooted(a) && a.nodes == nodes && last in a.live
    ensures idx == Chain(a, last, compress)
  {
    var c := ChainLength(nodes, last, a, compress);
    idx := seq(c, _ => 0);
    var i := c - 1;
    var p := last;
    ghost var tail: seq<int> := [];
    while p != Nil
      invariant p == Nil || p in a.live
      invariant Chain(a, p, compress) + tail == Chain(a, last, compress)
      invariant -1 <= i < c && i + 1 == |Chain(a, p, compress)| && |idx| == c && idx[i + 1..] == tail
      decreases i + 1
    {
      ChainStep(a, p, compress);
      UpdateSuffix(idx, i, nodes[p].cx);
      assert Chain(a, p, compress) + tail == Chain(a, nodes[p].p, compress) + ([nodes[p].cx] + tail);
      idx := idx[i := nodes[p].cx];
      tail := [nodes[p].cx] + tail;
      i := i - 1;
      p := nodes[p].p;
    }
  }

  /** Writing entry `i` of `s` puts `v` in front of the untouched entries after it. */
  lemma {:induction false} UpdateSuffix(s: seq<int>, i: int, v: int)
    requires 0 <= i < |s|
    ensures s[i := v][i..] == [v] + s[i + 1..]
  {
  }

  /** One step up a chain: the parent's chain and the node's own `cx`. */
  lemma {:induction false} ChainStep(a: Arena, v: int, compress: bool)
    requires Rooted(a) && v in a.live
    ensures 0 <= v < |a.nodes| && (a.nodes[v].p == Nil || a.nodes[v].p in a.live)
    ensures Chain(a, v, compress) == Chain(a, a.nodes[v].p, compress) + [a.nodes[v].cx]
  {
  }

  /**
   * `Sequence.YadLCS` with the corrected walk of `replace` (see
   * LcsRecycle): for each item `y` of `ys` (until the context is
   * cancelled, which happens before round `cancelAt`), adds the positions
   * of its key in `xs`, largest first, to the piles; `rest` counts the
   * items of `ys` not yet visited. The chain of the last pile is the result.
   */
  method YadLCS(xs: seq<Key>, ys: seq<Key>, compress: bool, cancelAt: nat) returns (idx: seq<int>)
    ensures Readable(idx)
    ensures CommonPositions(Expand(idx), xs, ys)
    ensures |Expand(idx)| <= LcsLength.LcsLen(xs, ys, |xs|, |ys|)
    ensures cancelAt == 0 ==> idx == []
  {
    var o := Occurrence(xs, ys);
    var r := new Result(compress, xs, ys);
    var rest := |ys|;
    var y := 0;
    while y < |o|
      invariant 0 <= y <= |o| && rest == |ys| - y
      invariant r.Valid() && Settled(r.State(), y)
      invariant cancelAt == 0 ==> r.list == []
      decreases |o| - y
    {
      if y >= cancelAt {
        break;
      }
      r.AddAll(o[y], rest, y);
      rest := rest - 1;
      y := y + 1;
    }
    idx := r.Lcs();
    CommonNoLonger(Expand(idx), xs, ys);
  }

  /** A common subsequence is no longer than a longest one. */
  lemma {:induction false} CommonNoLonger(p: seq<int>, xs: seq<Key>, ys: seq<Key>)
    requires CommonPositions(p, xs, ys)
    ensures |p| <= LcsLength.LcsLen(xs, ys, |xs|, |ys|)
  {
    LcsLength.CommonBound(p, xs, ys);
  }

  /** What `result.lcs` collects from the last pile decompresses to a common subsequence. */
  lemma {:induction false} LastPileCommon(a: Arena, idx: seq<int>, compress: bool, xs: seq<Key>, ys: seq<Key>)
    requires Inv(a, compress, xs, ys) && Wf(a, compress)
    requires idx == if a.list == [] then [] else Chain(a, a.list[|a.list| - 1], compress)
    ensures Readable(idx) && CommonPositions(Expand(idx), xs, ys)
  {
    if a.list == [] {
      assert Witnessed([], [], xs, ys);
      WitnessedCommon([], [], xs, ys);
    } else {
      var last := a.list[|a.list| - 1];
      assert last in a.live;
      assert Witnessed(a.xpath[last], a.ypath[last], xs, ys);
      ChainExpands(a, last, compress, xs, ys);
      WitnessedCommon(a.xpath[last], a.ypath[last], xs, ys);
    }
  }
}
