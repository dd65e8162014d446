/**
 * The free list of `lib/lcs/lcs.go` as written. `result.replace` walks up
 * from the pile top it overwrites and pushes every ancestor whose link
 * count `node.c` drops to 0 onto `recycle`. The count only covers links
 * from other nodes, not the slots of `result.list`, so an ancestor that is
 * itself the top of an earlier pile can be freed while that pile still
 * holds it, and the next `result.new` hands the same node out again.
 *
 * The rest of the model (`Lcs.Unwind`, `Lcs.Result.Release`) stops the walk
 * at a node that is still a pile top; this module keeps the walk as
 * written and exhibits a state, reached with compression on, where the two
 * differ.
 */
module LcsRecycle {
  import opened LcsIndices
  import opened LcsSequence
  import opened Lcs

  /** The walk of `replace` as written: an ancestor whose count reaches 0 is freed even when it is a pile top. */
  ghost function UnwindAsWritten(a: Arena, child: int, p: int, n: int): (r: Arena)
    requires Shape(a) && Ref(a.nodes, p)
    ensures Shape(r) && |r.nodes| == |a.nodes| && r.list == a.list && a.recycle <= r.recycle
    decreases if p == Nil then 0 else |a.xpath[p]| + 1
  {
    if p == Nil || p == n then a
    else
      var d := Decrement(a, p, child);
      var q := a.nodes[p].p;
      if d.nodes[p].c != 0 then d
      else if Ref(a.nodes, q) && (q == Nil || |a.xpath[q]| < |a.xpath[p]|) then UnwindAsWritten(Free(d, p), p, q, n)
      else Free(d, p)
  }

  /** `xs` and `ys` of the example, one key per character. */
  function ExampleXs(): seq<Key> {
    ["a", "a", "a", "b", "a"]
  }

  function ExampleYs(): seq<Key> {
    ["a", "a", "b", "a", "b", "a"]
  }

  /**
   * The piles of `YadLCS(ctx, "aaaba", "aababa")` just before item 4 of `ys`
   * calls `replace(3, 3, node 4)`: node 1 tops pile 1, node 3 (over node 2,
   * over node 1) tops pile 3 and nothing links to it.
   */
  ghost function Example(): Arena {
    Arena(
      [Node(0, Nil, 4), Node(-1, 0, 1), Node(3, 1, 1), Node(-1, 2, 0), Node(-2, 0, 0)],
      [0, 1, 4, 3], [],
      {0, 1, 2, 3, 4},
      [{1, 4}, {2}, {3}, {}, {}],
      [[0], [0, 1], [0, 1, 3], [0, 1, 3, 4], [0, 1, 2]],
      [[0], [0, 1], [0, 1, 2], [0, 1, 2, 3], [0, 1, 3]])
  }

  /** The example state satisfies the invariant the solver keeps. */
  lemma {:induction false} ExampleValid()
    ensures Inv(Example(), true, ExampleXs(), ExampleYs())
  {
    ExampleChains();
    ExampleLinks();
    ExamplePiles();
  }

  /** Every node of the example extends its parent's chain and is matched in `ys`. */
  lemma {:induction false} ExampleChains()
    ensures Sized(Example()) && Chains(Example(), true, ExampleXs(), ExampleYs())
  {
    var a := Example();
    forall v | v in a.live
      ensures Linked(a, v, true) && Witnessed(a.xpath[v], a.ypath[v], ExampleXs(), ExampleYs())
    {
      ExampleNode(v);
    }
  }

  lemma {:induction false} ExampleNode(v: int)
    requires v in Example().live
    ensures Sized(Example()) && 0 <= v < |Example().nodes|
    ensures Linked(Example(), v, true) && Witnessed(Example().xpath[v], Example().ypath[v], ExampleXs(), ExampleYs())
  {
    var a := Example();
    if v == 1 {
      assert a.xpath[1] == a.xpath[0] + Run(0, 1);
    } else if v == 3 {
      assert a.xpath[3] == a.xpath[2] + Run(3, 1);
    } else if v == 4 {
      assert a.xpath[4] == a.xpath[0] + Run(0, 2);
    }
  }

  /** Parents are live and know their children; counts cover the children; the free list is empty. */
  lemma {:induction false} ExampleLinks()
    ensures Sized(Example()) && Closed(Example(), Nil) && Counted(Example())
  {
  }

  /** Pile `k` holds `k + 1` positions and the tops 0, 1, 2, 4 increase. */
  lemma {:induction false} ExamplePiles()
    ensures Sized(Example()) && Piles(Example())
  {
    var a := Example();
    assert Stacked(a);
    assert Tops(a) == [0, 1, 2, 4];
  }

  /**
   * From the example state, the walk as written frees node 1 although it
   * still tops pile 1, so the next `result.new` reuses a node the piles
   * hold; the walk of the model stops there and frees node 2 only.
   */
  lemma {:induction false} RecycledPileTop()
    ensures var b := UnwindAsWritten(Example(), 3, 2, 4);
      b.recycle == [2, 1] && b.list[1] == 1 && 1 !in b.live
    ensures var b := Unwind(Example(), 3, 2, 4);
      b.recycle == [2] && 1 in b.live
  {
    var a := Example();
    var d := Decrement(a, 2, 3);
    assert UnwindAsWritten(a, 3, 2, 4) == UnwindAsWritten(Free(d, 2), 2, 1, 4);
    var e := Decrement(Free(d, 2), 1, 2);
    assert UnwindAsWritten(Free(d, 2), 2, 1, 4) == UnwindAsWritten(Free(e, 1), 1, 0, 4);
    assert Unwind(a, 3, 2, 4) == Unwind(Free(d, 2), 2, 1, 4);
  }
}
