/**
 * The length of a longest common subsequence, by the textbook recursion
 * over prefixes, independent of the pile algorithm of lib/lcs/lcs.go:
 * no common subsequence is longer, and one has exactly that length. It
 * bounds what `Lcs.YadLCS` returns.
 */
module LcsLength {
  import opened LcsSequence

  function Max(a: nat, b: nat): nat {
    if a < b then b else a
  }

  /** The length of a longest common subsequence of `xs[..i]` and `ys[..j]`. */
  function LcsLen<K(==)>(xs: seq<K>, ys: seq<K>, i: nat, j: nat): (n: nat)
    requires i <= |xs| && j <= |ys|
    ensures n <= i && n <= j
    decreases i + j
  {
    if i == 0 || j == 0 then 0
    else
      var skip := Max(LcsLen(xs, ys, i - 1, j), LcsLen(xs, ys, i, j - 1));
      if xs[i - 1] == ys[j - 1] then Max(skip, LcsLen(xs, ys, i - 1, j - 1) + 1) else skip
  }

  /**
   * `p` and `yp` pair strictly increasing positions of `xs[..i]` and
   * `ys[..j]` that hold equal items.
   */
  predicate Embeds<K(==)>(p: seq<int>, yp: seq<int>, xs: seq<K>, ys: seq<K>, i: nat, j: nat) {
    |p| == |yp| && Increasing(p) && Increasing(yp) &&
    forall k :: 0 <= k < |p| ==> 0 <= p[k] < i && 0 <= yp[k] < j && p[k] < |xs| && yp[k] < |ys| && xs[p[k]] == ys[yp[k]]
  }

  /** No common subsequence of the prefixes is longer than `LcsLen`. */
  lemma {:induction false} EmbedBound<K>(p: seq<int>, yp: seq<int>, xs: seq<K>, ys: seq<K>, i: nat, j: nat)
    requires i <= |xs| && j <= |ys| && Embeds(p, yp, xs, ys, i, j)
    ensures |p| <= LcsLen(xs, ys, i, j)
    decreases i + j
  {
    if |p| > 0 {
      var last := |p| - 1;
      assert i > 0 && j > 0 by {
        assert 0 <= p[last] < i && 0 <= yp[last] < j;
      }
      if p[last] < i - 1 {
        assert forall k :: 0 <= k < |p| ==> p[k] <= p[last] by {
          forall k | 0 <= k < |p| ensures p[k] <= p[last] {
            if k < last {
              assert p[k] < p[last];
            }
          }
        }
        EmbedBound(p, yp, xs, ys, i - 1, j);
      } else if yp[last] < j - 1 {
        assert forall k :: 0 <= k < |p| ==> yp[k] <= yp[last] by {
          forall k | 0 <= k < |p| ensures yp[k] <= yp[last] {
            if k < last {
              assert yp[k] < yp[last];
            }
          }
        }
        EmbedBound(p, yp, xs, ys, i, j - 1);
      } else {
        var p', yp' := p[..last], yp[..last];
        assert Embeds(p', yp', xs, ys, i - 1, j - 1) by {
          forall k | 0 <= k < last ensures p'[k] < i - 1 && yp'[k] < j - 1 {
            assert p[k] < p[last] && yp[k] < yp[last];
          }
        }
        EmbedBound(p', yp', xs, ys, i - 1, j - 1);
      }
    }
  }

  /** Some common subsequence of the prefixes is exactly `LcsLen` long. */
  lemma {:induction false} EmbedAttained<K>(xs: seq<K>, ys: seq<K>, i: nat, j: nat) returns (p: seq<int>, yp: seq<int>)
    requires i <= |xs| && j <= |ys|
    ensures Embeds(p, yp, xs, ys, i, j) && |p| == LcsLen(xs, ys, i, j)
    decreases i + j
  {
    if i == 0 || j == 0 {
      p, yp := [], [];
    } else if xs[i - 1] == ys[j - 1] && LcsLen(xs, ys, i, j) == LcsLen(xs, ys, i - 1, j - 1) + 1 {
      p, yp := EmbedAttained(xs, ys, i - 1, j - 1);
      p, yp := p + [i - 1], yp + [j - 1];
    } else if LcsLen(xs, ys, i, j) == LcsLen(xs, ys, i - 1, j) {
      p, yp := EmbedAttained(xs, ys, i - 1, j);
    } else {
      p, yp := EmbedAttained(xs, ys, i, j - 1);
    }
  }

  /** One more item of `xs` adds at most one to `LcsLen`, and never takes any away. */
  lemma {:induction false} LcsLenGrowX<K>(xs: seq<K>, ys: seq<K>, i: nat, j: nat)
    requires i < |xs| && j <= |ys|
    ensures LcsLen(xs, ys, i, j) <= LcsLen(xs, ys, i + 1, j) <= LcsLen(xs, ys, i, j) + 1
  {
    var p, yp := EmbedAttained(xs, ys, i, j);
    EmbedBound(p, yp, xs, ys, i + 1, j);
    p, yp := EmbedAttained(xs, ys, i + 1, j);
    if p != [] {
      var last := |p| - 1;
      if p[last] == i {
        assert Embeds(p[..last], yp[..last], xs, ys, i, j) by {
          forall k | 0 <= k < last ensures p[k] < i {
            assert p[k] < p[last];
          }
        }
        EmbedBound(p[..last], yp[..last], xs, ys, i, j);
      } else {
        assert Embeds(p, yp, xs, ys, i, j) by {
          forall k | 0 <= k < last ensures p[k] < i {
            assert p[k] < p[last];
          }
        }
        EmbedBound(p, yp, xs, ys, i, j);
      }
    }
  }

  /** One more item of `ys` adds at most one to `LcsLen`, and never takes any away. */
  lemma {:induction false} LcsLenGrowY<K>(xs: seq<K>, ys: seq<K>, i: nat, j: nat)
    requires i <= |xs| && j < |ys|
    ensures LcsLen(xs, ys, i, j) <= LcsLen(xs, ys, i, j + 1) <= LcsLen(xs, ys, i, j) + 1
  {
    var p, yp := EmbedAttained(xs, ys, i, j);
    EmbedBound(p, yp, xs, ys, i, j + 1);
    p, yp := EmbedAttained(xs, ys, i, j + 1);
    if p != [] {
      var last := |p| - 1;
      if yp[last] == j {
        assert Embeds(p[..last], yp[..last], xs, ys, i, j) by {
          forall k | 0 <= k < last ensures yp[k] < j {
            assert yp[k] < yp[last];
          }
        }
        EmbedBound(p[..last], yp[..last], xs, ys, i, j);
      } else {
        assert Embeds(p, yp, xs, ys, i, j) by {
          forall k | 0 <= k < last ensures yp[k] < j {
            assert yp[k] < yp[last];
          }
        }
        EmbedBound(p, yp, xs, ys, i, j);
      }
    }
  }

  /** An empty prefix has no common subsequence. */
  lemma LcsLenEdges<K>(xs: seq<K>, ys: seq<K>, i: nat, j: nat)
    requires i <= |xs| && j <= |ys|
    ensures LcsLen(xs, ys, 0, j) == 0 && LcsLen(xs, ys, i, 0) == 0
  {
  }

  /**
   * `LcsLen` one row and one column on, in the form of the textbook table:
   * one more than the diagonal at equal items, otherwise the larger of the
   * two neighbours.
   */
  lemma {:induction false} LcsLenStep<K>(xs: seq<K>, ys: seq<K>, i: nat, j: nat)
    requires i < |xs| && j < |ys|
    ensures xs[i] == ys[j] ==> LcsLen(xs, ys, i + 1, j + 1) == LcsLen(xs, ys, i, j) + 1
    ensures xs[i] != ys[j] ==>
      LcsLen(xs, ys, i + 1, j + 1) == Max(LcsLen(xs, ys, i, j + 1), LcsLen(xs, ys, i + 1, j))
  {
    if xs[i] == ys[j] {
      LcsLenMatch(xs, ys, i, j);
    }
  }

  /**
   * At a pair of equal items the longest common subsequence takes both:
   * `LcsLen` there is one more than without either.
   */
  lemma {:induction false} LcsLenMatch<K>(xs: seq<K>, ys: seq<K>, i: nat, j: nat)
    requires i < |xs| && j < |ys| && xs[i] == ys[j]
    ensures LcsLen(xs, ys, i + 1, j + 1) == LcsLen(xs, ys, i, j) + 1
  {
    LcsLenGrowX(xs, ys, i, j);
    LcsLenGrowY(xs, ys, i, j);
    LcsLenGrowX(xs, ys, i, j + 1);
    LcsLenGrowY(xs, ys, i + 1, j);
  }

  /**
   * Any common subsequence of `xs` and `ys`, given by its positions in
   * `xs`, is at most `LcsLen` long.
   */
  lemma {:induction false} CommonBound(p: seq<int>, xs: seq<Key>, ys: seq<Key>)
    requires Increasing(p) && (forall k :: 0 <= k < |p| ==> 0 <= p[k] < |xs|)
    requires exists yp: seq<int> :: (|yp| == |p| && Increasing(yp) &&
      forall k :: 0 <= k < |p| ==> 0 <= yp[k] < |ys| && ys[yp[k]] == xs[p[k]])
    ensures |p| <= LcsLen(xs, ys, |xs|, |ys|)
  {
    var yp :| |yp| == |p| && Increasing(yp) &&
      forall k :: 0 <= k < |p| ==> 0 <= yp[k] < |ys| && ys[yp[k]] == xs[p[k]];
    EmbedBound(p, yp, xs, ys, |xs|, |ys|);
  }
}
