/**
 * Sequences of comparable items for the LIS-based LCS (`lib/lcs/sequence.go`).
 *
 * A `Comparable` is only ever looked at through its `String()` key, so an
 * item is represented here by that key; two items are equal exactly when
 * their keys are.
 */
module LcsSequence {
  import opened Strings

  /** The `String()` key of a `Comparable`. */
  type Key = string

  predicate Increasing(s: seq<int>) {
    forall i, j :: 0 <= i < j < |s| ==> s[i] < s[j]
  }

  /** `idx` picks the items of `xs`, in order, out of `ys`. */
  predicate Embeds(idx: seq<int>, xs: seq<Key>, ys: seq<Key>) {
    |idx| == |xs| && Increasing(idx) &&
    forall k :: 0 <= k < |idx| ==> 0 <= idx[k] < |ys| && ys[idx[k]] == xs[k]
  }

  /** `xs` appears in `ys` in order, possibly with gaps. */
  ghost predicate Subsequence(xs: seq<Key>, ys: seq<Key>) {
    exists idx :: Embeds(idx, xs, ys)
  }

  // ---------------------------------------------------------------------- Sub

  /** `Sequence.Sub`: the items of `xs` at the positions in `list`. */
  method Sub(xs: seq<Key>, list: seq<int>) returns (s: seq<Key>)
    requires forall i :: 0 <= i < |list| ==> 0 <= list[i] < |xs|
    ensures |s| == |list|
    ensures forall i :: 0 <= i < |list| ==> s[i] == xs[list[i]]
    ensures Increasing(list) ==> Embeds(list, s, xs)
  {
    var a := new Key[|list|];
    for i := 0 to |list|
      invariant forall k :: 0 <= k < i ==> a[k] == xs[list[k]]
    {
      a[i] := xs[list[i]];
    }
    s := a[..];
  }

  // ---------------------------------------------------------- IsSubsequenceOf

  /**
   * `Sequence.IsSubsequenceOf`: matches each item of `xs` greedily against
   * the earliest remaining item of `ys`.
   */
  method IsSubsequenceOf(xs: seq<Key>, ys: seq<Key>) returns (b: bool)
    ensures b <==> Subsequence(xs, ys)
  {
    var j := 0;
    ghost var idx: seq<int> := [];
    for i := 0 to |xs|
      invariant j <= |ys|
      invariant Embeds(idx, xs[..i], ys)
      invariant forall k :: 0 <= k < i ==> idx[k] < j
      invariant forall w :: Embeds(w, xs, ys) && i < |xs| ==> j <= w[i]
    {
      while true
        invariant j <= |ys|
        invariant forall w :: Embeds(w, xs, ys) ==> j <= w[i]
        decreases |ys| - j
      {
        if j >= |ys| {
          assert !Subsequence(xs, ys);
          return false;
        }
        if xs[i] == ys[j] {
          forall w | Embeds(w, xs, ys) && i + 1 < |xs|
            ensures j + 1 <= w[i + 1]
          {
            assert w[i] < w[i + 1];
          }
          assert xs[..i + 1] == xs[..i] + [xs[i]];
          idx := idx + [j];
          j := j + 1;
          break;
        }
        forall w | Embeds(w, xs, ys)
          ensures j + 1 <= w[i]
        {
          assert ys[w[i]] == xs[i];
        }
        j := j + 1;
      }
    }
    assert xs[..|xs|] == xs;
    return true;
  }

  lemma {:induction false} SubsequenceExamples()
    ensures Subsequence(["a", "b"], ["a", "b", "c"])
    ensures Subsequence(["a", "c"], ["a", "b", "c"])
    ensures Subsequence(["b", "c"], ["a", "b", "c"])
    ensures !Subsequence(["c", "b"], ["a", "b", "c"])
    ensures !Subsequence(["b", "a"], ["a", "b", "c"])
    ensures !Subsequence(["c", "a"], ["a", "b", "c"])
  {
    var abc: seq<Key> := ["a", "b", "c"];
    assert Embeds([0, 1], ["a", "b"], abc);
    assert Embeds([0, 2], ["a", "c"], abc);
    assert Embeds([1, 2], ["b", "c"], abc);
    assert forall k :: 0 <= k < 3 ==>
      (abc[k] == "a" <==> k == 0) && (abc[k] == "b" <==> k == 1) && (abc[k] == "c" <==> k == 2);
    forall w: seq<int> ensures !Embeds(w, ["c", "b"], abc) {
      if |w| == 2 && 0 <= w[0] < 3 && 0 <= w[1] < 3 {
        assert abc[w[0]] == "c" ==> w[0] == 2;
      }
    }
    forall w: seq<int> ensures !Embeds(w, ["b", "a"], abc) {
      if |w| == 2 && 0 <= w[0] < 3 && 0 <= w[1] < 3 {
        assert abc[w[0]] == "b" ==> w[0] == 1;
      }
    }
    forall w: seq<int> ensures !Embeds(w, ["c", "a"], abc) {
      if |w| == 2 && 0 <= w[0] < 3 && 0 <= w[1] < 3 {
        assert abc[w[0]] == "c" ==> w[0] == 2;
      }
    }
  }

  // ---------------------------------------------------------------- Histogram

  /** The ascending positions of `key` in `xs`. */
  function Positions(xs: seq<Key>, key: Key): seq<int> {
    if xs == [] then []
    else Positions(xs[..|xs| - 1], key) + (if xs[|xs| - 1] == key then [|xs| - 1] else [])
  }

  /** An index is listed under a key exactly when the item there has that key, and each list ascends. */
  lemma {:induction false} PositionsExact(xs: seq<Key>, key: Key)
    ensures forall i :: i in Positions(xs, key) <==> 0 <= i < |xs| && xs[i] == key
    ensures Increasing(Positions(xs, key))
  {
    if xs != [] {
      var front := xs[..|xs| - 1];
      PositionsExact(front, key);
      forall i | 0 <= i < |front| ensures front[i] == xs[i] { }
      var p := Positions(front, key);
      forall k | 0 <= k < |p| ensures p[k] < |front| {
        assert p[k] in p;
      }
    }
  }

  /** Each listed position holds the key. */
  lemma {:induction false} PositionAt(xs: seq<Key>, key: Key, k: int)
    requires 0 <= k < |Positions(xs, key)|
    ensures 0 <= Positions(xs, key)[k] < |xs| && xs[Positions(xs, key)[k]] == key
  {
    PositionsExact(xs, key);
    assert Positions(xs, key)[k] in Positions(xs, key);
  }

  /** Listed positions ascend. */
  lemma {:induction false} PositionsRise(xs: seq<Key>, key: Key, k: int, j: int)
    requires 0 <= k < j < |Positions(xs, key)|
    ensures Positions(xs, key)[k] < Positions(xs, key)[j]
  {
    PositionsExact(xs, key);
  }

  /** `Sequence.Histogram`: the positions of each key, collected in one pass. */
  method Histogram(xs: seq<Key>) returns (h: map<Key, seq<int>>)
    ensures forall key :: key in h <==> key in xs
    ensures forall key :: key in h ==> h[key] == Positions(xs, key)
  {
    h := map[];
    for i := 0 to |xs|
      invariant HistogramOf(h, xs[..i])
    {
      assert xs[..i + 1] == xs[..i] + [xs[i]];
      var s := xs[i];
      HistogramSnoc(h, xs[..i], s);
      h := h[s := (if s in h then h[s] else []) + [i]];
    }
    assert xs[..|xs|] == xs;
  }

  /** `h` lists the positions of each key of `p`, and only those keys. */
  ghost predicate HistogramOf(h: map<Key, seq<int>>, p: seq<Key>) {
    (forall key :: key in h <==> key in p) &&
    (forall key :: key in h ==> h[key] == Positions(p, key)) &&
    (forall key :: key !in h ==> Positions(p, key) == [])
  }

  /** Recording the position of one more item keeps the histogram exact. */
  lemma HistogramSnoc(h: map<Key, seq<int>>, p: seq<Key>, k: Key)
    requires HistogramOf(h, p)
    ensures HistogramOf(h[k := (if k in h then h[k] else []) + [|p|]], p + [k])
  {
    assert (p + [k])[..|p|] == p;
  }

  /**
   * `Sequence.Occurrence` (called by `YadLCS`; its body is not part of this
   * model): for each item of `ys`, the ascending positions of its key in `xs`,
   * as the histogram of `xs` lists them.
   */
  function Occurrence(xs: seq<Key>, ys: seq<Key>): (o: seq<seq<int>>)
    ensures |o| == |ys|
    ensures forall y :: 0 <= y < |ys| ==> o[y] == Positions(xs, ys[y])
  {
    seq(|ys|, y requires 0 <= y < |ys| => Positions(xs, ys[y]))
  }

  // -------------------------------------------------------------- constructors

  /** `NewChars`: one item per rune; together they spell `s` again. */
  method NewChars(s: string) returns (cs: seq<Key>)
    ensures |cs| == |s|
    ensures forall i :: 0 <= i < |s| ==> cs[i] == [s[i]]
    ensures Concat(cs) == s
  {
    cs := [];
    for i := 0 to |s|
      invariant |cs| == i
      invariant forall k :: 0 <= k < i ==> cs[k] == [s[k]]
      invariant Concat(cs) == s[..i]
    {
      ConcatAppend(cs, [s[i]]);
      assert s[..i + 1] == s[..i] + [s[i]];
      cs := cs + [[s[i]]];
    }
    assert s[..|s|] == s;
  }

  /** `NewWords`: one item per word, same length and order. */
  method NewWords(words: seq<string>) returns (cs: seq<Key>)
    ensures cs == words
  {
    var a := new Key[|words|];
    for i := 0 to |words|
      invariant a[..i] == words[..i]
    {
      a[i] := words[i];
      assert a[..i + 1] == a[..i] + [a[i]];
      assert words[..i + 1] == words[..i] + [words[i]];
    }
    assert words[..|words|] == words;
    cs := a[..];
  }

  /**
   * `NewLines`: one item per token of the line scanner, then an empty item
   * when `s` ends with '\n'.
   */
  method NewLines(s: string) returns (cs: seq<Key>)
    ensures cs == ScanLines(s)
    ensures s != [] ==> |cs| == CountChar(s, '\n') + 1
    ensures !Contains(s, '\r') ==> Join(cs, "\n") == s
  {
    var tokens := ScanTokens(s);
    cs := [];
    for i := 0 to |tokens|
      invariant cs == tokens[..i]
    {
      assert tokens[..i + 1] == tokens[..i] + [tokens[i]];
      cs := cs + [tokens[i]];
    }
    assert tokens[..|tokens|] == tokens;
    if |s| > 0 && s[|s| - 1] == '\n' {
      cs := cs + [""];
    }
    assert cs == ScanTokens(s) + (if s != [] && s[|s| - 1] == '\n' then [""] else []);
    ScanLinesFacts(s);
  }

  /** The line count and the round trip of the scanned lines. */
  lemma ScanLinesFacts(s: string)
    ensures s != [] ==> |ScanLines(s)| == CountChar(s, '\n') + 1
    ensures !Contains(s, '\r') ==> Join(ScanLines(s), "\n") == s
  {
    if s != [] {
      ScanLinesCount(s);
    }
    if !Contains(s, '\r') {
      ScanLinesJoin(s);
    }
  }

  // -------------------------------------------------------------------- Split

  predicate IsAlpha(c: char) {
    'A' <= c <= 'Z' || 'a' <= c <= 'z'
  }

  predicate IsDigit(c: char) {
    '0' <= c <= '9'
  }

  /** Length of the leading run of letters (`alpha`) or digits, capped at `limit`. */
  function Leading(s: string, alpha: bool, limit: nat): (n: nat)
    ensures n <= limit && n <= |s|
    ensures forall i :: 0 <= i < n ==> if alpha then IsAlpha(s[i]) else IsDigit(s[i])
    ensures n < limit && n < |s| ==> !(if alpha then IsAlpha(s[n]) else IsDigit(s[n]))
  {
    if limit == 0 || s == [] || !(if alpha then IsAlpha(s[0]) else IsDigit(s[0])) then 0
    else 1 + Leading(s[1..], alpha, limit - 1)
  }

  /**
   * Length of the match of `[[:alpha:]]{1,12}|[[:digit:]]{1,3}|.` at the
   * start of `s`: the first alternative that matches wins, and the
   * repetitions are greedy.
   */
  function WordLen(s: string): (n: nat)
    requires s != []
    ensures 1 <= n <= |s|
  {
    if IsAlpha(s[0]) then Leading(s, true, 12)
    else if IsDigit(s[0]) then Leading(s, false, 3)
    else 1
  }

  /** `regWord.FindAllString(s, -1)`: the successive leftmost matches. */
  function WordTokens(s: string): seq<string>
    decreases |s|
  {
    if s == [] then []
    else
      var n := WordLen(s);
      [s[..n]] + WordTokens(s[n..])
  }

  /** `regRune.FindAllString(s, -1)`: one token per rune. */
  function Runes(s: string): (r: seq<string>)
    ensures |r| == |s|
    ensures forall i :: 0 <= i < |s| ==> r[i] == [s[i]]
  {
    seq(|s|, i requires 0 <= i < |s| => [s[i]])
  }

  /** `Split`: runes for strings of at most 100 bytes, word tokens beyond. */
  function Split(s: string): seq<string> {
    if ByteLen(s) <= 100 then Runes(s) else WordTokens(s)
  }

  /** A word token: up to 12 letters, up to 3 digits, or any single character. */
  predicate WordShaped(t: string) {
    (1 <= |t| <= 12 && forall i :: 0 <= i < |t| ==> IsAlpha(t[i])) ||
    (1 <= |t| <= 3 && forall i :: 0 <= i < |t| ==> IsDigit(t[i])) ||
    |t| == 1
  }

  lemma {:induction false} WordTokensConcat(s: string)
    ensures Concat(WordTokens(s)) == s
    ensures forall i :: 0 <= i < |WordTokens(s)| ==> WordShaped(WordTokens(s)[i])
    decreases |s|
  {
    if s != [] {
      var n := WordLen(s);
      WordTokensConcat(s[n..]);
      ConcatJoin([s[..n]], WordTokens(s[n..]));
      assert Concat([s[..n]]) == s[..n] by {
        assert [s[..n]][..0] == [];
      }
      assert s[..n] + s[n..] == s;
    }
  }

  lemma {:induction false} RunesConcat(s: string)
    ensures Concat(Runes(s)) == s
  {
    if s != [] {
      var front := s[..|s| - 1];
      RunesConcat(front);
      assert Runes(s) == Runes(front) + [[s[|s| - 1]]];
      ConcatAppend(Runes(front), [s[|s| - 1]]);
      assert front + [s[|s| - 1]] == s;
    }
  }

  /** Both modes cut `s` into pieces that spell it again: every character is matched. */
  lemma {:induction false} SplitConcat(s: string)
    ensures Concat(Split(s)) == s
    ensures ByteLen(s) <= 100 ==> |Split(s)| == |s|
    ensures ByteLen(s) > 100 ==> forall i :: 0 <= i < |Split(s)| ==> WordShaped(Split(s)[i])
  {
    RunesConcat(s);
    WordTokensConcat(s);
  }

  /** A run of digits is cut after three of them. */
  lemma {:induction false} DigitRunExample()
    ensures WordTokens("12345") == ["123", "45"]
  {
    assert WordTokens("45") == ["45"] by {
      assert "45"[1..] == "5" && "5"[1..] == "";
      assert "45"[..2] == "45" && "45"[2..] == "";
    }
    assert "12345"[1..] == "2345" && "2345"[1..] == "345" && "345"[1..] == "45";
    assert "12345"[..3] == "123" && "12345"[3..] == "45";
  }

}
