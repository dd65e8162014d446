/**
 * Token lines and hunks of a text diff (lib/diff/ast.go).
 *
 * `ParseTokenLines` cuts a token list into lines at every line number
 * token; `ParseTokenHunks` groups the deleted and added lines that lie
 * between kept lines into hunks. Both are loops over an output list and a
 * pointer `buf` to the element being built; the pointer is modelled as an
 * `Option`, and dereferencing it while it is nil as the outcome `NilDeref`.
 *
 * Each loop is specified by a function that runs the same steps on the
 * first `n` inputs (`LinesUpTo`, `HunksUpTo`); the lemmas state what the
 * steps add up to.
 */
module DiffAst {
  import opened Strings
  import opened DiffToken

  datatype Option<T> = None | Some(value: T)

  /** `TokenLine`: the 1-based index `n` of its line number token, its symbol, and its other tokens. */
  datatype TokenLine = TokenLine(n: int, typ: Type, symbol: Option<Token>, tokens: seq<Token>)

  /** What `ParseTokenLines` returns: its list, whose last entry is nil for an empty input, or a nil dereference. */
  datatype Outcome = NilDeref | Ok(lines: seq<Option<TokenLine>>)

  // ----------------------------------------------------- ParseTokenLines

  /** The loop state of `ParseTokenLines`: the finished lines and `buf`. */
  datatype LinesAcc = LinesAcc(list: seq<TokenLine>, buf: Option<TokenLine>)

  /** What a token other than a line number does to the line being built: a symbol sets its type and symbol, any other token is added to it. */
  function Fill(l: TokenLine, t: Token): TokenLine {
    if IsSymbol(t.typ) then l.(typ := t.typ, symbol := Some(t)) else l.(tokens := l.tokens + [t])
  }

  /** One turn of the loop on token `t` at index `i`; `None` when it dereferences a nil `buf`. */
  function LinesStep(acc: LinesAcc, i: nat, t: Token): Option<LinesAcc> {
    if t.typ == LineNum then
      Some(LinesAcc(if acc.buf.Some? then acc.list + [acc.buf.value] else acc.list, Some(TokenLine(i + 1, LineNum, None, []))))
    else if acc.buf.None? then None
    else Some(acc.(buf := Some(Fill(acc.buf.value, t))))
  }

  /** The loop state after the first `n` tokens, `None` once a nil `buf` was dereferenced. */
  function LinesUpTo(ts: seq<Token>, n: nat): Option<LinesAcc>
    requires n <= |ts|
  {
    if n == 0 then Some(LinesAcc([], None))
    else match LinesUpTo(ts, n - 1)
      case None => None
      case Some(acc) => LinesStep(acc, n - 1, ts[n - 1])
  }

  function Wrap(list: seq<TokenLine>): (r: seq<Option<TokenLine>>)
    ensures |r| == |list| && forall m :: 0 <= m < |list| ==> r[m] == Some(list[m])
  {
    seq(|list|, m requires 0 <= m < |list| => Some(list[m]))
  }

  /** The result of `ParseTokenLines`: the finished lines and then `buf`, nil or not. */
  function Parsed(ts: seq<Token>): Outcome {
    match LinesUpTo(ts, |ts|)
    case None => NilDeref
    case Some(acc) => Ok(Wrap(acc.list) + [acc.buf])
  }

  /** Once a nil `buf` was dereferenced, later tokens do not matter. */
  lemma {:induction false} NilSticks(ts: seq<Token>, k: nat, n: nat)
    requires k <= n <= |ts| && LinesUpTo(ts, k).None?
    ensures LinesUpTo(ts, n).None?
    decreases n
  {
    if k < n {
      NilSticks(ts, k, n - 1);
    }
  }

  /**
   * `ParseTokenLines`: a line number token finishes `buf` and starts a new
   * line numbered by the token's position; a symbol token sets the line's
   * type and symbol; every other token is added to the line.
   */
  method ParseTokenLines(ts: seq<Token>) returns (r: Outcome)
    ensures r == Parsed(ts)
    ensures r.NilDeref? <==> ts != [] && ts[0].typ != LineNum
  {
    ParsedPanics(ts);
    var list: seq<TokenLine> := [];
    var buf: Option<TokenLine> := None;
    var i := 0;
    while i < |ts|
      invariant 0 <= i <= |ts|
      invariant LinesUpTo(ts, i) == Some(LinesAcc(list, buf))
    {
      var t := ts[i];
      assert LinesUpTo(ts, i + 1) == LinesStep(LinesAcc(list, buf), i, t);
      if t.typ == LineNum {
        if buf.Some? {
          list := list + [buf.value];
        }
        buf := Some(TokenLine(i + 1, LineNum, None, []));
      } else if buf.None? {
        NilSticks(ts, i + 1, |ts|);
        return NilDeref;
      } else if IsSymbol(t.typ) {
        buf := Some(buf.value.(typ := t.typ, symbol := Some(t)));
      } else {
        buf := Some(buf.value.(tokens := buf.value.tokens + [t]));
      }
      i := i + 1;
    }
    r := Ok(Wrap(list) + [buf]);
  }

  /** After a first line number token `buf` is never nil again. */
  lemma {:induction false} Started(ts: seq<Token>, n: nat)
    requires 1 <= n <= |ts| && ts[0].typ == LineNum
    ensures LinesUpTo(ts, n).Some? && LinesUpTo(ts, n).value.buf.Some?
  {
    if n > 1 {
      Started(ts, n - 1);
    }
  }

  /** The parse dereferences a nil `buf` exactly when the first token is not a line number. */
  lemma {:induction false} ParsedPanics(ts: seq<Token>)
    ensures Parsed(ts).NilDeref? <==> ts != [] && ts[0].typ != LineNum
  {
    if ts != [] {
      if ts[0].typ == LineNum {
        Started(ts, |ts|);
      } else {
        NilSticks(ts, 1, |ts|);
      }
    }
  }

  /** An empty token list gives a list holding one nil line. */
  lemma {:induction false} ParsedEmpty()
    ensures Parsed([]) == Ok([None])
  {
    assert Wrap([]) == [];
  }

  /** The number of line number tokens among the first `n`. */
  function LineNums(ts: seq<Token>, n: nat): (c: nat)
    requires n <= |ts|
    ensures c <= n
  {
    if n == 0 then 0 else LineNums(ts, n - 1) + (if ts[n - 1].typ == LineNum then 1 else 0)
  }

  /** The tokens among the first `n` that are neither line numbers nor symbols, in order. */
  function Contents(ts: seq<Token>, n: nat): seq<Token>
    requires n <= |ts|
  {
    if n == 0 then [] else Contents(ts, n - 1) + (if ts[n - 1].typ == LineNum || IsSymbol(ts[n - 1].typ) then [] else [ts[n - 1]])
  }

  /** The tokens of all lines, in order. */
  function Body(list: seq<TokenLine>): seq<Token> {
    Concat(seq(|list|, m requires 0 <= m < |list| => list[m].tokens))
  }

  lemma {:induction false} BodyAppend(list: seq<TokenLine>, l: TokenLine)
    ensures Body(list + [l]) == Body(list) + l.tokens
  {
    var xs := seq(|list|, m requires 0 <= m < |list| => list[m].tokens);
    assert seq(|list + [l]|, m requires 0 <= m < |list + [l]| => (list + [l])[m].tokens) == xs + [l.tokens];
    ConcatAppend(xs, l.tokens);
  }

  /** The lines begun after the first `n` tokens: the finished ones and `buf`. */
  function Begun(ts: seq<Token>, n: nat): (all: seq<TokenLine>)
    requires 1 <= n <= |ts| && ts[0].typ == LineNum
    ensures |all| >= 1
  {
    Started(ts, n);
    var acc := LinesUpTo(ts, n).value;
    acc.list + [acc.buf.value]
  }

  /** A line number token begins a new line after the others. */
  lemma {:induction false} BegunGrows(ts: seq<Token>, n: nat)
    requires 1 <= n < |ts| && ts[0].typ == LineNum && ts[n].typ == LineNum
    ensures Begun(ts, n + 1) == Begun(ts, n) + [TokenLine(n + 1, LineNum, None, [])]
  {
    Started(ts, n);
    assert LinesUpTo(ts, n + 1) == LinesStep(LinesUpTo(ts, n).value, n, ts[n]);
  }

  /** Any other token changes only the last begun line. */
  lemma {:induction false} BegunFills(ts: seq<Token>, n: nat)
    requires 1 <= n < |ts| && ts[0].typ == LineNum && ts[n].typ != LineNum
    ensures var prev := Begun(ts, n);
      Begun(ts, n + 1) == prev[..|prev| - 1] + [Fill(prev[|prev| - 1], ts[n])]
  {
    Started(ts, n);
    var acc := LinesUpTo(ts, n).value;
    assert LinesUpTo(ts, n + 1) == LinesStep(acc, n, ts[n]);
    assert Begun(ts, n)[..|Begun(ts, n)| - 1] == acc.list;
  }

  /**
   * While the parse has started there is one begun line per line number
   * token so far, each numbered by the 1-based position of such a token,
   * in increasing order.
   */
  lemma {:induction false} BegunNumbered(ts: seq<Token>, n: nat)
    requires 1 <= n <= |ts| && ts[0].typ == LineNum
    ensures var all := Begun(ts, n);
      |all| == LineNums(ts, n) &&
      (forall m :: 0 <= m < |all| ==> 1 <= all[m].n <= n && ts[all[m].n - 1].typ == LineNum) &&
      (forall m, m' :: 0 <= m < m' < |all| ==> all[m].n < all[m'].n)
    decreases n
  {
    if n == 1 {
      assert LinesUpTo(ts, 1) == LinesStep(LinesAcc([], None), 0, ts[0]);
    } else {
      BegunNumbered(ts, n - 1);
      var prev, all := Begun(ts, n - 1), Begun(ts, n);
      if ts[n - 1].typ == LineNum {
        BegunGrows(ts, n - 1);
      } else {
        BegunFills(ts, n - 1);
        forall m | 0 <= m < |all|
          ensures all[m].n == prev[m].n
        {
        }
      }
    }
  }

  /** While the parse has started, the begun lines hold, in order, exactly the tokens that are neither line numbers nor symbols. */
  lemma {:induction false} BegunBody(ts: seq<Token>, n: nat)
    requires 1 <= n <= |ts| && ts[0].typ == LineNum
    ensures Body(Begun(ts, n)) == Contents(ts, n)
    decreases n
  {
    if n == 1 {
      assert LinesUpTo(ts, 1) == LinesStep(LinesAcc([], None), 0, ts[0]);
      BodyAppend([], TokenLine(1, LineNum, None, []));
    } else {
      BegunBody(ts, n - 1);
      if ts[n - 1].typ == LineNum {
        BodyNumber(ts, n);
      } else {
        BodyFill(ts, n);
      }
    }
  }

  /** `BegunBody` at a line number token: a new, empty line is begun. */
  lemma {:induction false} BodyNumber(ts: seq<Token>, n: nat)
    requires 2 <= n <= |ts| && ts[0].typ == LineNum && ts[n - 1].typ == LineNum
    requires Body(Begun(ts, n - 1)) == Contents(ts, n - 1)
    ensures Body(Begun(ts, n)) == Contents(ts, n)
  {
    BegunGrows(ts, n - 1);
    BodyAppend(Begun(ts, n - 1), TokenLine(n, LineNum, None, []));
  }

  /** `BegunBody` at any other token: the last line takes it or leaves it. */
  lemma {:induction false} BodyFill(ts: seq<Token>, n: nat)
    requires 2 <= n <= |ts| && ts[0].typ == LineNum && ts[n - 1].typ != LineNum
    requires Body(Begun(ts, n - 1)) == Contents(ts, n - 1)
    ensures Body(Begun(ts, n)) == Contents(ts, n)
  {
    var prev, all := Begun(ts, n - 1), Begun(ts, n);
    BegunFills(ts, n - 1);
    var front := prev[..|prev| - 1];
    assert prev == front + [prev[|prev| - 1]];
    assert all == front + [all[|all| - 1]];
    BodyAppend(front, prev[|prev| - 1]);
    BodyAppend(front, all[|all| - 1]);
  }

  /**
   * A token list that starts with a line number parses without a nil
   * dereference into one line per line number token, numbered by those
   * tokens' 1-based positions in increasing order, holding between them
   * every token that is neither a line number nor a symbol.
   */
  lemma {:induction false} ParsedLines(ts: seq<Token>)
    requires ts != [] && ts[0].typ == LineNum
    ensures Parsed(ts).Ok? && Parsed(ts).lines == Wrap(Begun(ts, |ts|))
    ensures Body(Begun(ts, |ts|)) == Contents(ts, |ts|)
    ensures var ls := Parsed(ts).lines;
      |ls| == LineNums(ts, |ts|) &&
      (forall m :: 0 <= m < |ls| ==> ls[m].Some? && 1 <= ls[m].value.n <= |ts| && ts[ls[m].value.n - 1].typ == LineNum) &&
      (forall m, m' :: 0 <= m < m' < |ls| ==> ls[m].value.n < ls[m'].value.n)
  {
    BegunNumbered(ts, |ts|);
    BegunBody(ts, |ts|);
    Started(ts, |ts|);
    assert Parsed(ts).lines == Wrap(Begun(ts, |ts|));
  }

  /** The line `ParseTokenLines` makes of line `k` of a rendered script: its number's position, symbol and text. */
  function LineOf(ops: seq<Op>, k: nat, wx: nat, wy: nat): TokenLine
    requires k < |ops|
  {
    var g := GroupAt(ops, k, wx, wy);
    TokenLine(3 * k + 1, g[1].typ, Some(g[1]), [g[2]])
  }

  /** A line number, a symbol and one more token make one line. */
  lemma {:induction false} BegunTriple(ts: seq<Token>, n: nat)
    requires 1 <= n && n + 3 <= |ts| && ts[0].typ == LineNum
    requires ts[n].typ == LineNum && IsSymbol(ts[n + 1].typ) && !IsSymbol(ts[n + 2].typ) && ts[n + 2].typ != LineNum
    ensures Begun(ts, n + 3) == Begun(ts, n) + [TokenLine(n + 1, ts[n + 1].typ, Some(ts[n + 1]), [ts[n + 2]])]
  {
    BegunGrows(ts, n);
    BegunFills(ts, n + 1);
    BegunFills(ts, n + 2);
    var a, b, c := Begun(ts, n), Begun(ts, n + 1), Begun(ts, n + 2);
    var l0 := TokenLine(n + 1, LineNum, None, []);
    var l1 := Fill(l0, ts[n + 1]);
    var l2 := Fill(l1, ts[n + 2]);
    assert l1.tokens == [];
    assert l2.tokens == [ts[n + 2]];
    assert b[..|b| - 1] == a && b[|b| - 1] == l0;
    assert c == a + [l1];
    assert c[..|c| - 1] == a && c[|c| - 1] == l1;
  }

  /** The first three tokens, a line number, a symbol and one more, make the first line. */
  lemma {:induction false} BegunFirst(ts: seq<Token>)
    requires 3 <= |ts| && ts[0].typ == LineNum
    requires IsSymbol(ts[1].typ) && !IsSymbol(ts[2].typ) && ts[2].typ != LineNum
    ensures Begun(ts, 3) == [TokenLine(1, ts[1].typ, Some(ts[1]), [ts[2]])]
  {
    assert LinesUpTo(ts, 1) == LinesStep(LinesAcc([], None), 0, ts[0]);
    BegunFills(ts, 1);
    BegunFills(ts, 2);
    var l0 := TokenLine(1, LineNum, None, []);
    var l1 := Fill(l0, ts[1]);
    var l2 := Fill(l1, ts[2]);
    assert Begun(ts, 1) == [l0];
    assert Begun(ts, 2) == [l1];
    assert l2.tokens == [ts[2]];
  }

  /** `c` groups of a line number, a symbol, and one other token, as `Tokenize` emits them. */
  predicate Triples(ts: seq<Token>, c: nat) {
    |ts| == 3 * c &&
    forall k :: 0 <= k < c ==>
      ts[3 * k].typ == LineNum && IsSymbol(ts[3 * k + 1].typ) && !IsSymbol(ts[3 * k + 2].typ) && ts[3 * k + 2].typ != LineNum
  }

  /** The line that group `k` of such a stream parses into. */
  function TripleLine(ts: seq<Token>, k: nat): TokenLine
    requires 3 * k + 2 < |ts|
  {
    TokenLine(3 * k + 1, ts[3 * k + 1].typ, Some(ts[3 * k + 1]), [ts[3 * k + 2]])
  }

  /** Parsing the first `m` groups gives one line per group. */
  lemma {:induction false} BegunTriples(ts: seq<Token>, c: nat, m: nat)
    requires Triples(ts, c) && 1 <= m <= c
    ensures ts[0].typ == LineNum && Begun(ts, 3 * m) == seq(m, k requires 0 <= k < m => TripleLine(ts, k))
    decreases m
  {
    assert ts[3 * 0].typ == LineNum;
    var k := m - 1;
    assert ts[3 * k].typ == LineNum && IsSymbol(ts[3 * k + 1].typ);
    if m == 1 {
      BegunFirst(ts);
    } else {
      BegunTriples(ts, c, m - 1);
      BegunTriple(ts, 3 * k);
    }
  }

  /**
   * A stream of `c >= 1` such groups parses without a nil dereference
   * into `c` lines: line `k` is numbered by the position `3k + 1` of its
   * line number token, has that group's symbol, and holds its third token.
   */
  lemma {:induction false} TriplesParsed(ts: seq<Token>, c: nat)
    requires Triples(ts, c) && c >= 1
    ensures Parsed(ts) == Ok(Wrap(seq(c, k requires 0 <= k < c => TripleLine(ts, k))))
  {
    BegunTriples(ts, c, c);
    ParsedLines(ts);
  }

  /** Tokens `3k`, `3k + 1` and `3k + 2` of a script are its group `k`. */
  lemma {:induction false} RenderGroup(ops: seq<Op>, wx: nat, wy: nat, k: nat)
    requires k < |ops|
    ensures |Render(ops, wx, wy)| == 3 * |ops|
    ensures Render(ops, wx, wy)[3 * k] == GroupAt(ops, k, wx, wy)[0]
    ensures Render(ops, wx, wy)[3 * k + 1] == GroupAt(ops, k, wx, wy)[1]
    ensures Render(ops, wx, wy)[3 * k + 2] == GroupAt(ops, k, wx, wy)[2]
  {
    RenderLayout(ops, wx, wy);
    assert Render(ops, wx, wy)[3 * k + 0] == GroupAt(ops, k, wx, wy)[0];
  }

  /** The tokens of a script are such groups, and group `k` parses into line `k` of the script. */
  lemma {:induction false} RenderParsed(ops: seq<Op>, wx: nat, wy: nat)
    requires ops != []
    ensures Parsed(Render(ops, wx, wy)) == Ok(Wrap(seq(|ops|, k requires 0 <= k < |ops| => LineOf(ops, k, wx, wy))))
  {
    var ts := Render(ops, wx, wy);
    RenderGroup(ops, wx, wy, 0);
    forall k | 0 <= k < |ops|
      ensures ts[3 * k].typ == LineNum && IsSymbol(ts[3 * k + 1].typ)
      ensures !IsSymbol(ts[3 * k + 2].typ) && ts[3 * k + 2].typ != LineNum
      ensures TripleLine(ts, k) == LineOf(ops, k, wx, wy)
    {
      RenderGroup(ops, wx, wy, k);
    }
    TriplesParsed(ts, |ops|);
  }

  // ---------------------------------------------------- ParseTokenHunks

  /** `TokenHunk`: the deleted and the added lines of one run of changes. */
  datatype TokenHunk = TokenHunk(del: seq<TokenLine>, add: seq<TokenLine>)

  /** The loop state of `ParseTokenHunks`: the finished hunks and `buf`. */
  datatype HunksAcc = HunksAcc(list: seq<TokenHunk>, buf: Option<TokenHunk>)

  /** `buf`, or the empty hunk the loop allocates when it is nil. */
  function Open(buf: Option<TokenHunk>): TokenHunk {
    if buf.Some? then buf.value else TokenHunk([], [])
  }

  /** The finished hunks and then `buf` when it is not nil. */
  function Flush(acc: HunksAcc): seq<TokenHunk> {
    if acc.buf.Some? then acc.list + [acc.buf.value] else acc.list
  }

  /**
   * One turn of the loop on line `l`: a deleted or added line joins the
   * open hunk, a kept line closes it, a line of any other type is skipped.
   */
  function HunksStep(acc: HunksAcc, l: TokenLine): HunksAcc {
    if l.typ == DelSymbol then acc.(buf := Some(Open(acc.buf).(del := Open(acc.buf).del + [l])))
    else if l.typ == AddSymbol then acc.(buf := Some(Open(acc.buf).(add := Open(acc.buf).add + [l])))
    else if l.typ == SameSymbol then HunksAcc(Flush(acc), None)
    else acc
  }

  /** No nil entry among the first `n` lines. */
  predicate NonNil(lines: seq<Option<TokenLine>>, n: nat)
    requires n <= |lines|
  {
    forall k :: 0 <= k < n ==> lines[k].Some?
  }

  /** The loop state after the first `n` lines. */
  function HunksUpTo(lines: seq<Option<TokenLine>>, n: nat): HunksAcc
    requires n <= |lines| && NonNil(lines, n)
  {
    if n == 0 then HunksAcc([], None) else HunksStep(HunksUpTo(lines, n - 1), lines[n - 1].value)
  }

  /** The result of `ParseTokenHunks` on lines none of which is nil. */
  function Hunks(lines: seq<Option<TokenLine>>): seq<TokenHunk>
    requires NonNil(lines, |lines|)
  {
    Flush(HunksUpTo(lines, |lines|))
  }

  /**
   * `ParseTokenHunks`: `None` when some line is nil (reading its type
   * dereferences it), the hunks otherwise.
   */
  method ParseTokenHunks(lines: seq<Option<TokenLine>>) returns (r: Option<seq<TokenHunk>>)
    ensures r.None? <==> exists k :: 0 <= k < |lines| && lines[k].None?
    ensures r.Some? ==> NonNil(lines, |lines|) && r.value == Hunks(lines)
  {
    var list: seq<TokenHunk> := [];
    var buf: Option<TokenHunk> := None;
    for i := 0 to |lines|
      invariant NonNil(lines, i) && HunksUpTo(lines, i) == HunksAcc(list, buf)
    {
      if lines[i].None? {
        return None;
      }
      var l := lines[i].value;
      if l.typ == DelSymbol {
        if buf.None? {
          buf := Some(TokenHunk([], []));
        }
        buf := Some(buf.value.(del := buf.value.del + [l]));
      } else if l.typ == AddSymbol {
        if buf.None? {
          buf := Some(TokenHunk([], []));
        }
        buf := Some(buf.value.(add := buf.value.add + [l]));
      } else if l.typ == SameSymbol {
        if buf.Some? {
          list := list + [buf.value];
        }
        buf := None;
      }
    }
    if buf.Some? {
      list := list + [buf.value];
    }
    r := Some(list);
  }

  /** A hunk holds at least one line. */
  predicate Filled(h: TokenHunk) {
    h.del != [] || h.add != []
  }

  /** Every hunk, finished or open, holds a line. */
  lemma {:induction false} HunksUpToFilled(lines: seq<Option<TokenLine>>, n: nat)
    requires n <= |lines| && NonNil(lines, n)
    ensures forall h :: h in HunksUpTo(lines, n).list ==> Filled(h)
    ensures HunksUpTo(lines, n).buf.Some? ==> Filled(HunksUpTo(lines, n).buf.value)
  {
    if n > 0 {
      HunksUpToFilled(lines, n - 1);
    }
  }

  /** `ParseTokenHunks` makes no empty hunk. */
  lemma {:induction false} HunksFilled(lines: seq<Option<TokenLine>>)
    requires NonNil(lines, |lines|)
    ensures forall h :: h in Hunks(lines) ==> Filled(h)
  {
    HunksUpToFilled(lines, |lines|);
  }

  /** The lines of type `t` among the first `n`, in order. */
  function Typed(lines: seq<Option<TokenLine>>, t: Type, n: nat): seq<TokenLine>
    requires n <= |lines| && NonNil(lines, n)
  {
    if n == 0 then []
    else Typed(lines, t, n - 1) + (if lines[n - 1].value.typ == t then [lines[n - 1].value] else [])
  }

  /** The deleted lines of all hunks, in order. */
  function Dels(hs: seq<TokenHunk>): seq<TokenLine> {
    Concat(seq(|hs|, m requires 0 <= m < |hs| => hs[m].del))
  }

  /** The added lines of all hunks, in order. */
  function Adds(hs: seq<TokenHunk>): seq<TokenLine> {
    Concat(seq(|hs|, m requires 0 <= m < |hs| => hs[m].add))
  }

  lemma {:induction false} HunksAppend(hs: seq<TokenHunk>, h: TokenHunk)
    ensures Dels(hs + [h]) == Dels(hs) + h.del
    ensures Adds(hs + [h]) == Adds(hs) + h.add
  {
    var ds := seq(|hs|, m requires 0 <= m < |hs| => hs[m].del);
    var adds := seq(|hs|, m requires 0 <= m < |hs| => hs[m].add);
    assert seq(|hs + [h]|, m requires 0 <= m < |hs + [h]| => (hs + [h])[m].del) == ds + [h.del];
    assert seq(|hs + [h]|, m requires 0 <= m < |hs + [h]| => (hs + [h])[m].add) == adds + [h.add];
    ConcatAppend(ds, h.del);
    ConcatAppend(adds, h.add);
  }

  /** One turn of the loop adds its line to the deleted lines of the hunks when it is a deleted line. */
  lemma {:induction false} StepDels(acc: HunksAcc, l: TokenLine)
    ensures Dels(Flush(HunksStep(acc, l))) == Dels(Flush(acc)) + (if l.typ == DelSymbol then [l] else [])
  {
    var h := Open(acc.buf);
    HunksAppend(acc.list, h);
    if l.typ == DelSymbol {
      HunksAppend(acc.list, h.(del := h.del + [l]));
      if acc.buf.None? {
        assert Flush(acc) == acc.list;
      }
    } else if l.typ == AddSymbol {
      HunksAppend(acc.list, h.(add := h.add + [l]));
      if acc.buf.None? {
        assert Flush(acc) == acc.list;
      }
    }
  }

  /** One turn of the loop adds its line to the added lines of the hunks when it is an added line. */
  lemma {:induction false} StepAdds(acc: HunksAcc, l: TokenLine)
    ensures Adds(Flush(HunksStep(acc, l))) == Adds(Flush(acc)) + (if l.typ == AddSymbol then [l] else [])
  {
    var h := Open(acc.buf);
    HunksAppend(acc.list, h);
    if l.typ == DelSymbol {
      HunksAppend(acc.list, h.(del := h.del + [l]));
      if acc.buf.None? {
        assert Flush(acc) == acc.list;
      }
    } else if l.typ == AddSymbol {
      HunksAppend(acc.list, h.(add := h.add + [l]));
      if acc.buf.None? {
        assert Flush(acc) == acc.list;
      }
    }
  }

  /** After `n` lines, the hunks so far hold exactly the deleted and added lines so far. */
  lemma {:induction false} HunksUpToLines(lines: seq<Option<TokenLine>>, n: nat)
    requires n <= |lines| && NonNil(lines, n)
    ensures Dels(Flush(HunksUpTo(lines, n))) == Typed(lines, DelSymbol, n)
    ensures Adds(Flush(HunksUpTo(lines, n))) == Typed(lines, AddSymbol, n)
  {
    if n == 0 {
      assert Dels([]) == [] && Adds([]) == [];
    } else {
      HunksUpToLines(lines, n - 1);
      StepDels(HunksUpTo(lines, n - 1), lines[n - 1].value);
      StepAdds(HunksUpTo(lines, n - 1), lines[n - 1].value);
    }
  }

  /** Across all hunks, the deleted lines are the lines of type `DelSymbol` and the added ones those of type `AddSymbol`, in input order. */
  lemma {:induction false} HunksLines(lines: seq<Option<TokenLine>>)
    requires NonNil(lines, |lines|)
    ensures Dels(Hunks(lines)) == Typed(lines, DelSymbol, |lines|)
    ensures Adds(Hunks(lines)) == Typed(lines, AddSymbol, |lines|)
  {
    HunksUpToLines(lines, |lines|);
  }

  /** A list whose last hunk holds a line has some deleted or added line. */
  lemma {:induction false} LastFilled(hs: seq<TokenHunk>)
    ensures hs != [] && Filled(hs[|hs| - 1]) ==> Dels(hs) != [] || Adds(hs) != []
  {
    if hs != [] {
      var last := hs[|hs| - 1];
      assert hs == hs[..|hs| - 1] + [last];
      HunksAppend(hs[..|hs| - 1], last);
    }
  }

  /** Lines that are all kept give no hunk. */
  lemma {:induction false} NoChangeNoHunk(lines: seq<Option<TokenLine>>)
    requires NonNil(lines, |lines|)
    requires Typed(lines, DelSymbol, |lines|) == [] && Typed(lines, AddSymbol, |lines|) == []
    ensures Hunks(lines) == []
  {
    LastFilled(Hunks(lines));
    HunksLines(lines);
    HunksFilled(lines);
  }

  /** A line that deletes or adds. */
  predicate IsChange(l: TokenLine) {
    l.typ == DelSymbol || l.typ == AddSymbol
  }

  /**
   * Whether a run of changes is open after the first `n` lines: the last
   * deleted, added or kept line among them is a change (lines of other
   * types neither open nor close a run).
   */
  predicate InRun(lines: seq<Option<TokenLine>>, n: nat)
    requires n <= |lines| && NonNil(lines, n)
  {
    if n == 0 then false
    else if IsChange(lines[n - 1].value) then true
    else if lines[n - 1].value.typ == SameSymbol then false
    else InRun(lines, n - 1)
  }

  /** The number of runs of changes among the first `n` lines: the changes that open one. */
  function Runs(lines: seq<Option<TokenLine>>, n: nat): nat
    requires n <= |lines| && NonNil(lines, n)
  {
    if n == 0 then 0
    else Runs(lines, n - 1) + (if IsChange(lines[n - 1].value) && !InRun(lines, n - 1) then 1 else 0)
  }

  /** The loop holds an open hunk exactly inside a run, and one hunk per run so far. */
  lemma {:induction false} HunksUpToRuns(lines: seq<Option<TokenLine>>, n: nat)
    requires n <= |lines| && NonNil(lines, n)
    ensures HunksUpTo(lines, n).buf.Some? <==> InRun(lines, n)
    ensures |HunksUpTo(lines, n).list| + (if HunksUpTo(lines, n).buf.Some? then 1 else 0) == Runs(lines, n)
  {
    if n > 0 {
      assert NonNil(lines, n - 1);
      HunksUpToRuns(lines, n - 1);
    }
  }

  /** `ParseTokenHunks` makes one hunk per maximal run of changes between kept lines. */
  lemma {:induction false} HunksRuns(lines: seq<Option<TokenLine>>)
    requires NonNil(lines, |lines|)
    ensures |Hunks(lines)| == Runs(lines, |lines|)
  {
    HunksUpToRuns(lines, |lines|);
  }

  // ------------------------------------------------------------ From, To

  /** `TokenHunk.From`: the number of its first deleted line, or of its first added line when it deletes none. */
  function From(h: TokenHunk): (r: int)
    requires Filled(h)
  {
    if |h.del| > 0 then h.del[0].n else h.add[0].n
  }

  /** `TokenHunk.To`: the number of its last added line, or of its last deleted line when it adds none. */
  function To(h: TokenHunk): (r: int)
    requires Filled(h)
  {
    if |h.add| > 0 then h.add[|h.add| - 1].n else h.del[|h.del| - 1].n
  }

  /** Lines numbered in strictly increasing order. */
  predicate Increasing(ls: seq<TokenLine>) {
    forall a, b :: 0 <= a < b < |ls| ==> ls[a].n < ls[b].n
  }

  /**
   * When a hunk's lines are in order and its deletions come before its
   * additions, as `Tokenize` emits them, its lines read in that order are
   * increasing, and `From` and `To` are the numbers of the first and the
   * last of them.
   */
  lemma {:induction false} HunkSpan(h: TokenHunk)
    requires Filled(h) && Increasing(h.del) && Increasing(h.add)
    requires h.del != [] && h.add != [] ==> h.del[|h.del| - 1].n < h.add[0].n
    ensures Increasing(h.del + h.add)
    ensures From(h) == (h.del + h.add)[0].n && To(h) == (h.del + h.add)[|h.del + h.add| - 1].n
  {
    var all := h.del + h.add;
    forall a, b | 0 <= a < b < |all|
      ensures all[a].n < all[b].n
    {
      if b < |h.del| {
        assert all[a] == h.del[a] && all[b] == h.del[b];
      } else if a >= |h.del| {
        assert all[a] == h.add[a - |h.del|] && all[b] == h.add[b - |h.del|];
      } else {
        assert all[a].n <= h.del[|h.del| - 1].n by {
          assert all[a] == h.del[a];
        }
        assert h.add[0].n <= all[b].n by {
          assert all[b] == h.add[b - |h.del|];
        }
      }
    }
  }

  /** So every line of such a hunk is numbered from `From` to `To`. */
  lemma {:induction false} HunkBounds(h: TokenHunk)
    requires Filled(h) && Increasing(h.del) && Increasing(h.add)
    requires h.del != [] && h.add != [] ==> h.del[|h.del| - 1].n < h.add[0].n
    ensures forall l :: l in h.del + h.add ==> From(h) <= l.n <= To(h)
  {
    HunkSpan(h);
    var all := h.del + h.add;
    forall l | l in all
      ensures From(h) <= l.n <= To(h)
    {
      var i :| 0 <= i < |all| && all[i] == l;
      assert 0 < i ==> all[0].n < all[i].n;
      assert i < |all| - 1 ==> all[i].n < all[|all| - 1].n;
    }
  }
}
