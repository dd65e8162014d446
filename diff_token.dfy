/**
 * Line tokens of a text diff (lib/diff/token.go). `Tokenize` splits both
 * texts into lines, takes their LCS, and walks the three lists with the
 * pointers `i`, `j` and `k`, emitting for every line a group of three
 * tokens: the line number(s), the symbol, and the line with "\n".
 *
 * The tokens are specified through a ghost edit script: a list of `Op`s
 * whose rendering is the token list, whose deleted-or-kept texts are a
 * prefix of the old lines and whose added-or-kept texts a prefix of the
 * new ones.
 */
module DiffToken {
  import opened Strings
  import opened DiffSequence
  import opened DiffLcs

  /** Token kinds, in the order of the constants of lib/diff/token.go. */
  datatype Type = LineNum | SameSymbol | SameLine | AddSymbol | AddLine | DelSymbol | DelLine
                | SameWords | AddWords | DelWords

  datatype Token = Token(typ: Type, literal: string)

  /** The kinds of the symbol tokens "  ", "+ " and "- ". */
  predicate IsSymbol(t: Type) {
    t == SameSymbol || t == AddSymbol || t == DelSymbol
  }

  // ------------------------------------------------------------- numFormat

  /**
   * `numFormat`: the widths of the two number columns, the digit counts of
   * the two line counts. The three format strings it builds are the
   * functions `XNum`, `YNum` and `SNum` below.
   */
  function NumFormat(nx: nat, ny: nat): (w: (nat, nat))
    ensures w.0 == |NatToString(nx)| && w.1 == |NatToString(ny)|
  {
    (DecimalWidth(nx), DecimalWidth(ny))
  }

  /** Every line number up to the line count fits its column. */
  lemma {:induction false} NumFormatFits(nx: nat, ny: nat, a: nat, b: nat)
    requires a <= nx && b <= ny
    ensures |NatToString(a)| <= NumFormat(nx, ny).0 && |NatToString(b)| <= NumFormat(nx, ny).1
  {
    DigitsMonotone(a, nx);
    DigitsMonotone(b, ny);
  }

  /** The number of a deleted line: `%0{wx}d ` and a blank y column. */
  function XNum(wx: nat, wy: nat, a: nat): string {
    ZeroPad(a, wx) + " " + Repeat(' ', wy + 1)
  }

  /** The number of an added line: a blank x column and `%0{wy}d `. */
  function YNum(wx: nat, wy: nat, b: nat): string {
    Repeat(' ', wx) + " " + ZeroPad(b, wy) + " "
  }

  /** The numbers of a kept line in both texts. */
  function SNum(wx: nat, wy: nat, a: nat, b: nat): string {
    ZeroPad(a, wx) + " " + ZeroPad(b, wy) + " "
  }

  /** A deleted line's number: the x number in the first `wx` characters, then blanks. */
  lemma {:induction false} XNumLayout(wx: nat, wy: nat, a: nat)
    requires |NatToString(a)| <= wx
    ensures |XNum(wx, wy, a)| == wx + wy + 2
    ensures XNum(wx, wy, a)[..wx] == ZeroPad(a, wx) && Blank(XNum(wx, wy, a)[wx..])
  {
    var z, r := ZeroPad(a, wx), Repeat(' ', wy + 1);
    var t := z + " " + r;
    assert t[..wx] == z;
    assert t[wx..] == " " + r;
  }

  /** An added line's number: blanks up to position `wx + 1`, then the y number. */
  lemma {:induction false} YNumLayout(wx: nat, wy: nat, b: nat)
    requires |NatToString(b)| <= wy
    ensures |YNum(wx, wy, b)| == wx + wy + 2
    ensures YNum(wx, wy, b)[wx + 1..] == ZeroPad(b, wy) + " " && Blank(YNum(wx, wy, b)[..wx + 1])
  {
    var r, z := Repeat(' ', wx), ZeroPad(b, wy);
    var t := r + " " + z + " ";
    assert t[wx + 1..] == z + " ";
    assert t[..wx + 1] == r + " ";
  }

  /** A kept line's numbers: the x number, a space, the y number. */
  lemma {:induction false} SNumLayout(wx: nat, wy: nat, a: nat, b: nat)
    requires |NatToString(a)| <= wx && |NatToString(b)| <= wy
    ensures |SNum(wx, wy, a, b)| == wx + wy + 2
    ensures SNum(wx, wy, a, b)[..wx] == ZeroPad(a, wx) && SNum(wx, wy, a, b)[wx + 1..] == ZeroPad(b, wy) + " "
  {
    var za, zb := ZeroPad(a, wx), ZeroPad(b, wy);
    var t := za + " " + zb + " ";
    assert t[..wx] == za;
    assert t[wx + 1..] == zb + " ";
  }

  // ----------------------------------------------------------- edit script

  /** One line of the walk: deleted from x, added from y, or kept. */
  datatype Op = Del(text: string) | Add(text: string) | Same(text: string)

  /** The texts of x that the first `n` lines of the script cover: deleted and kept lines. */
  function OldsUpTo(ops: seq<Op>, n: nat): (r: seq<string>)
    requires n <= |ops|
    ensures |r| <= n
  {
    if n == 0 then [] else OldsUpTo(ops, n - 1) + (if ops[n - 1].Add? then [] else [ops[n - 1].text])
  }

  /** The texts of y that the first `n` lines of the script cover: added and kept lines. */
  function NewsUpTo(ops: seq<Op>, n: nat): (r: seq<string>)
    requires n <= |ops|
    ensures |r| <= n
  {
    if n == 0 then [] else NewsUpTo(ops, n - 1) + (if ops[n - 1].Del? then [] else [ops[n - 1].text])
  }

  /** The kept texts among the first `n` lines of the script. */
  function SamesUpTo(ops: seq<Op>, n: nat): (r: seq<string>)
    requires n <= |ops|
    ensures |r| <= |OldsUpTo(ops, n)| && |r| <= |NewsUpTo(ops, n)|
  {
    if n == 0 then [] else SamesUpTo(ops, n - 1) + (if ops[n - 1].Same? then [ops[n - 1].text] else [])
  }

  /** The literal of a line's number token, `a` and `b` its 1-based numbers in x and y. */
  function Num(op: Op, a: nat, b: nat, wx: nat, wy: nat): string {
    match op
    case Del(_) => XNum(wx, wy, a)
    case Add(_) => YNum(wx, wy, b)
    case Same(_) => SNum(wx, wy, a, b)
  }

  /** The three tokens of one line, `num` the literal of its number token. */
  function Group(op: Op, num: string): (g: seq<Token>)
    ensures |g| == 3 && g[0] == Token(LineNum, num) && g[2].literal == op.text + "\n"
    ensures IsSymbol(g[1].typ) && !IsSymbol(g[2].typ) && g[2].typ != LineNum
  {
    match op
    case Del(t) => [Token(LineNum, num), Token(DelSymbol, "- "), Token(DelLine, t + "\n")]
    case Add(t) => [Token(LineNum, num), Token(AddSymbol, "+ "), Token(AddLine, t + "\n")]
    case Same(t) => [Token(LineNum, num), Token(SameSymbol, "  "), Token(SameLine, t + "\n")]
  }

  /** The group of line `k` of the script, numbered by the lines of x and y before it. */
  function GroupAt(ops: seq<Op>, k: nat, wx: nat, wy: nat): seq<Token>
    requires k < |ops|
  {
    Group(ops[k], Num(ops[k], |OldsUpTo(ops, k)| + 1, |NewsUpTo(ops, k)| + 1, wx, wy))
  }

  function Olds(ops: seq<Op>): seq<string> { OldsUpTo(ops, |ops|) }
  function News(ops: seq<Op>): seq<string> { NewsUpTo(ops, |ops|) }
  function Sames(ops: seq<Op>): seq<string> { SamesUpTo(ops, |ops|) }

  /** The groups of all lines of a script, numbers in columns of widths `wx` and `wy`. */
  function Groups(ops: seq<Op>, wx: nat, wy: nat): (gs: seq<seq<Token>>)
    ensures |gs| == |ops|
  {
    seq(|ops|, k requires 0 <= k < |ops| => GroupAt(ops, k, wx, wy))
  }

  /** The tokens of a script: its groups one after the other. */
  function Render(ops: seq<Op>, wx: nat, wy: nat): seq<Token> {
    Concat(Groups(ops, wx, wy))
  }

  /** A script's prefix covers the same texts whatever follows it. */
  lemma {:induction false} TextsSnoc(ops: seq<Op>, op: Op, n: nat)
    requires n <= |ops|
    ensures OldsUpTo(ops + [op], n) == OldsUpTo(ops, n) && NewsUpTo(ops + [op], n) == NewsUpTo(ops, n)
    ensures SamesUpTo(ops + [op], n) == SamesUpTo(ops, n)
    ensures |OldsUpTo(ops + [op], n)| == |OldsUpTo(ops, n)| && |NewsUpTo(ops + [op], n)| == |NewsUpTo(ops, n)|
  {
    if n > 0 {
      TextsSnoc(ops, op, n - 1);
      assert (ops + [op])[n - 1] == ops[n - 1];
    }
  }

  /** A line's group does not depend on the lines after it. */
  lemma {:induction false} GroupAtSnoc(ops: seq<Op>, op: Op, k: nat, wx: nat, wy: nat)
    requires k < |ops|
    ensures GroupAt(ops + [op], k, wx, wy) == GroupAt(ops, k, wx, wy)
  {
    TextsSnoc(ops, op, k);
    assert (ops + [op])[k] == ops[k];
  }

  /** The group of an appended line is numbered after the lines of x and y the script covers. */
  lemma {:induction false} GroupAtLast(ops: seq<Op>, op: Op, wx: nat, wy: nat)
    ensures GroupAt(ops + [op], |ops|, wx, wy) == Group(op, Num(op, |Olds(ops)| + 1, |News(ops)| + 1, wx, wy))
  {
    TextsSnoc(ops, op, |ops|);
    assert (ops + [op])[|ops|] == op;
  }

  /** Extending a script by one line extends the texts it covers by that line's text. */
  lemma {:induction false} TextsAppend(ops: seq<Op>, op: Op)
    ensures Olds(ops + [op]) == Olds(ops) + (if op.Add? then [] else [op.text])
    ensures News(ops + [op]) == News(ops) + (if op.Del? then [] else [op.text])
    ensures Sames(ops + [op]) == Sames(ops) + (if op.Same? then [op.text] else [])
  {
    TextsSnoc(ops, op, |ops|);
    assert (ops + [op])[|ops|] == op;
  }

  /** Extending a script by one line appends that line's group, numbered after the lines covered so far. */
  lemma {:induction false} RenderAppend(ops: seq<Op>, op: Op, wx: nat, wy: nat)
    ensures Render(ops + [op], wx, wy) == Render(ops, wx, wy) + Group(op, Num(op, |Olds(ops)| + 1, |News(ops)| + 1, wx, wy))
  {
    var gs, hs := Groups(ops, wx, wy), Groups(ops + [op], wx, wy);
    var g := Group(op, Num(op, |Olds(ops)| + 1, |News(ops)| + 1, wx, wy));
    forall k | 0 <= k < |hs|
      ensures hs[k] == (gs + [g])[k]
    {
      if k < |ops| {
        GroupAtSnoc(ops, op, k, wx, wy);
        assert hs[k] == GroupAt(ops + [op], k, wx, wy) && gs[k] == GroupAt(ops, k, wx, wy);
      } else {
        GroupAtLast(ops, op, wx, wy);
        assert hs[k] == GroupAt(ops + [op], k, wx, wy);
      }
    }
    assert hs == gs + [g];
    ConcatAppend(gs, g);
  }

  // ------------------------------------------------------- token layout

  /** Groups of three laid end to end: token `3k + r` is token `r` of group `k`. */
  lemma {:induction false} ConcatGroups(gs: seq<seq<Token>>)
    requires forall k :: 0 <= k < |gs| ==> |gs[k]| == 3
    ensures |Concat(gs)| == 3 * |gs|
    ensures forall k, r :: 0 <= k < |gs| && 0 <= r < 3 ==> Concat(gs)[3 * k + r] == gs[k][r]
    decreases |gs|
  {
    if gs != [] {
      var init, last := gs[..|gs| - 1], gs[|gs| - 1];
      ConcatGroups(init);
      assert gs == init + [last];
      ConcatAppend(init, last);
      forall k, r | 0 <= k < |gs| && 0 <= r < 3
        ensures Concat(gs)[3 * k + r] == gs[k][r]
      {
        if k < |init| {
          assert gs[k] == init[k];
        }
      }
    }
  }

  /** The tokens come in groups of three, one group per line of the script, in order. */
  lemma {:induction false} RenderLayout(ops: seq<Op>, wx: nat, wy: nat)
    ensures |Render(ops, wx, wy)| == 3 * |ops|
    ensures forall k, r :: 0 <= k < |ops| && 0 <= r < 3 ==> Render(ops, wx, wy)[3 * k + r] == GroupAt(ops, k, wx, wy)[r]
  {
    var gs := Groups(ops, wx, wy);
    ConcatGroups(gs);
    forall k, r | 0 <= k < |ops| && 0 <= r < 3
      ensures Render(ops, wx, wy)[3 * k + r] == GroupAt(ops, k, wx, wy)[r]
    {
      assert gs[k] == GroupAt(ops, k, wx, wy);
      assert Concat(gs)[3 * k + r] == gs[k][r];
    }
  }

  /**
   * The third token of each group is the line's text with "\n", and it is
   * a kept line exactly when the script keeps that line.
   */
  lemma {:induction false} LineTokens(ops: seq<Op>, wx: nat, wy: nat)
    ensures |Render(ops, wx, wy)| == 3 * |ops|
    ensures forall k :: 0 <= k < |ops| ==>
      Render(ops, wx, wy)[3 * k + 2].literal == ops[k].text + "\n" &&
      (Render(ops, wx, wy)[3 * k + 2].typ == SameLine <==> ops[k].Same?)
  {
    RenderLayout(ops, wx, wy);
    forall k | 0 <= k < |ops|
      ensures Render(ops, wx, wy)[3 * k + 2].literal == ops[k].text + "\n"
      ensures Render(ops, wx, wy)[3 * k + 2].typ == SameLine <==> ops[k].Same?
    {
      assert Render(ops, wx, wy)[3 * k + 2] == GroupAt(ops, k, wx, wy)[2];
    }
  }

  /** The lines covered before line `k` number no more than those covered before line `n`. */
  lemma {:induction false} UpToGrow(ops: seq<Op>, k: nat, n: nat)
    requires k <= n <= |ops|
    ensures |OldsUpTo(ops, k)| <= |OldsUpTo(ops, n)| && |NewsUpTo(ops, k)| <= |NewsUpTo(ops, n)|
    decreases n
  {
    if k < n {
      UpToGrow(ops, k, n - 1);
    }
  }

  /** A line number literal whose numbers fit their columns is as wide as both columns and two spaces. */
  lemma {:induction false} NumWidth(op: Op, a: nat, b: nat, wx: nat, wy: nat)
    requires op.Add? || |NatToString(a)| <= wx
    requires op.Del? || |NatToString(b)| <= wy
    ensures |Num(op, a, b, wx, wy)| == wx + wy + 2
  {
    match op
    case Del(_) => XNumLayout(wx, wy, a);
    case Add(_) => YNumLayout(wx, wy, b);
    case Same(_) => SNumLayout(wx, wy, a, b);
  }

  /**
   * With columns as wide as `numFormat` makes them for `nx` old and `ny`
   * new lines, every line number token of a script that covers no more
   * lines than that has the same width: both columns and two spaces.
   */
  lemma {:induction false} NumbersAligned(ops: seq<Op>, nx: nat, ny: nat)
    requires |Olds(ops)| <= nx && |News(ops)| <= ny
    ensures var (wx, wy) := NumFormat(nx, ny);
      |Render(ops, wx, wy)| == 3 * |ops| &&
      forall k :: 0 <= k < |ops| ==>
        Render(ops, wx, wy)[3 * k].typ == LineNum && |Render(ops, wx, wy)[3 * k].literal| == wx + wy + 2
  {
    var (wx, wy) := NumFormat(nx, ny);
    RenderLayout(ops, wx, wy);
    forall k | 0 <= k < |ops|
      ensures Render(ops, wx, wy)[3 * k].typ == LineNum && |Render(ops, wx, wy)[3 * k].literal| == wx + wy + 2
    {
      assert Render(ops, wx, wy)[3 * k + 0] == GroupAt(ops, k, wx, wy)[0];
      NumberAligned(ops, nx, ny, k);
    }
  }

  /** `NumbersAligned` for the number token of line `k`. */
  lemma {:induction false} NumberAligned(ops: seq<Op>, nx: nat, ny: nat, k: nat)
    requires |Olds(ops)| <= nx && |News(ops)| <= ny && k < |ops|
    ensures var (wx, wy) := NumFormat(nx, ny);
      GroupAt(ops, k, wx, wy)[0].typ == LineNum && |GroupAt(ops, k, wx, wy)[0].literal| == wx + wy + 2
  {
    var (wx, wy) := NumFormat(nx, ny);
    var op, a, b := ops[k], |OldsUpTo(ops, k)| + 1, |NewsUpTo(ops, k)| + 1;
    UpToGrow(ops, k + 1, |ops|);
    if op.Add? {
      NumFormatFits(nx, ny, 0, b);
    } else if op.Del? {
      NumFormatFits(nx, ny, a, 0);
    } else {
      NumFormatFits(nx, ny, a, b);
    }
    NumWidth(op, a, b, wx, wy);
  }

  // -------------------------------------------------------------- Tokenize

  /** The items `NewText` makes for the lines `ls`. */
  function LineItems(ls: seq<string>): (r: seq<Item>)
    ensures |r| == |ls| && forall i :: 0 <= i < |ls| ==> r[i] == NewLine(ls[i])
  {
    seq(|ls|, i requires 0 <= i < |ls| => NewLine(ls[i]))
  }

  /** An item of `LineItems(ls)` is a line whose hash is the digest of its text. */
  lemma {:induction false} LineItemsLines(ls: seq<string>, e: Item)
    requires e in LineItems(ls)
    ensures e.Line? && e.hash == Digest(e.str)
  {
    var i :| 0 <= i < |ls| && LineItems(ls)[i] == e;
  }

  /** The items `NewText(s)` yields are the lines of `s`. */
  lemma {:induction false} TextItems(cs: seq<Item>, s: string)
    requires |cs| == |ScanLines(s)| && forall i :: 0 <= i < |cs| ==> cs[i] == NewLine(ScanLines(s)[i])
    ensures cs == LineItems(ScanLines(s))
  {
  }

  /** A list drawn from the lines of two texts holds only lines whose hash is the digest of their text. */
  lemma {:induction false} LcsLines(lcs: seq<Item>, xs: seq<string>, ys: seq<string>)
    requires forall e :: e in lcs ==> e in LineItems(xs) || e in LineItems(ys)
    ensures forall t :: 0 <= t < |lcs| ==> lcs[t].Line? && lcs[t].hash == Digest(lcs[t].str)
  {
    forall t | 0 <= t < |lcs| ensures lcs[t].Line? && lcs[t].hash == Digest(lcs[t].str) {
      if lcs[t] in LineItems(xs) {
        LineItemsLines(xs, lcs[t]);
      } else {
        LineItemsLines(ys, lcs[t]);
      }
    }
  }

  /**
   * One step of the walk: a script that covers `xs[..i]`, `ys[..j]` and
   * `ls[..k]`, extended by the next line, covers one more line of each
   * list the line is taken from, and renders one more group.
   */
  lemma {:induction false} WalkStep(ops: seq<Op>, op: Op, wx: nat, wy: nat,
                                    xs: seq<string>, ys: seq<string>, ls: seq<string>, i: nat, j: nat, k: nat)
    requires i <= |xs| && j <= |ys| && k <= |ls|
    requires Olds(ops) == xs[..i] && News(ops) == ys[..j] && Sames(ops) == ls[..k]
    requires op.Add? || (i < |xs| && xs[i] == op.text)
    requires op.Del? || (j < |ys| && ys[j] == op.text)
    requires !op.Same? || (k < |ls| && ls[k] == op.text)
    ensures Olds(ops + [op]) == xs[..if op.Add? then i else i + 1]
    ensures News(ops + [op]) == ys[..if op.Del? then j else j + 1]
    ensures Sames(ops + [op]) == ls[..if op.Same? then k + 1 else k]
    ensures Render(ops + [op], wx, wy) == Render(ops, wx, wy) + Group(op, Num(op, i + 1, j + 1, wx, wy))
  {
    TextsAppend(ops, op);
    RenderAppend(ops, op, wx, wy);
    if !op.Add? {
      PrefixSnoc(xs, i);
    }
    if !op.Del? {
      PrefixSnoc(ys, j);
    }
    if op.Same? {
      PrefixSnoc(ls, k);
    }
  }

  /** A line `equal` to an LCS line made by `NewLine` has the same text. */
  lemma {:induction false} EqualText(a: string, l: Item)
    requires l.Line? && l.hash == Digest(l.str) && Equal(NewLine(a), l)
    ensures a == l.str
  {
    DigestInjective(a, l.str);
  }

  lemma {:induction false} PrefixSnoc<T>(s: seq<T>, i: nat)
    requires i < |s|
    ensures s[..i + 1] == s[..i] + [s[i]]
  {
  }

  /**
   * The rule by which the walk picks each line, with `ls` the texts of the
   * LCS: the lines before each line of the script keep fewer LCS lines
   * than `ls` has; a deleted line is not the next LCS line; and a line is
   * added only when the next old line is the next LCS line and the added
   * one is not.
   */
  ghost predicate Decided(ops: seq<Op>, xs: seq<string>, ls: seq<string>) {
    forall n :: 0 <= n < |ops| ==> DecidedAt(ops, n, xs, ls)
  }

  ghost predicate DecidedAt(ops: seq<Op>, n: nat, xs: seq<string>, ls: seq<string>)
    requires n < |ops|
  {
    var k, i := |SamesUpTo(ops, n)|, |OldsUpTo(ops, n)|;
    k < |ls| &&
    (ops[n].Del? ==> ops[n].text != ls[k]) &&
    (ops[n].Add? ==> i < |xs| && xs[i] == ls[k] && ops[n].text != ls[k])
  }

  /** The rule holds for a script extended by a line that follows it. */
  lemma {:induction false} DecidedSnoc(ops: seq<Op>, op: Op, xs: seq<string>, ls: seq<string>)
    requires Decided(ops, xs, ls)
    requires |Sames(ops)| < |ls|
    requires op.Del? ==> op.text != ls[|Sames(ops)|]
    requires op.Add? ==> |Olds(ops)| < |xs| && xs[|Olds(ops)|] == ls[|Sames(ops)|] && op.text != ls[|Sames(ops)|]
    ensures Decided(ops + [op], xs, ls)
  {
    forall n | 0 <= n < |ops| + 1 ensures DecidedAt(ops + [op], n, xs, ls) {
      TextsSnoc(ops, op, n);
      if n < |ops| {
        assert (ops + [op])[n] == ops[n];
        assert DecidedAt(ops, n, xs, ls);
      } else {
        assert (ops + [op])[n] == op;
      }
    }
  }

  /**
   * A script covers at least as many old lines, and new lines, as it keeps;
   * exactly as many old lines when it deletes none, and exactly as many new
   * lines when it adds none.
   */
  lemma {:induction false} CoverCount(ops: seq<Op>, n: nat)
    requires n <= |ops|
    ensures |OldsUpTo(ops, n)| == |SamesUpTo(ops, n)| ==> forall m :: 0 <= m < n ==> !ops[m].Del?
    ensures |NewsUpTo(ops, n)| == |SamesUpTo(ops, n)| ==> forall m :: 0 <= m < n ==> !ops[m].Add?
    ensures (forall m :: 0 <= m < n ==> ops[m].Same?) ==> |SamesUpTo(ops, n)| == n
  {
    if n > 0 {
      CoverCount(ops, n - 1);
    }
  }

  /** An item `equal` to an LCS line exactly when the line's text is the LCS line's. */
  lemma {:induction false} EqualIff(a: string, l: Item)
    requires l.Line? && l.hash == Digest(l.str)
    ensures Equal(NewLine(a), l) <==> a == l.str
  {
    DigestInjective(a, l.str);
  }

  /** An LCS of a list with itself is that list, item by item. */
  lemma {:induction false} SelfLcs(s: seq<Item>, xi: seq<Item>)
    requires CommonWithEnds(s, xi, xi)
    ensures Pointwise(s, xi)
  {
    PointwiseRefl(xi);
    assert xi[..|xi|] == xi;
    PrefixLenIs(xi, xi, |xi|);
    if s != [] {
      HashSubNonEmpty(s, xi);
    }
    assert s[..|xi|] == s;
  }

  /**
   * `Tokenize(x, y)`. Besides the tokens it yields, as ghost results, the
   * LCS `s` it walks and the edit script `ops` the tokens render. The
   * script keeps every line of `s`, picks each line by the rule of
   * `Decided`, covers a prefix of the lines of x and of y, and ends with a
   * kept line: lines after the last LCS line are not rendered, and when the
   * LCS is empty nothing is. Tokenizing a text against itself keeps every
   * line.
   *
   * The LCS is that of `DiffLcs.Lcs`, whose prefix scan is bounded by both
   * lists; the Go code panics instead when the new lines are a proper
   * prefix of the old ones (see `DiffLcs.ScaleDownPanics`).
   */
  method Tokenize(x: string, y: string) returns (ts: seq<Token>, ghost ops: seq<Op>, ghost s: seq<Item>)
    ensures forall t :: 0 <= t < |s| ==> s[t].Line?
    ensures CommonWithEnds(s, LineItems(ScanLines(x)), LineItems(ScanLines(y)))
    ensures ts == Render(ops, DecimalWidth(|ScanLines(x)|), DecimalWidth(|ScanLines(y)|))
    ensures Walked(ops, ScanLines(x), ScanLines(y), Strs(s))
    ensures x == y ==> |ops| == |ScanLines(x)| && forall n :: 0 <= n < |ops| ==> ops[n].Same?
  {
    var xls := NewText(x);
    var yls := NewText(y);
    ghost var xs, ys := ScanLines(x), ScanLines(y);
    var xi: seq<Item> := xls;
    var yi: seq<Item> := yls;
    TextItems(xls, x);
    TextItems(yls, y);
    var lcs := Lcs(xi, yi);
    s := lcs;
    LcsLines(lcs, xs, ys);
    var w := NumFormat(|xls|, |yls|);
    ts, ops := Walk(xi, yi, lcs, w.0, w.1, xs, ys);
    if x == y {
      WalkSelf(ops, xs, lcs);
    }
  }

  /** Walking a list of lines against itself keeps every line. */
  lemma {:induction false} WalkSelf(ops: seq<Op>, xs: seq<string>, lcs: seq<Item>)
    requires forall t :: 0 <= t < |lcs| ==> lcs[t].Line? && lcs[t].hash == Digest(lcs[t].str)
    requires CommonWithEnds(lcs, LineItems(xs), LineItems(xs))
    requires Walked(ops, xs, xs, Strs(lcs))
    ensures |ops| == |xs| && forall n :: 0 <= n < |ops| ==> ops[n].Same?
  {
    SelfStrs(xs, lcs);
    CoverCount(ops, |ops|);
  }

  /** The LCS of the lines with themselves holds the lines themselves. */
  lemma SelfStrs(xs: seq<string>, lcs: seq<Item>)
    requires forall t :: 0 <= t < |lcs| ==> lcs[t].Line? && lcs[t].hash == Digest(lcs[t].str)
    requires CommonWithEnds(lcs, LineItems(xs), LineItems(xs))
    ensures Strs(lcs) == xs
  {
    var xi := LineItems(xs);
    SelfLcs(lcs, xi);
    forall t | 0 <= t < |lcs| ensures Strs(lcs)[t] == xs[t] {
      PointwiseAt(lcs, xi, t);
      EqualIff(xs[t], lcs[t]);
    }
  }

  /** What the walk keeps: the script so far covers `xs[..i]`, `ys[..j]` and `ls[..k]`, and the rest of the LCS occurs in the rest of both lists. */
  ghost predicate WalkInv(ops: seq<Op>, xls: seq<Item>, yls: seq<Item>, lcs: seq<Item>, xs: seq<string>, ys: seq<string>,
                          ls: seq<string>, i: nat, j: nat, k: nat)
  {
    i <= |xls| && j <= |yls| && k <= |lcs| && |xs| == |xls| && |ys| == |yls| && |ls| == |lcs| &&
    Olds(ops) == xs[..i] && News(ops) == ys[..j] && Sames(ops) == ls[..k] &&
    HashSub(lcs[k..], xls[i..]) && HashSub(lcs[k..], yls[j..]) &&
    Decided(ops, xs, ls) &&
    (k == |lcs| ==> ops == [] || ops[|ops| - 1].Same?)
  }

  /** What every turn of the walk has in scope: the lists are lines, the invariant holds and no list is used up. */
  ghost predicate WalkPre(ops: seq<Op>, xls: seq<Item>, yls: seq<Item>, lcs: seq<Item>,
                          xs: seq<string>, ys: seq<string>, i: nat, j: nat, k: nat)
  {
    xls == LineItems(xs) && yls == LineItems(ys) &&
    (forall t :: 0 <= t < |lcs| ==> lcs[t].Line? && lcs[t].hash == Digest(lcs[t].str)) &&
    WalkInv(ops, xls, yls, lcs, xs, ys, Strs(lcs), i, j, k) &&
    i < |xls| && j < |yls| && k < |lcs|
  }

  /** A turn that deletes the old line keeps `WalkInv` and renders its group. */
  lemma {:induction false} WalkDel(ops: seq<Op>, xls: seq<Item>, yls: seq<Item>, lcs: seq<Item>,
                                   xs: seq<string>, ys: seq<string>, i: nat, j: nat, k: nat, wx: nat, wy: nat)
    requires WalkPre(ops, xls, yls, lcs, xs, ys, i, j, k)
    requires !Equal(xls[i], lcs[k])
    ensures WalkInv(ops + [Del(xls[i].str)], xls, yls, lcs, xs, ys, Strs(lcs), i + 1, j, k)
    ensures Render(ops + [Del(xls[i].str)], wx, wy) == Render(ops, wx, wy) + Group(Del(xls[i].str), XNum(wx, wy, i + 1))
  {
    var ls := Strs(lcs);
    var op := Del(xls[i].str);
    EqualIff(xs[i], lcs[k]);
    assert xls[i] == NewLine(xs[i]) && ls[k] == lcs[k].str;
    assert lcs[k..][0] == lcs[k] && xls[i..][0] == xls[i];
    assert xls[i..][1..] == xls[i + 1..];
    HashSubSkip(lcs[k..], xls[i..]);
    DecidedSnoc(ops, op, xs, ls);
    WalkStep(ops, op, wx, wy, xs, ys, ls, i, j, k);
  }

  /** A turn that adds the new line keeps `WalkInv` and renders its group. */
  lemma {:induction false} WalkAdd(ops: seq<Op>, xls: seq<Item>, yls: seq<Item>, lcs: seq<Item>,
                                   xs: seq<string>, ys: seq<string>, i: nat, j: nat, k: nat, wx: nat, wy: nat)
    requires WalkPre(ops, xls, yls, lcs, xs, ys, i, j, k)
    requires Equal(xls[i], lcs[k]) && !Equal(yls[j], lcs[k])
    ensures WalkInv(ops + [Add(yls[j].str)], xls, yls, lcs, xs, ys, Strs(lcs), i, j + 1, k)
    ensures Render(ops + [Add(yls[j].str)], wx, wy) == Render(ops, wx, wy) + Group(Add(yls[j].str), YNum(wx, wy, j + 1))
  {
    var ls := Strs(lcs);
    var op := Add(yls[j].str);
    EqualIff(xs[i], lcs[k]);
    EqualIff(ys[j], lcs[k]);
    assert xls[i] == NewLine(xs[i]) && yls[j] == NewLine(ys[j]) && ls[k] == lcs[k].str;
    assert lcs[k..][0] == lcs[k] && yls[j..][0] == yls[j];
    assert yls[j..][1..] == yls[j + 1..];
    HashSubSkip(lcs[k..], yls[j..]);
    DecidedSnoc(ops, op, xs, ls);
    WalkStep(ops, op, wx, wy, xs, ys, ls, i, j, k);
  }

  /** A turn that keeps both lines keeps `WalkInv` and renders their group. */
  lemma {:induction false} WalkSame(ops: seq<Op>, xls: seq<Item>, yls: seq<Item>, lcs: seq<Item>,
                                    xs: seq<string>, ys: seq<string>, i: nat, j: nat, k: nat, wx: nat, wy: nat)
    requires WalkPre(ops, xls, yls, lcs, xs, ys, i, j, k)
    requires Equal(xls[i], lcs[k]) && Equal(yls[j], lcs[k])
    ensures WalkInv(ops + [Same(lcs[k].str)], xls, yls, lcs, xs, ys, Strs(lcs), i + 1, j + 1, k + 1)
    ensures Render(ops + [Same(lcs[k].str)], wx, wy) == Render(ops, wx, wy) + Group(Same(lcs[k].str), SNum(wx, wy, i + 1, j + 1))
  {
    var ls := Strs(lcs);
    var op := Same(lcs[k].str);
    EqualIff(xs[i], lcs[k]);
    EqualIff(ys[j], lcs[k]);
    assert xls[i] == NewLine(xs[i]) && yls[j] == NewLine(ys[j]) && ls[k] == lcs[k].str;
    assert lcs[k..][0] == lcs[k] && xls[i..][0] == xls[i] && yls[j..][0] == yls[j];
    assert xls[i..][1..] == xls[i + 1..] && yls[j..][1..] == yls[j + 1..] && lcs[k..][1..] == lcs[k + 1..];
    HashSubRest(lcs[k..], xls[i..]);
    HashSubRest(lcs[k..], yls[j..]);
    DecidedSnoc(ops, op, xs, ls);
    WalkStep(ops, op, wx, wy, xs, ys, ls, i, j, k);
  }

  /**
   * What a finished walk promises, `ls` the texts of the LCS: the script
   * covers a prefix of the old and of the new lines, keeps exactly the
   * LCS, picks each line by the rule of `Decided`, and ends with a kept
   * line.
   */
  ghost predicate Walked(ops: seq<Op>, xs: seq<string>, ys: seq<string>, ls: seq<string>) {
    Olds(ops) <= xs && News(ops) <= ys && Sames(ops) == ls &&
    Decided(ops, xs, ls) &&
    (ops == [] || ops[|ops| - 1].Same?)
  }

  /** When the walk stops, the LCS is used up: the script keeps all of it and ends with a kept line. */
  lemma {:induction false} WalkDone(ops: seq<Op>, xls: seq<Item>, yls: seq<Item>, lcs: seq<Item>,
                                    xs: seq<string>, ys: seq<string>, i: nat, j: nat, k: nat)
    requires forall t :: 0 <= t < |lcs| ==> lcs[t].Line?
    requires WalkInv(ops, xls, yls, lcs, xs, ys, Strs(lcs), i, j, k)
    requires !(i < |xls| && j < |yls| && k < |lcs|)
    ensures k == |lcs| && Walked(ops, xs, ys, Strs(lcs))
  {
    if k < |lcs| {
      assert false;
    }
    assert Strs(lcs)[..k] == Strs(lcs);
  }

  /**
   * One turn of the loop of `Tokenize`: an old line that is not the next
   * LCS line is deleted, else a new line that is not is added, else both
   * are kept; the line's three tokens are appended.
   */
  method WalkTurn(xls: seq<Item>, yls: seq<Item>, lcs: seq<Item>, wx: nat, wy: nat, ghost xs: seq<string>, ghost ys: seq<string>,
                  ts: seq<Token>, ghost ops: seq<Op>, i: nat, j: nat, k: nat)
    returns (ts': seq<Token>, ghost ops': seq<Op>, i': nat, j': nat, k': nat)
    requires WalkPre(ops, xls, yls, lcs, xs, ys, i, j, k) && ts == Render(ops, wx, wy)
    ensures WalkInv(ops', xls, yls, lcs, xs, ys, Strs(lcs), i', j', k') && ts' == Render(ops', wx, wy)
    ensures i <= i' && j <= j' && i + j < i' + j'
  {
    if !Equal(xls[i], lcs[k]) {
      ts', ops' := TurnDel(xls, yls, lcs, wx, wy, xs, ys, ts, ops, i, j, k);
      i', j', k' := i + 1, j, k;
    } else if !Equal(yls[j], lcs[k]) {
      ts', ops' := TurnAdd(xls, yls, lcs, wx, wy, xs, ys, ts, ops, i, j, k);
      i', j', k' := i, j + 1, k;
    } else {
      ts', ops' := TurnSame(xls, yls, lcs, wx, wy, xs, ys, ts, ops, i, j, k);
      i', j', k' := i + 1, j + 1, k + 1;
    }
  }

  /** The turn that deletes the old line: its line number, "- " and the line. */
  method TurnDel(xls: seq<Item>, yls: seq<Item>, lcs: seq<Item>, wx: nat, wy: nat, ghost xs: seq<string>, ghost ys: seq<string>,
                 ts: seq<Token>, ghost ops: seq<Op>, i: nat, j: nat, k: nat)
    returns (ts': seq<Token>, ghost ops': seq<Op>)
    requires WalkPre(ops, xls, yls, lcs, xs, ys, i, j, k) && ts == Render(ops, wx, wy)
    requires !Equal(xls[i], lcs[k])
    ensures WalkInv(ops', xls, yls, lcs, xs, ys, Strs(lcs), i + 1, j, k) && ts' == Render(ops', wx, wy)
  {
    WalkDel(ops, xls, yls, lcs, xs, ys, i, j, k, wx, wy);
    ts' := ts + [Token(LineNum, XNum(wx, wy, i + 1)), Token(DelSymbol, "- "), Token(DelLine, xls[i].str + "\n")];
    ops' := ops + [Del(xls[i].str)];
  }

  /** The turn that adds the new line: its line number, "+ " and the line. */
  method TurnAdd(xls: seq<Item>, yls: seq<Item>, lcs: seq<Item>, wx: nat, wy: nat, ghost xs: seq<string>, ghost ys: seq<string>,
                 ts: seq<Token>, ghost ops: seq<Op>, i: nat, j: nat, k: nat)
    returns (ts': seq<Token>, ghost ops': seq<Op>)
    requires WalkPre(ops, xls, yls, lcs, xs, ys, i, j, k) && ts == Render(ops, wx, wy)
    requires Equal(xls[i], lcs[k]) && !Equal(yls[j], lcs[k])
    ensures WalkInv(ops', xls, yls, lcs, xs, ys, Strs(lcs), i, j + 1, k) && ts' == Render(ops', wx, wy)
  {
    WalkAdd(ops, xls, yls, lcs, xs, ys, i, j, k, wx, wy);
    ts' := ts + [Token(LineNum, YNum(wx, wy, j + 1)), Token(AddSymbol, "+ "), Token(AddLine, yls[j].str + "\n")];
    ops' := ops + [Add(yls[j].str)];
  }

  /** The turn that keeps both lines: both line numbers, two spaces and the line. */
  method TurnSame(xls: seq<Item>, yls: seq<Item>, lcs: seq<Item>, wx: nat, wy: nat, ghost xs: seq<string>, ghost ys: seq<string>,
                  ts: seq<Token>, ghost ops: seq<Op>, i: nat, j: nat, k: nat)
    returns (ts': seq<Token>, ghost ops': seq<Op>)
    requires WalkPre(ops, xls, yls, lcs, xs, ys, i, j, k) && ts == Render(ops, wx, wy)
    requires Equal(xls[i], lcs[k]) && Equal(yls[j], lcs[k])
    ensures WalkInv(ops', xls, yls, lcs, xs, ys, Strs(lcs), i + 1, j + 1, k + 1) && ts' == Render(ops', wx, wy)
  {
    WalkSame(ops, xls, yls, lcs, xs, ys, i, j, k, wx, wy);
    ts' := ts + [Token(LineNum, SNum(wx, wy, i + 1, j + 1)), Token(SameSymbol, "  "), Token(SameLine, lcs[k].str + "\n")];
    ops' := ops + [Same(lcs[k].str)];
  }

  /**
   * The loop of `Tokenize`: `i`, `j` and `k` walk the old lines, the new
   * lines and the LCS, one `WalkTurn` at a time. Since the LCS occurs in both lists, the walk uses it up before either
   * list runs out, and stops right there.
   */
  method Walk(xls: seq<Item>, yls: seq<Item>, lcs: seq<Item>, wx: nat, wy: nat, ghost xs: seq<string>, ghost ys: seq<string>)
    returns (ts: seq<Token>, ghost ops: seq<Op>)
    requires xls == LineItems(xs) && yls == LineItems(ys)
    requires forall t :: 0 <= t < |lcs| ==> lcs[t].Line? && lcs[t].hash == Digest(lcs[t].str)
    requires HashSub(lcs, xls) && HashSub(lcs, yls)
    ensures ts == Render(ops, wx, wy) && Walked(ops, xs, ys, Strs(lcs))
  {
    var i: nat, j: nat, k: nat := 0, 0, 0;
    ts, ops := [], [];
    ghost var ls := Strs(lcs);
    assert lcs[0..] == lcs && xls[0..] == xls && yls[0..] == yls;
    while i < |xls| && j < |yls| && k < |lcs|
      invariant WalkInv(ops, xls, yls, lcs, xs, ys, ls, i, j, k)
      invariant ts == Render(ops, wx, wy)
      decreases |xls| - i + |yls| - j
    {
      assert WalkPre(ops, xls, yls, lcs, xs, ys, i, j, k);
      ts, ops, i, j, k := WalkTurn(xls, yls, lcs, wx, wy, xs, ys, ts, ops, i, j, k);
    }
    WalkDone(ops, xls, yls, lcs, xs, ys, i, j, k);
  }
}
