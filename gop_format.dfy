/**
 * Layout of the pretty printer (lib/gop/format.go): `Format` turns a list
 * of tokens into indented, coloured text, keeping a running nesting depth,
 * and `replaceEscaped` rewrites one escaped character of a quoted string.
 *
 * `readableStr`, which depends on Go's `%#v` quoting, is a parameter of
 * `Format`; so is the theme, with `None` standing for a nil theme.
 */
module GopFormat {
  import opened Strings
  import GopColor

  datatype Option<T> = None | Some(value: T)

  /** The token kinds, in their declaration order, and the `Comment` kind the themes colour. */
  datatype Type =
    | Nil | Bool | Number | Float | Complex | String | Byte | Rune | Chan | Func
    | UnsafePointer | Len | TypeName | ParenOpen | ParenClose
    | PointerOpen | PointerClose | PointerCircular
    | SliceOpen | SliceItem | InlineComma | Comma | SliceClose
    | MapOpen | MapKey | Colon | MapClose
    | StructOpen | StructKey | StructField | StructClose
    | Comment

  /** `Token`: a kind and the text it prints. */
  datatype Token = Token(ty: Type, literal: string)

  /** `White`, the SGR code 37, which the default theme gives to comments. */
  const White: GopColor.Color := 37

  /** `DefaultTheme`: type names cyan, booleans and channels blue, text yellow, numbers green, functions magenta, comments white, nil red, the rest uncoloured. */
  function DefaultTheme(t: Type): (c: GopColor.Color)
    ensures c == GopColor.None || GopColor.Red <= c <= White
    ensures c == GopColor.None <==> !(t in [TypeName, Bool, Chan, Rune, Byte, String, Number, Func, Comment, Nil])
  {
    match t
    case TypeName => GopColor.Cyan
    case Bool | Chan => GopColor.Blue
    case Rune | Byte | String => GopColor.Yellow
    case Number => GopColor.Green
    case Func => GopColor.Magenta
    case Comment => White
    case Nil => GopColor.Red
    case _ => GopColor.None
  }

  /** `NoTheme`: nothing is coloured. */
  function NoTheme(t: Type): (c: GopColor.Color)
    ensures c == GopColor.None
  {
    GopColor.None
  }

  /** The theme `Format` uses: the given one, or `DefaultTheme` for a nil theme. */
  function ThemeOf(theme: Option<Type -> GopColor.Color>): Type -> GopColor.Color {
    if theme.Some? then theme.value else DefaultTheme
  }

  // ------------------------------------------------------------------ oneOf

  /** `oneOf`: whether `t` is one of `list`. */
  method OneOf(t: Type, list: seq<Type>) returns (b: bool)
    ensures b <==> t in list
  {
    for k := 0 to |list|
      invariant t !in list[..k]
    {
      if t == list[k] {
        return true;
      }
    }
    assert list[..|list|] == list;
    return false;
  }

  // ------------------------------------------------------------------ depth

  const OpenKinds: seq<Type> := [SliceOpen, MapOpen, StructOpen]
  const CloseKinds: seq<Type> := [SliceClose, MapClose, StructClose]
  const KeyKinds: seq<Type> := [SliceItem, MapKey, StructKey]

  predicate IsOpen(t: Type) {
    t in OpenKinds
  }

  predicate IsClose(t: Type) {
    t in CloseKinds
  }

  /** The number of open tokens among the first `n`. */
  function OpenCount(ts: seq<Token>, n: nat): (c: nat)
    requires n <= |ts|
    ensures c <= n
  {
    if n == 0 then 0 else OpenCount(ts, n - 1) + (if IsOpen(ts[n - 1].ty) then 1 else 0)
  }

  /** The number of close tokens among the first `n`. */
  function CloseCount(ts: seq<Token>, n: nat): (c: nat)
    requires n <= |ts|
    ensures c <= n
  {
    if n == 0 then 0 else CloseCount(ts, n - 1) + (if IsClose(ts[n - 1].ty) then 1 else 0)
  }

  function Min(a: nat, b: nat): nat {
    if a <= b then a else b
  }

  /**
   * The depth before token `i` is printed: every open token up to `i`
   * raises it, and every close token after the first, up to and
   * including token `i + 1`, lowers it, one step before the close token
   * itself is printed.
   */
  function Depth(ts: seq<Token>, i: nat): int
    requires i < |ts|
  {
    OpenCount(ts, i + 1) - (CloseCount(ts, Min(i + 2, |ts|)) - CloseCount(ts, 1))
  }

  /** The depth the loop carries into step `i`, before the step's own changes. */
  function Carried(ts: seq<Token>, i: nat): int
    requires i <= |ts|
  {
    if i == 0 then 0 else Depth(ts, i - 1)
  }

  /** Every prefix holds at least as many open tokens as close tokens. */
  predicate WellNested(ts: seq<Token>) {
    forall n :: 0 <= n <= |ts| ==> CloseCount(ts, n) <= OpenCount(ts, n)
  }

  /** In a well-nested list the depth never drops below zero. */
  lemma {:induction false} DepthNonNegative(ts: seq<Token>, i: nat)
    requires WellNested(ts) && i < |ts|
    ensures Depth(ts, i) >= 0
  {
    assert CloseCount(ts, 1) <= OpenCount(ts, 1);
    assert CloseCount(ts, 1) == 0 by {
      if IsClose(ts[0].ty) {
        assert false;
      }
    }
    if i + 2 <= |ts| {
      assert CloseCount(ts, i + 1) <= OpenCount(ts, i + 1);
      assert CloseCount(ts, i + 2) <= OpenCount(ts, i + 2);
    } else {
      assert CloseCount(ts, |ts|) <= OpenCount(ts, |ts|);
    }
  }

  /** A well-nested list with as many close tokens as open ones ends at depth zero. */
  lemma {:induction false} BalancedEndsAtZero(ts: seq<Token>)
    requires WellNested(ts) && |ts| > 0
    requires OpenCount(ts, |ts|) == CloseCount(ts, |ts|)
    ensures Depth(ts, |ts| - 1) == 0
  {
    assert CloseCount(ts, 1) <= OpenCount(ts, 1);
    assert CloseCount(ts, 1) == 0 by {
      if IsClose(ts[0].ty) {
        assert false;
      }
    }
  }

  // ----------------------------------------------------------------- layout

  const IndentUnit: string := "    "

  /** `strings.Repeat(indentUnit, n)`: `n` indent units, `4 * n` spaces. */
  function Indent(n: nat): (r: string)
    ensures |r| == 4 * n
    ensures forall k :: 0 <= k < |r| ==> r[k] == ' '
  {
    if n == 0 then "" else IndentUnit + Indent(n - 1)
  }

  /**
   * What one token prints at a depth, in a colour. Open tokens and commas
   * end their line; colons, inline commas and channel arrows are followed
   * by a space; items and keys print only the indentation, and close
   * tokens the indentation and then their literal; strings go through
   * `readable`. An indentation at a negative depth is the `panic` of
   * `strings.Repeat`, here `None`.
   */
  function Piece(t: Token, depth: int, color: GopColor.Color, readable: (int, string) -> string): (r: Option<string>)
    ensures r.None? <==> (t.ty in KeyKinds || IsClose(t.ty)) && depth < 0
  {
    match t.ty
    case SliceOpen | MapOpen | StructOpen => Some(GopColor.ColorStr(color, t.literal) + "\n")
    case SliceItem | MapKey | StructKey => if depth < 0 then None else Some(Indent(depth))
    case Colon | InlineComma | Chan => Some(GopColor.ColorStr(color, t.literal) + " ")
    case Comma => Some(GopColor.ColorStr(color, t.literal) + "\n")
    case SliceClose | MapClose | StructClose =>
      if depth < 0 then None else Some(Indent(depth) + GopColor.ColorStr(color, t.literal))
    case String => Some(GopColor.ColorStr(color, readable(depth, t.literal)))
    case _ => Some(GopColor.ColorStr(color, t.literal))
  }

  /**
   * The layout rules: open tokens and commas end their line, colons,
   * inline commas and channel arrows are followed by a space, and items
   * and keys are `4 * depth` spaces.
   */
  lemma PieceRules(t: Token, depth: int, color: GopColor.Color, readable: (int, string) -> string)
    ensures var r := Piece(t, depth, color, readable);
      && (r.Some? && (IsOpen(t.ty) || t.ty == Comma) ==>
            |r.value| > 0 && r.value[|r.value| - 1] == '\n')
      && (r.Some? && t.ty in [Colon, InlineComma, Chan] ==>
            |r.value| > 0 && r.value[|r.value| - 1] == ' ')
      && (r.Some? && t.ty in KeyKinds ==>
            |r.value| == 4 * depth && forall k :: 0 <= k < |r.value| ==> r.value[k] == ' ')
  {
  }

  /**
   * Without colour, every token but strings, items and keys prints its
   * literal first, after the indentation for a close token.
   */
  lemma PlainPiece(t: Token, depth: int, readable: (int, string) -> string)
    requires t.ty !in KeyKinds && t.ty != String
    requires Piece(t, depth, GopColor.None, readable).Some?
    ensures Strings.HasPrefix(Piece(t, depth, GopColor.None, readable).value,
                              if IsClose(t.ty) then Indent(depth) + t.literal else t.literal)
  {
    var r := Piece(t, depth, GopColor.None, readable).value;
    if IsClose(t.ty) {
      assert r == Indent(depth) + t.literal;
      assert r[..|Indent(depth) + t.literal|] == Indent(depth) + t.literal;
    } else if IsOpen(t.ty) || t.ty == Comma {
      assert r == t.literal + "\n";
      assert r[..|t.literal|] == t.literal;
    } else if t.ty in [Colon, InlineComma, Chan] {
      assert r == t.literal + " ";
      assert r[..|t.literal|] == t.literal;
    } else {
      assert r == t.literal;
    }
  }

  /** The text of the first `n` tokens, each printed at its depth; `None` once a piece panics. */
  function Layout(ts: seq<Token>, theme: Type -> GopColor.Color, readable: (int, string) -> string, n: nat): Option<string>
    requires n <= |ts|
  {
    if n == 0 then Some("")
    else
      match Layout(ts, theme, readable, n - 1)
      case None => None
      case Some(prefix) =>
        match Piece(ts[n - 1], Depth(ts, n - 1), theme(ts[n - 1].ty), readable)
        case None => None
        case Some(p) => Some(prefix + p)
  }

  /** Once a piece panics, so does every longer prefix. */
  lemma {:induction false} LayoutStaysNone(ts: seq<Token>, theme: Type -> GopColor.Color, readable: (int, string) -> string, i: nat, n: nat)
    requires i <= n <= |ts| && Layout(ts, theme, readable, i).None?
    ensures Layout(ts, theme, readable, n).None?
    decreases n - i
  {
    if i < n {
      LayoutStaysNone(ts, theme, readable, i + 1, n);
    }
  }

  /** A well-nested token list never makes `Format` panic. */
  lemma {:induction false} WellNestedLayout(ts: seq<Token>, theme: Type -> GopColor.Color, readable: (int, string) -> string, n: nat)
    requires WellNested(ts) && n <= |ts|
    ensures Layout(ts, theme, readable, n).Some?
  {
    if n > 0 {
      WellNestedLayout(ts, theme, readable, n - 1);
      DepthNonNegative(ts, n - 1);
      var p := Piece(ts[n - 1], Depth(ts, n - 1), theme(ts[n - 1].ty), readable);
      assert p.Some?;
      LayoutStep(ts, theme, readable, n - 1, Layout(ts, theme, readable, n - 1).value, p);
    }
  }

  /**
   * `Format`: the tokens printed one after another, each at the depth the
   * running counter holds; a nil theme is `DefaultTheme`. `None` is the
   * panic of an indentation at a negative depth.
   */
  method Format(ts: seq<Token>, theme: Option<Type -> GopColor.Color>, readable: (int, string) -> string)
    returns (r: Option<string>)
    ensures r == Layout(ts, ThemeOf(theme), readable, |ts|)
  {
    var th: Type -> GopColor.Color := if theme.None? then DefaultTheme else theme.value;
    var out := "";
    var depth := 0;
    var i := 0;
    while i < |ts|
      invariant i <= |ts|
      invariant Layout(ts, th, readable, i) == Some(out)
      invariant depth == Carried(ts, i)
    {
      var t := ts[i];
      depth := NextDepth(ts, i, depth);
      var p := PrintPiece(t, depth, th(t.ty), readable);
      LayoutStep(ts, th, readable, i, out, p);
      if p.None? {
        LayoutStaysNone(ts, th, readable, i + 1, |ts|);
        return None;
      }
      out := out + p.value;
      i := i + 1;
    }
    return Some(out);
  }

  /** The depth counter of `Format` at token `i`: up by one at an open token, down by one before a close token. */
  method NextDepth(ts: seq<Token>, i: nat, carried: int) returns (depth: int)
    requires i < |ts| && carried == Carried(ts, i)
    ensures depth == Depth(ts, i) && depth == Carried(ts, i + 1)
  {
    depth := carried;
    var open := OneOf(ts[i].ty, OpenKinds);
    if open {
      depth := depth + 1;
    }
    var close := false;
    if i < |ts| - 1 {
      close := OneOf(ts[i + 1].ty, CloseKinds);
    }
    if close {
      depth := depth - 1;
    }
    DepthStep(ts, i, open, close, depth);
  }

  /** The layout of one more token is the layout so far and that token's piece. */
  lemma LayoutStep(ts: seq<Token>, theme: Type -> GopColor.Color, readable: (int, string) -> string,
                   i: nat, out: string, p: Option<string>)
    requires i < |ts| && Layout(ts, theme, readable, i) == Some(out)
    requires p == Piece(ts[i], Depth(ts, i), theme(ts[i].ty), readable)
    ensures p.None? ==> Layout(ts, theme, readable, i + 1).None?
    ensures p.Some? ==> Layout(ts, theme, readable, i + 1) == Some(out + p.value)
  {
  }

  /** One turn of the `switch` of `Format`: the piece a token prints, `None` for the panic. */
  method PrintPiece(t: Token, depth: int, color: GopColor.Color, readable: (int, string) -> string)
    returns (p: Option<string>)
    ensures p == Piece(t, depth, color, readable)
  {
    match t.ty
    case SliceOpen | MapOpen | StructOpen =>
      p := Some(GopColor.ColorStr(color, t.literal) + "\n");
    case SliceItem | MapKey | StructKey =>
      if depth < 0 {
        return None;
      }
      p := Some(Indent(depth));
    case Colon | InlineComma | Chan =>
      p := Some(GopColor.ColorStr(color, t.literal) + " ");
    case Comma =>
      p := Some(GopColor.ColorStr(color, t.literal) + "\n");
    case SliceClose | MapClose | StructClose =>
      if depth < 0 {
        return None;
      }
      p := Some(Indent(depth) + GopColor.ColorStr(color, t.literal));
    case String =>
      p := Some(GopColor.ColorStr(color, readable(depth, t.literal)));
    case _ =>
      p := Some(GopColor.ColorStr(color, t.literal));
  }

  /** The running counter's two changes at step `i` give the depth of token `i`. */
  lemma {:induction false} DepthStep(ts: seq<Token>, i: nat, open: bool, close: bool, depth: int)
    requires i < |ts|
    requires open == IsOpen(ts[i].ty)
    requires close == (i < |ts| - 1 && IsClose(ts[i + 1].ty))
    requires depth == Carried(ts, i) + (if open then 1 else 0) - (if close then 1 else 0)
    ensures depth == Depth(ts, i)
  {
    if i > 0 {
      assert Min(i + 1, |ts|) == i + 1;
    }
  }

  // --------------------------------------------------------- replaceEscaped

  /** The states of the `replaceEscaped` machine. */
  datatype State = Init | Prematch | Matched

  /**
   * What `replaceEscaped` writes for `s[i..]`, starting outside an escape:
   * a backslash and `e` become `nw`, a backslash and any other character
   * are copied, and a backslash that ends the string is dropped.
   */
  function Unescaped(s: string, e: char, nw: string, i: nat): string
    requires i <= |s|
    decreases |s| - i
  {
    if i == |s| then ""
    else if s[i] != '\\' then [s[i]] + Unescaped(s, e, nw, i + 1)
    else if i + 1 == |s| then ""
    else if s[i + 1] == e then nw + Unescaped(s, e, nw, i + 2)
    else ['\\', s[i + 1]] + Unescaped(s, e, nw, i + 2)
  }

  /** Whether the scan of `s[i..]` replaces at least one escape. */
  predicate Escapes(s: string, e: char, i: nat)
    requires i <= |s|
    decreases |s| - i
  {
    if i == |s| then false
    else if s[i] != '\\' then Escapes(s, e, i + 1)
    else if i + 1 == |s| then false
    else if s[i + 1] == e then true
    else Escapes(s, e, i + 2)
  }

  /** `replaceEscaped`: the three-state machine over the characters of `s`. */
  method ReplaceEscaped(s: string, e: char, nw: string) returns (out: string, has: bool)
    ensures out == Unescaped(s, e, nw, 0)
    ensures has == Escapes(s, e, 0)
  {
    var state := Init;
    out := "";
    var buf := "";
    has := false;
    for i := 0 to |s|
      invariant state != Prematch ==>
        buf == "" && out + Unescaped(s, e, nw, i) == Unescaped(s, e, nw, 0)
        && (has || Escapes(s, e, i)) == Escapes(s, e, 0)
      invariant state == Prematch ==>
        buf == "\\" && 0 < i && s[i - 1] == '\\'
        && out + Unescaped(s, e, nw, i - 1) == Unescaped(s, e, nw, 0)
        && (has || Escapes(s, e, i - 1)) == Escapes(s, e, 0)
    {
      var r := s[i];
      match state
      case Prematch =>
        if r == e {
          EscapeStep(s, e, nw, i, out);
          state, out, buf, has := Matched, out + nw, "", true;
        } else {
          PairStep(s, e, nw, i, out);
          state, out, buf := Init, out + buf + [r], "";
        }
      case _ =>
        if r == '\\' {
          state, buf := Prematch, "\\";
        } else {
          CopyStep(s, e, nw, i, out);
          state, out, buf := Init, out + buf + [r], "";
        }
    }
  }

  /** A backslash and `e` before `i + 1`: `nw` is written and an escape is found. */
  lemma EscapeStep(s: string, e: char, nw: string, i: nat, out: string)
    requires 0 < i < |s| && s[i - 1] == '\\' && s[i] == e
    ensures (out + nw) + Unescaped(s, e, nw, i + 1) == out + Unescaped(s, e, nw, i - 1)
    ensures Escapes(s, e, i - 1)
  {
  }

  /** A backslash and another character before `i + 1`: both are copied. */
  lemma PairStep(s: string, e: char, nw: string, i: nat, out: string)
    requires 0 < i < |s| && s[i - 1] == '\\' && s[i] != e
    ensures (out + "\\" + [s[i]]) + Unescaped(s, e, nw, i + 1) == out + Unescaped(s, e, nw, i - 1)
    ensures Escapes(s, e, i - 1) == Escapes(s, e, i + 1)
  {
  }

  /** A character other than a backslash at `i`: it is copied. */
  lemma CopyStep(s: string, e: char, nw: string, i: nat, out: string)
    requires i < |s| && s[i] != '\\'
    ensures (out + "" + [s[i]]) + Unescaped(s, e, nw, i + 1) == out + Unescaped(s, e, nw, i)
    ensures Escapes(s, e, i) == Escapes(s, e, i + 1)
  {
  }

  /** Without a backslash there is nothing to replace: the string comes back as it is. */
  lemma {:induction false} NoBackslashUnchanged(s: string, e: char, nw: string, i: nat)
    requires i <= |s| && forall k :: i <= k < |s| ==> s[k] != '\\'
    ensures Unescaped(s, e, nw, i) == s[i..]
    ensures !Escapes(s, e, i)
    decreases |s| - i
  {
    if i < |s| {
      NoBackslashUnchanged(s, e, nw, i + 1);
      assert s[i..] == [s[i]] + s[i + 1..];
    }
  }

  /** A backslash that ends an otherwise backslash-free string is dropped. */
  lemma {:induction false} TrailingBackslashDropped(s: string, e: char, nw: string, i: nat)
    requires i < |s| && s[|s| - 1] == '\\'
    requires forall k :: i <= k < |s| - 1 ==> s[k] != '\\'
    ensures Unescaped(s, e, nw, i) == s[i..|s| - 1]
    ensures !Escapes(s, e, i)
    decreases |s| - i
  {
    if i < |s| - 1 {
      TrailingBackslashDropped(s, e, nw, i + 1);
      assert s[i..|s| - 1] == [s[i]] + s[i + 1..|s| - 1];
    }
  }

  /**
   * A backslash and `e` not preceded by another backslash are always
   * replaced, so `has` is set.
   */
  lemma {:induction false} EscapeFound(s: string, e: char, i: nat, p: nat)
    requires i <= p && p + 1 < |s| && s[p] == '\\' && s[p + 1] == e
    requires p == 0 || s[p - 1] != '\\'
    ensures Escapes(s, e, i)
    decreases p - i
  {
    if i < p {
      if s[i] != '\\' {
        EscapeFound(s, e, i + 1, p);
      } else if s[i + 1] != e {
        assert i + 1 != p;
        EscapeFound(s, e, i + 2, p);
      }
    }
  }

  /** `has` is set only if the string holds a backslash followed by `e`. */
  lemma {:induction false} EscapesSound(s: string, e: char, i: nat)
    requires i <= |s| && Escapes(s, e, i)
    ensures exists p :: i <= p && p + 1 < |s| && s[p] == '\\' && s[p + 1] == e
    decreases |s| - i
  {
    if s[i] != '\\' {
      EscapesSound(s, e, i + 1);
    } else if s[i + 1] != e {
      EscapesSound(s, e, i + 2);
    }
  }

  /**
   * An escaped backslash is a pair of its own: when `e` is not the
   * backslash, `\\` followed by `e` is copied through unchanged.
   */
  lemma {:induction false} EscapedBackslashKept(s: string, e: char, nw: string, i: nat)
    requires e != '\\' && i + 2 < |s| && s[i] == '\\' && s[i + 1] == '\\' && s[i + 2] == e
    ensures Unescaped(s, e, nw, i) == ['\\', '\\', e] + Unescaped(s, e, nw, i + 3)
  {
    assert Unescaped(s, e, nw, i + 2) == [e] + Unescaped(s, e, nw, i + 3);
  }

  /**
   * Replacing an escape by itself changes nothing, except that a trailing
   * lone backslash is dropped.
   */
  lemma {:induction false} SelfReplacement(s: string, e: char, i: nat)
    requires i <= |s|
    ensures var r := Unescaped(s, e, ['\\', e], i);
      r == s[i..] || (|s| > 0 && s[|s| - 1] == '\\' && r + ['\\'] == s[i..])
    decreases |s| - i
  {
    if i == |s| {
    } else if s[i] != '\\' {
      SelfReplacement(s, e, i + 1);
      assert s[i..] == [s[i]] + s[i + 1..];
    } else if i + 1 == |s| {
      assert s[i..] == ['\\'];
    } else {
      SelfReplacement(s, e, i + 2);
      assert s[i..] == [s[i], s[i + 1]] + s[i + 2..];
    }
  }
}
