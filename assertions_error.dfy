/**
 * The messages of failed assertions (assertions_error.go): each kind of
 * assertion has a report built from the dumped values and bracketed
 * keywords, joined on one line, or one value per paragraph as soon as any
 * piece spans several lines.
 *
 * Dumping a value (`gop.F` or `gop.Plain`) is the parameter `f` of the
 * environment, with the dumps of `true`, `false` and `nil` given as text;
 * the diff appended to a failed equality is the parameter `diffOf`.
 */
module AssertionsError {
  import opened Strings
  import GopColor

  /** `AssertionErrType`, in declaration order. */
  datatype Kind =
    | Eq | NeqSame | Neq | Gt | Gte | Lt | Lte | InDelta | True | False | Nil
    | NoArgs | NotNil | NotNilable | NotNilableNil | Zero | NotZero | Regex | Has | Len
    | Err | Panic | IsInChain | IsKind | Count

  datatype Option<T> = None | Some(value: T)

  /**
   * What `NewDefaultAssertionError` closes over: the colour and diff
   * switches, the value dumper, the dumps of `true`, `false` and `nil`, and
   * the diff of two dumps.
   */
  datatype Env<!V> = Env(color: bool, diff: bool, f: V -> string, yes: string, no: string, nil: string,
                        diffOf: (bool, string, string) -> string)

  /** `hasNewline`: some argument contains '\n'. */
  predicate HasNewline(args: seq<string>) {
    exists i :: 0 <= i < |args| && Contains(args[i], '\n')
  }

  /** `j`: one paragraph per argument when any of them has a newline, plain concatenation otherwise. */
  function J(args: seq<string>): string {
    if HasNewline(args) then "\n" + Join(args, "\n\n") + "\n" else Concat(args)
  }

  /** `k`: a keyword between brackets and spaces, in red when colour is on. */
  function K(color: bool, s: string): string {
    var b := " ⦗" + s + "⦘ ";
    if color then GopColor.ColorStr(GopColor.Red, b) else b
  }

  /** The number of details each report reads (it indexes `details` up to this bound). */
  function Arity(kind: Kind): nat {
    match kind
    case True | False | NoArgs | NotNil | Panic => 0
    case Nil | NotNilable | NotNilableNil | Zero | NotZero | Err => 1
    case InDelta => 3
    case _ => 2
  }

  /**
   * `Report`: the report of the entry of `fns` for the kind; `None` when
   * it reads a detail that is not there (an index out of range).
   */
  function Report<V>(env: Env, kind: Kind, details: seq<V>): (r: Option<string>) {
    if |details| < Arity(kind) then None else Some(Message(env, kind, details))
  }

  /** The entry of `fns` for the kind, applied to details it can read. */
  function Message<V>(env: Env, kind: Kind, details: seq<V>): string
    requires |details| >= Arity(kind)
  {
      var c, f := env.color, env.f;
      match kind
        case Eq =>
          var x, y := f(details[0]), f(details[1]);
          if env.diff && HasNewline([x, y]) then J([x, K(c, "not =="), y, env.diffOf(c, x, y)])
          else J([x, K(c, "not =="), y])
        case NeqSame => J([f(details[0]), K(c, "=="), f(details[1])])
        case Neq => J([f(details[0]), K(c, "=="), f(details[1]), K(c, "when converted to the same type")])
        case Gt => J([f(details[0]), K(c, "not >"), f(details[1])])
        case Gte => J([f(details[0]), K(c, "not ≥"), f(details[1])])
        case Lt => J([f(details[0]), K(c, "not <"), f(details[1])])
        case Lte => J([f(details[0]), K(c, "not ≤"), f(details[1])])
        case InDelta =>
          J([K(c, "delta between"), f(details[0]), K(c, "and"), f(details[1]), K(c, "not ≤"), f(details[2])])
        case True => K(c, "should be") + env.yes
        case False => K(c, "should be") + env.no
        case Nil => J([K(c, "last argument"), f(details[0]), K(c, "should be"), env.nil])
        case NoArgs => K(c, "no arguments received")
        case NotNil => K(c, "last argument shouldn't be") + env.nil
        case NotNilable => J([K(c, "last argument"), f(details[0]), K(c, "is not nilable")])
        case NotNilableNil => J([K(c, "last argument"), f(details[0]), K(c, "shouldn't be"), env.nil])
        case Zero => J([f(details[0]), K(c, "should be zero value for its type")])
        case NotZero => J([f(details[0]), K(c, "shouldn't be zero value for its type")])
        case Regex => J([f(details[0]), K(c, "should match"), f(details[1])])
        case Has => J([f(details[0]), K(c, "should has"), f(details[1])])
        case Len => K(c, "expect len") + f(details[0]) + K(c, "to be") + f(details[1])
        case Err => J([K(c, "last value"), f(details[0]), K(c, "should be <error>")])
        case Panic => K(c, "should panic")
        case IsInChain => J([f(details[0]), K(c, "should in chain of"), f(details[1])])
        case IsKind => J([f(details[0]), K(c, "should be kind of"), f(details[1])])
        case Count => K(c, "should count") + f(details[0]) + K(c, "times, but got") + f(details[1])
  }

  // ------------------------------------------------------------- lemmas

  /** Concatenating pieces without a newline gives text without a newline. */
  lemma {:induction false} ConcatNoNewline(args: seq<string>)
    requires !HasNewline(args)
    ensures !Contains(Concat(args), '\n')
  {
    if args != [] {
      var init := args[..|args| - 1];
      assert !HasNewline(init) by {
        forall i | 0 <= i < |init| ensures !Contains(init[i], '\n') {
          assert init[i] == args[i];
        }
      }
      ConcatNoNewline(init);
      assert !Contains(args[|args| - 1], '\n');
    }
  }

  /** `j`'s result spans several lines exactly when one of its arguments does. */
  lemma {:induction false} JNewline(args: seq<string>)
    ensures Contains(J(args), '\n') <==> HasNewline(args)
  {
    if HasNewline(args) {
      assert J(args)[0] == '\n';
    } else {
      ConcatNoNewline(args);
    }
  }

  /** A keyword has no newline when its text has none, with or without colour. */
  lemma {:induction false} KeywordOneLine(color: bool, s: string)
    requires !Contains(s, '\n')
    ensures !Contains(K(color, s), '\n')
  {
    var b := " ⦗" + s + "⦘ ";
    assert !Contains(b, '\n') by {
      forall i | 0 <= i < |b| ensures b[i] != '\n' {
        if 2 <= i < 2 + |s| {
          assert b[i] == s[i - 2];
        }
      }
    }
    if color {
      var r := GopColor.ColorStr(GopColor.Red, b);
      var code := GopColor.Code(GopColor.Red);
      assert r == code + b + GopColor.Reset;
      assert !Contains(code, '\n') by {
        assert code == [GopColor.Esc, '['] + IntToString(31) + "m";
      }
      forall i | 0 <= i < |r| ensures r[i] != '\n' {
        if i < |code| {
          assert r[i] == code[i];
        } else if i < |code| + |b| {
          assert r[i] == b[i - |code|];
        } else {
          assert r[i] == GopColor.Reset[i - |code| - |b|];
        }
      }
    }
  }

  /**
   * Without colour, the `Len` report of two details reads "expect len",
   * the first dump, "to be", the second dump, the keywords between
   * brackets.
   */
  lemma {:induction false} LenReport<V>(env: Env, a: V, b: V)
    requires !env.color
    ensures Report(env, Len, [a, b]) == Some(" ⦗expect len⦘ " + env.f(a) + " ⦗to be⦘ " + env.f(b))
  {
    var m := Message(env, Len, [a, b]);
    assert m == K(false, "expect len") + env.f(a) + K(false, "to be") + env.f(b);
    assert K(false, "expect len") == " ⦗expect len⦘ ";
    assert K(false, "to be") == " ⦗to be⦘ ";
    assert Report(env, Len, [a, b]) == Some(m);
  }

  /**
   * Without colour, the `Nil` report of a one-line dump is one line: the
   * keywords "last argument" and "should be" around the dump, then the dump
   * of nil.
   */
  lemma {:induction false} NilOneLine<V>(env: Env, v: V)
    requires !env.color && !Contains(env.f(v), '\n') && !Contains(env.nil, '\n')
    ensures Report(env, Nil, [v]) == Some(" ⦗last argument⦘ " + env.f(v) + " ⦗should be⦘ " + env.nil)
  {
    var k1, k2 := K(false, "last argument"), K(false, "should be");
    var args := [k1, env.f(v), k2, env.nil];
    assert Report(env, Nil, [v]) == Some(J(args));
    KeywordOneLine(false, "last argument");
    KeywordOneLine(false, "should be");
    assert !HasNewline(args) by {
      forall i | 0 <= i < |args| ensures !Contains(args[i], '\n') {
      }
    }
    Concat4(args);
    assert k1 == " ⦗last argument⦘ " && k2 == " ⦗should be⦘ ";
  }

  lemma {:induction false} Concat3(args: seq<string>)
    requires |args| == 3
    ensures Concat(args) == args[0] + args[1] + args[2]
  {
    assert args[..2][..1] == [args[0]];
    assert args[..2] == [args[0], args[1]];
    assert Concat(args[..2]) == Concat(args[..2][..1]) + args[1];
    assert Concat(args[..2][..1]) == Concat<char>([]) + args[0];
  }

  lemma {:induction false} Concat4(args: seq<string>)
    requires |args| == 4
    ensures Concat(args) == args[0] + args[1] + args[2] + args[3]
  {
    Concat3(args[..3]);
  }

  /**
   * A failed equality of one-line dumps is reported on one line, as the
   * two dumps around the keyword, whether or not diffs are on: the diff is
   * appended only when a dump spans several lines.
   */
  lemma {:induction false} EqOneLine<V>(env: Env, x: V, y: V)
    requires !env.color
    requires !Contains(env.f(x), '\n') && !Contains(env.f(y), '\n')
    ensures Report(env, Eq, [x, y]) == Some(env.f(x) + " ⦗not ==⦘ " + env.f(y))
  {
    var fx, fy := env.f(x), env.f(y);
    var pair := [fx, fy];
    assert !HasNewline(pair) by {
      forall i | 0 <= i < 2 ensures !Contains(pair[i], '\n') {
      }
    }
    var args := [fx, K(false, "not =="), fy];
    assert Message(env, Eq, [x, y]) == J(args);
    KeywordOneLine(false, "not ==");
    assert !HasNewline(args) by {
      forall i | 0 <= i < 3 ensures !Contains(args[i], '\n') {
      }
    }
    Concat3(args);
    assert K(false, "not ==") == " ⦗not ==⦘ ";
    assert Report(env, Eq, [x, y]) == Some(J(args));
  }

  /** With diffs on and a dump spanning several lines, the equality report is one paragraph per piece, the diff last. */
  lemma {:induction false} EqWithDiff<V>(env: Env, x: V, y: V)
    requires env.diff && (Contains(env.f(x), '\n') || Contains(env.f(y), '\n'))
    ensures Report(env, Eq, [x, y]) == Some("\n" + Join([env.f(x), K(env.color, "not =="), env.f(y)], "\n\n")
                                          + "\n\n" + env.diffOf(env.color, env.f(x), env.f(y)) + "\n")
  {
    var fx, fy := env.f(x), env.f(y);
    var df := env.diffOf(env.color, fx, fy);
    var args := [fx, K(env.color, "not =="), fy, df];
    var pair := [fx, fy];
    assert HasNewline(pair) by {
      if Contains(fx, '\n') { assert Contains(pair[0], '\n'); } else { assert Contains(pair[1], '\n'); }
    }
    assert Message(env, Eq, [x, y]) == J(args);
    assert HasNewline(args) by {
      if Contains(fx, '\n') { assert Contains(args[0], '\n'); } else { assert Contains(args[2], '\n'); }
    }
    assert args == args[..3] + [df];
    JoinAppend(args[..3], df, "\n\n");
    assert args[..3] == [fx, K(env.color, "not =="), fy];
    assert J(args) == "\n" + Join(args, "\n\n") + "\n";
    var j3 := Join([fx, K(env.color, "not =="), fy], "\n\n");
    assert Join(args, "\n\n") == j3 + "\n\n" + df;
    assert J(args) == "\n" + j3 + "\n\n" + df + "\n";
    assert Report(env, Eq, [x, y]) == Some(J(args));
  }
}
