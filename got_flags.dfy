/**
 * `DefaultFlags` (got.go): the rewrite of the `go test` argument list that
 * drops the default "-test.timeout=10m0s" and appends each requested flag
 * as "-test." + flag unless the remaining arguments already set a flag of
 * that name.
 *
 * The process's argument list (`os.Args`) is the `args` parameter and the
 * rewritten list is the result.
 */
module GotFlags {
  import opened Strings

  datatype Option<T> = None | Some(value: T)

  /** The argument `go test` adds by default, which `DefaultFlags` removes. */
  const Timeout: string := "-test.timeout=10m0s"

  /** The prefix of a test flag. */
  const Prefix: string := "-test."

  /** A character of the class `\w`: ASCII letters, digits and '_'. */
  predicate IsWord(c: char) {
    ('0' <= c <= '9') || ('a' <= c <= 'z') || ('A' <= c <= 'Z') || c == '_'
  }

  /** The longest prefix of `s` made of `\w` characters. */
  function WordRun(s: string): (r: string)
    ensures |r| <= |s| && r == s[..|r|]
    ensures forall i :: 0 <= i < |r| ==> IsWord(r[i])
    ensures |r| < |s| ==> !IsWord(s[|r|])
  {
    if s != [] && IsWord(s[0]) then [s[0]] + WordRun(s[1..]) else []
  }

  /** The submatch of `^-test\.(\w+)` in an argument, if it matches. */
  function Name(arg: string): (r: Option<string>)
    ensures r.Some? ==> r.value != [] && HasPrefix(arg, Prefix + r.value)
  {
    if HasPrefix(arg, Prefix) && |arg| > |Prefix| && IsWord(arg[|Prefix|]) then
      var w := WordRun(arg[|Prefix|..]);
      assert arg[..|Prefix| + |w|] == Prefix + w;
      Some(w)
    else None
  }

  /** `strings.Split(flag, "=")[0]`: the text before the first '='. */
  function Key(flag: string): (r: string)
    ensures |r| <= |flag| && r == flag[..|r|]
    ensures !Contains(r, '=')
    ensures |r| < |flag| ==> flag[|r|] == '='
  {
    if flag == [] || flag[0] == '=' then [] else [flag[0]] + Key(flag[1..])
  }

  // ------------------------------------------------------- specification

  /** The arguments other than `Timeout`, in order. */
  function Filtered(args: seq<string>): (r: seq<string>)
    ensures |r| <= |args|
  {
    if args == [] then []
    else Filtered(args[..|args| - 1]) + (if args[|args| - 1] != Timeout then [args[|args| - 1]] else [])
  }

  /** The names the arguments set (the keys of `list`). */
  function Names(args: seq<string>): set<string> {
    if args == [] then {}
    else Names(args[..|args| - 1]) + (if Name(args[|args| - 1]).Some? then {Name(args[|args| - 1]).value} else {})
  }

  /** The requested flags whose key is not among `names`, each as "-test." + flag, in order. */
  function Added(flags: seq<string>, names: set<string>): seq<string> {
    if flags == [] then []
    else Added(flags[..|flags| - 1], names) + (if Key(flags[|flags| - 1]) !in names then [Prefix + flags[|flags| - 1]] else [])
  }

  /** The argument list after `DefaultFlags(flags...)`. */
  function Flagged(args: seq<string>, flags: seq<string>): seq<string> {
    Filtered(args) + Added(flags, Names(Filtered(args)))
  }

  // -------------------------------------------------------------- method

  /**
   * `DefaultFlags`: the filter loop, the loop that collects the names the
   * remaining arguments set, and the loop that appends the missing flags.
   */
  method DefaultFlags(args: seq<string>, flags: seq<string>) returns (out: seq<string>)
    ensures out == Flagged(args, flags)
  {
    var filtered: seq<string> := [];
    for i := 0 to |args|
      invariant filtered == Filtered(args[..i])
    {
      assert args[..i + 1][..i] == args[..i];
      if args[i] != Timeout {
        filtered := filtered + [args[i]];
      }
    }
    assert args[..|args|] == args;
    out := filtered;

    var list: set<string> := {};
    for i := 0 to |out|
      invariant list == Names(out[..i])
    {
      assert out[..i + 1][..i] == out[..i];
      var ms := Name(out[i]);
      if ms.Some? {
        list := list + {ms.value};
      }
    }
    assert out[..|out|] == out;

    for i := 0 to |flags|
      invariant out == filtered + Added(flags[..i], list)
    {
      assert flags[..i + 1][..i] == flags[..i];
      if Key(flags[i]) !in list {
        out := out + [Prefix + flags[i]];
      }
    }
    assert flags[..|flags|] == flags;
  }

  // -------------------------------------------------------------- lemmas

  /** Exactly the arguments other than `Timeout` remain. */
  lemma {:induction false} FilteredMembers(args: seq<string>)
    ensures forall a :: a in Filtered(args) <==> a in args && a != Timeout
    decreases |args|
  {
    if args != [] {
      var init := args[..|args| - 1];
      FilteredMembers(init);
      assert args == init + [args[|args| - 1]];
    }
  }

  /** The filter keeps the order of the arguments: it works piece by piece. */
  lemma {:induction false} FilteredAppend(a: seq<string>, b: seq<string>)
    ensures Filtered(a + b) == Filtered(a) + Filtered(b)
    decreases |b|
  {
    if b == [] {
      assert a + b == a;
    } else {
      var init := b[..|b| - 1];
      assert (a + b)[..|a + b| - 1] == a + init;
      FilteredAppend(a, init);
    }
  }

  /** Without a default timeout the arguments are kept as they are. */
  lemma {:induction false} FilteredNone(args: seq<string>)
    requires Timeout !in args
    ensures Filtered(args) == args
    decreases |args|
  {
    if args != [] {
      var init := args[..|args| - 1];
      assert forall a :: a in init ==> a in args;
      FilteredNone(init);
      assert args == init + [args[|args| - 1]];
    }
  }

  /** A name is set exactly when some argument sets it. */
  lemma {:induction false} NamesMembers(args: seq<string>)
    ensures forall n :: n in Names(args) <==> exists i :: 0 <= i < |args| && Name(args[i]) == Some(n)
    decreases |args|
  {
    if args != [] {
      var init := args[..|args| - 1];
      NamesMembers(init);
      forall n | (exists i :: 0 <= i < |args| && Name(args[i]) == Some(n)) ensures n in Names(args) {
        var i :| 0 <= i < |args| && Name(args[i]) == Some(n);
        if i < |init| {
          assert init[i] == args[i];
        }
      }
      forall n | n in Names(args) ensures exists i :: 0 <= i < |args| && Name(args[i]) == Some(n) {
        if n in Names(init) {
          var i :| 0 <= i < |init| && Name(init[i]) == Some(n);
          assert args[i] == init[i];
        } else {
          assert Name(args[|args| - 1]) == Some(n);
        }
      }
    }
  }

  /** The added flags work piece by piece: each request is answered in order, and a repeated request is answered again. */
  lemma {:induction false} AddedAppend(a: seq<string>, b: seq<string>, names: set<string>)
    ensures Added(a + b, names) == Added(a, names) + Added(b, names)
    decreases |b|
  {
    if b == [] {
      assert a + b == a;
    } else {
      var init := b[..|b| - 1];
      assert (a + b)[..|a + b| - 1] == a + init;
      AddedAppend(a, init, names);
    }
  }

  /** A flag is appended exactly when it is requested and its key is not among the names. */
  lemma {:induction false} AddedMembers(flags: seq<string>, names: set<string>)
    ensures forall x :: x in Added(flags, names) <==>
      exists i :: 0 <= i < |flags| && Key(flags[i]) !in names && x == Prefix + flags[i]
    decreases |flags|
  {
    if flags != [] {
      var init := flags[..|flags| - 1];
      AddedMembers(init, names);
      forall x | (exists i :: 0 <= i < |flags| && Key(flags[i]) !in names && x == Prefix + flags[i])
        ensures x in Added(flags, names)
      {
        var i :| 0 <= i < |flags| && Key(flags[i]) !in names && x == Prefix + flags[i];
        if i < |init| {
          assert init[i] == flags[i];
        }
      }
      forall x | x in Added(flags, names)
        ensures exists i :: 0 <= i < |flags| && Key(flags[i]) !in names && x == Prefix + flags[i]
      {
        if x in Added(init, names) {
          var i :| 0 <= i < |init| && Key(init[i]) !in names && x == Prefix + init[i];
          assert flags[i] == init[i];
        }
      }
    }
  }

  /** A flag whose key is a `\w` run sets, once appended, the name its key spells. */
  lemma {:induction false} NameOfAdded(flag: string)
    requires Key(flag) != [] && forall i :: 0 <= i < |Key(flag)| ==> IsWord(Key(flag)[i])
    ensures Name(Prefix + flag) == Some(Key(flag))
  {
    var k := Key(flag);
    var arg := Prefix + flag;
    assert arg[|Prefix|..] == flag;
    assert HasPrefix(arg, Prefix);
    WordRunOf(flag, k);
  }

  /** The `\w` run of a string that starts with a `\w` run ended by '=' or by the end of the string. */
  lemma {:induction false} WordRunOf(s: string, k: string)
    requires |k| <= |s| && s[..|k|] == k
    requires forall i :: 0 <= i < |k| ==> IsWord(k[i])
    requires |k| < |s| ==> s[|k|] == '='
    ensures WordRun(s) == k
    decreases |k|
  {
    if k != [] {
      assert s[1..][..|k| - 1] == k[1..];
      WordRunOf(s[1..], k[1..]);
    }
  }

  /** Names collected from a longer list include those of its prefix. */
  lemma {:induction false} NamesAppend(a: seq<string>, b: seq<string>)
    ensures Names(a + b) == Names(a) + Names(b)
    decreases |b|
  {
    if b == [] {
      assert a + b == a;
    } else {
      var init := b[..|b| - 1];
      assert (a + b)[..|a + b| - 1] == a + init;
      NamesAppend(a, init);
    }
  }

  /** Every requested flag with a `\w` key, appended or not, has its name set afterwards. */
  lemma {:induction false} AddedNames(flags: seq<string>, names: set<string>)
    requires forall i :: 0 <= i < |flags| ==> Key(flags[i]) != [] && forall m :: 0 <= m < |Key(flags[i])| ==> IsWord(Key(flags[i])[m])
    ensures forall i :: 0 <= i < |flags| ==> Key(flags[i]) in names + Names(Added(flags, names))
    decreases |flags|
  {
    if flags != [] {
      var init := flags[..|flags| - 1];
      var f := flags[|flags| - 1];
      AddedNames(init, names);
      var tail := if Key(f) !in names then [Prefix + f] else [];
      NamesAppend(Added(init, names), tail);
      if Key(f) !in names {
        NameOfAdded(f);
        assert [Prefix + f][..0] == [];
        assert Names(tail) == {Key(f)};
      }
    }
  }

  /** No requested flag is appended when every key is among the names. */
  lemma {:induction false} AddedNothing(flags: seq<string>, names: set<string>)
    requires forall i :: 0 <= i < |flags| ==> Key(flags[i]) in names
    ensures Added(flags, names) == []
    decreases |flags|
  {
    if flags != [] {
      AddedNothing(flags[..|flags| - 1], names);
    }
  }

  /**
   * Running `DefaultFlags` a second time with the same flags changes
   * nothing, provided each flag's key is a `\w` run and no flag is the
   * default timeout itself.
   */
  lemma {:induction false} FlaggedStable(args: seq<string>, flags: seq<string>)
    requires forall i :: 0 <= i < |flags| ==> Key(flags[i]) != [] && forall m :: 0 <= m < |Key(flags[i])| ==> IsWord(Key(flags[i])[m])
    requires forall i :: 0 <= i < |flags| ==> Prefix + flags[i] != Timeout
    ensures Flagged(Flagged(args, flags), flags) == Flagged(args, flags)
  {
    var f := Filtered(args);
    var names := Names(f);
    var a := Added(flags, names);
    var out := f + a;
    FilteredMembers(args);
    AddedMembers(flags, names);
    assert Timeout !in out;
    FilteredNone(out);
    NamesAppend(f, a);
    AddedNames(flags, names);
    AddedNothing(flags, Names(out));
    assert out + [] == out;
  }
}
