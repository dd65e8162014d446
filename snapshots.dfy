/**
 * Snapshot file names (snapshots.go): a test's name is made safe for a
 * file name on Windows and Unix by replacing each forbidden character
 * with '_', trimming spaces and dots from both ends, and collapsing every
 * run of dots into one; the snapshots of a test live in that name plus
 * ".txt" under ".snapshots".
 */
module Snapshots {

  /**
   * The characters of the class built from the list `< > : " / \ | ? *`:
   * the nine listed characters and, because the list separates them with
   * spaces, the space.
   */
  predicate Invalid(c: char) {
    c == '<' || c == '>' || c == ':' || c == '"' || c == '/' || c == '\\' || c == '|' || c == '?' || c == '*' || c == ' '
  }

  predicate AllValid(s: string) {
    forall i :: 0 <= i < |s| ==> !Invalid(s[i])
  }

  /** The regular expression replacement: each forbidden character becomes one '_'. */
  function ReplaceInvalid(s: string): string {
    seq(|s|, i requires 0 <= i < |s| => if Invalid(s[i]) then '_' else s[i])
  }

  /** The cut set " ." of `strings.Trim`. */
  predicate Cut(c: char) {
    c == ' ' || c == '.'
  }

  /** Removes leading spaces and dots: the result is a suffix of `s`. */
  function TrimLeft(s: string): (r: string)
    ensures |r| <= |s| && r == s[|s| - |r|..]
    ensures r == [] || !Cut(r[0])
  {
    if s != [] && Cut(s[0]) then TrimLeft(s[1..]) else s
  }

  /** Removes trailing spaces and dots: the result is a prefix of `s`. */
  function TrimRight(s: string): (r: string)
    ensures |r| <= |s| && r == s[..|r|]
    ensures r == [] || !Cut(r[|r| - 1])
  {
    if s != [] && Cut(s[|s| - 1]) then TrimRight(s[..|s| - 1]) else s
  }

  /** `strings.Trim(s, " .")`. */
  function Trim(s: string): string {
    TrimRight(TrimLeft(s))
  }

  /** Removes the leading run of dots. */
  function DropDots(s: string): (r: string)
    ensures |r| <= |s| && r == s[|s| - |r|..]
    ensures r == [] || r[0] != '.'
  {
    if s != [] && s[0] == '.' then DropDots(s[1..]) else s
  }

  /** The replacement of `\.{2,}` by ".": scanning left to right, each run of two or more dots becomes one dot. */
  function CollapseDots(s: string): string
    decreases |s|
  {
    if s == [] then []
    else if |s| >= 2 && s[0] == '.' && s[1] == '.' then "." + CollapseDots(DropDots(s[2..]))
    else [s[0]] + CollapseDots(s[1..])
  }

  /** `escapeFileName`. */
  function EscapeFileName(name: string): string {
    CollapseDots(Trim(ReplaceInvalid(name)))
  }

  /** `snapshotsFilePath`: `filepath.Join(".snapshots", escaped + ".txt")`. */
  function SnapshotsFilePath(name: string): string {
    ".snapshots/" + EscapeFileName(name) + ".txt"
  }

  // ------------------------------------------------------------- lemmas

  /** No two dots in a row. */
  predicate NoDoubleDot(s: string) {
    forall i :: 0 <= i < |s| - 1 ==> !(s[i] == '.' && s[i + 1] == '.')
  }

  /** Neither end is a space or a dot. */
  predicate Trimmed(s: string) {
    s == [] || (!Cut(s[0]) && !Cut(s[|s| - 1]))
  }

  /** The replacement keeps the length and turns exactly the forbidden characters into '_'. */
  lemma {:induction false} ReplaceOneForOne(s: string)
    ensures |ReplaceInvalid(s)| == |s| && AllValid(ReplaceInvalid(s))
    ensures forall i :: 0 <= i < |s| && Invalid(s[i]) ==> ReplaceInvalid(s)[i] == '_'
    ensures forall i :: 0 <= i < |s| && !Invalid(s[i]) ==> ReplaceInvalid(s)[i] == s[i]
  {
  }

  /** Collapsing keeps the first character and never lengthens. */
  lemma {:induction false} CollapseFirst(s: string)
    ensures |CollapseDots(s)| <= |s|
    ensures s != [] ==> CollapseDots(s) != [] && CollapseDots(s)[0] == s[0]
    decreases |s|
  {
    if s != [] {
      if |s| >= 2 && s[0] == '.' && s[1] == '.' {
        CollapseFirst(DropDots(s[2..]));
      } else {
        CollapseFirst(s[1..]);
      }
    }
  }

  /** Dropping leading dots keeps a last character that is not a dot. */
  lemma {:induction false} DropDotsLast(s: string)
    requires s != [] && s[|s| - 1] != '.'
    ensures DropDots(s) != [] && DropDots(s)[|DropDots(s)| - 1] == s[|s| - 1]
    decreases |s|
  {
    if s[0] == '.' {
      DropDotsLast(s[1..]);
    }
  }

  /** Collapsing keeps a last character that is not a dot. */
  lemma {:induction false} CollapseLast(s: string)
    requires s != [] && s[|s| - 1] != '.'
    ensures CollapseDots(s) != [] && CollapseDots(s)[|CollapseDots(s)| - 1] == s[|s| - 1]
    decreases |s|, 1
  {
    if |s| >= 2 && s[0] == '.' && s[1] == '.' {
      CollapseLastRun(s);
    } else if |s| > 1 {
      CollapseLastOther(s);
    }
  }

  /** `CollapseLast` when `s` starts with a run of dots. */
  lemma {:induction false} CollapseLastRun(s: string)
    requires |s| >= 2 && s[0] == '.' && s[1] == '.' && s[|s| - 1] != '.'
    ensures CollapseDots(s) != [] && CollapseDots(s)[|CollapseDots(s)| - 1] == s[|s| - 1]
    decreases |s|, 0
  {
    var rest := DropDots(s[2..]);
    RunRest(s);
    CollapseLast(rest);
    CollapseRun(s);
    LastAfter(".", CollapseDots(rest));
  }

  /** After a run of dots that the string does not end in, what follows the run ends like the string. */
  lemma {:induction false} RunRest(s: string)
    requires |s| >= 3 && s[|s| - 1] != '.'
    ensures DropDots(s[2..]) != [] && DropDots(s[2..])[|DropDots(s[2..])| - 1] == s[|s| - 1]
  {
    var tail := s[2..];
    assert tail[|tail| - 1] == s[|s| - 1];
    DropDotsLast(tail);
  }

  /** A leading run of two or more dots collapses to one. */
  lemma CollapseRun(s: string)
    requires |s| >= 2 && s[0] == '.' && s[1] == '.'
    ensures CollapseDots(s) == "." + CollapseDots(DropDots(s[2..]))
  {
  }

  /** `CollapseLast` when `s` does not start with two dots. */
  lemma {:induction false} CollapseLastOther(s: string)
    requires |s| > 1 && !(s[0] == '.' && s[1] == '.') && s[|s| - 1] != '.'
    ensures CollapseDots(s) != [] && CollapseDots(s)[|CollapseDots(s)| - 1] == s[|s| - 1]
    decreases |s|, 0
  {
    CollapseLast(s[1..]);
    LastAfter([s[0]], CollapseDots(s[1..]));
  }

  lemma LastAfter(h: string, c: string)
    requires c != []
    ensures (h + c)[|h + c| - 1] == c[|c| - 1]
  {
  }

  /** Collapsing leaves no two dots in a row and introduces no forbidden character. */
  lemma {:induction false} CollapseClean(s: string)
    ensures NoDoubleDot(CollapseDots(s))
    ensures AllValid(s) ==> AllValid(CollapseDots(s))
    decreases |s|
  {
    if s != [] {
      if |s| >= 2 && s[0] == '.' && s[1] == '.' {
        var rest := DropDots(s[2..]);
        CollapseClean(rest);
        CollapseFirst(rest);
        if AllValid(s) {
          assert AllValid(rest) by {
            forall i | 0 <= i < |rest| ensures !Invalid(rest[i]) {
              assert rest[i] == s[|s| - |rest| + i];
            }
          }
        }
      } else {
        var rest := s[1..];
        CollapseClean(rest);
        CollapseFirst(rest);
      }
    }
  }

  /** Trimming keeps only characters of the input and leaves no space or dot at either end. */
  lemma {:induction false} TrimClean(s: string)
    ensures Trimmed(Trim(s)) && |Trim(s)| <= |s|
    ensures AllValid(s) ==> AllValid(Trim(s))
  {
    var l := TrimLeft(s);
    var r := TrimRight(l);
    if r != [] {
      assert r[0] == l[0];
    }
    if AllValid(s) {
      SuffixValid(s, |s| - |l|);
      PrefixValid(l, |r|);
    }
  }

  /** What follows the first `n` characters of a name without forbidden characters has none either. */
  lemma SuffixValid(s: string, n: nat)
    requires AllValid(s) && n <= |s|
    ensures AllValid(s[n..])
  {
    forall i | 0 <= i < |s| - n ensures !Invalid(s[n..][i]) {
      assert s[n..][i] == s[n + i];
    }
  }

  /** The first `n` characters of a name without forbidden characters have none either. */
  lemma PrefixValid(s: string, n: nat)
    requires AllValid(s) && n <= |s|
    ensures AllValid(s[..n])
  {
    forall i | 0 <= i < n ensures !Invalid(s[..n][i]) {
      assert s[..n][i] == s[i];
    }
  }

  /**
   * An escaped name has no forbidden character and no space, no two dots
   * in a row, neither begins nor ends with a dot, and is never longer than
   * the name.
   */
  lemma {:induction false} EscapeClean(name: string)
    ensures var e := EscapeFileName(name);
      AllValid(e) && NoDoubleDot(e) && Trimmed(e) && |e| <= |name|
  {
    var r := ReplaceInvalid(name);
    ReplaceOneForOne(name);
    TrimClean(r);
    CollapseTrimmed(Trim(r));
  }

  /** Collapsing a trimmed name without forbidden characters keeps it so and removes every double dot. */
  lemma {:induction false} CollapseTrimmed(t: string)
    requires AllValid(t) && Trimmed(t)
    ensures var e := CollapseDots(t);
      AllValid(e) && NoDoubleDot(e) && Trimmed(e) && |e| <= |t|
  {
    CollapseClean(t);
    CollapseFirst(t);
    if t != [] {
      CollapseLast(t);
    }
  }

  /** A name without forbidden characters keeps them all out under the replacement. */
  lemma {:induction false} ReplaceValid(s: string)
    requires AllValid(s)
    ensures ReplaceInvalid(s) == s
  {
  }

  /** A trimmed name is its own trim. */
  lemma {:induction false} TrimTrimmed(s: string)
    requires Trimmed(s)
    ensures Trim(s) == s
  {
  }

  /** A name without two dots in a row is its own collapse. */
  lemma {:induction false} CollapseSingle(s: string)
    requires NoDoubleDot(s)
    ensures CollapseDots(s) == s
    decreases |s|
  {
    if s != [] {
      var rest := s[1..];
      assert NoDoubleDot(rest) by {
        forall i | 0 <= i < |rest| - 1 ensures !(rest[i] == '.' && rest[i + 1] == '.') {
          assert rest[i] == s[i + 1] && rest[i + 1] == s[i + 2];
        }
      }
      CollapseSingle(rest);
    }
  }

  /** Escaping is idempotent. */
  lemma {:induction false} EscapeIdempotent(name: string)
    ensures EscapeFileName(EscapeFileName(name)) == EscapeFileName(name)
  {
    var e := EscapeFileName(name);
    EscapeClean(name);
    ReplaceValid(e);
    TrimTrimmed(e);
    CollapseSingle(e);
  }

  /** The snapshot file sits directly in ".snapshots": its path has no other '/'. */
  lemma {:induction false} SnapshotPathFlat(name: string)
    ensures var p := SnapshotsFilePath(name);
      p[..11] == ".snapshots/" && p[|p| - 4..] == ".txt" &&
      forall i :: 11 <= i < |p| ==> p[i] != '/'
  {
    EscapeClean(name);
    FlatPath(EscapeFileName(name));
  }

  /** A file name without '/' joined under ".snapshots" with ".txt" added. */
  lemma FlatPath(e: string)
    requires AllValid(e)
    ensures var p := ".snapshots/" + e + ".txt";
      p[..11] == ".snapshots/" && p[|p| - 4..] == ".txt" &&
      forall i :: 11 <= i < |p| ==> p[i] != '/'
  {
    var p := ".snapshots/" + e + ".txt";
    forall i | 11 <= i < |p| ensures p[i] != '/' {
      if i < 11 + |e| {
        assert p[i] == e[i - 11];
      }
    }
  }
}
