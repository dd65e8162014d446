/**
 * `Router.URL` of the test HTTP server (utils_serve.go): the server's
 * address followed by a path that always starts with "/". The address is
 * the text of the router's host URL, a parameter here.
 */
module ServeUrl {
  import opened Strings

  /** The path part of `URL(path...)`: the pieces joined with nothing between them, rooted at "/". */
  function Rooted(path: seq<string>): (p: string)
    ensures |p| >= 1 && p[0] == '/'
  {
    var joined := Concat(path);
    if HasPrefix(joined, "/") then joined else "/" + joined
  }

  /** `Router.URL`: the host URL's text, then the rooted path. */
  function Url(host: string, path: seq<string>): string {
    host + Rooted(path)
  }

  /**
   * The rooted path is the joined pieces when they already start with "/",
   * and "/" followed by them otherwise: nothing of the pieces is lost.
   */
  lemma {:induction false} RootedKeeps(path: seq<string>)
    ensures HasPrefix(Concat(path), "/") <==> Rooted(path) == Concat(path)
    ensures !HasPrefix(Concat(path), "/") <==> Rooted(path)[1..] == Concat(path)
  {
    var joined := Concat(path);
    if !HasPrefix(joined, "/") {
      assert ("/" + joined)[1..] == joined;
      assert Rooted(path) != joined by {
        if |joined| >= 1 {
          assert joined[..1] != "/";
        }
      }
    } else {
      assert |Rooted(path)[1..]| == |joined| - 1;
    }
  }

  /** Rooting is idempotent: passing an already rooted path as the only piece changes nothing. */
  lemma {:induction false} RootedIdempotent(path: seq<string>)
    ensures Rooted([Rooted(path)]) == Rooted(path)
  {
    var p := Rooted(path);
    assert Concat([p]) == Concat([]) + p;
    assert p[..1] == "/";
  }

  /** With no pieces the URL is the host followed by "/". */
  lemma {:induction false} UrlOfNothing(host: string)
    ensures Url(host, []) == host + "/"
  {
    assert Concat<char>([]) == [];
    assert !HasPrefix([], "/");
  }
}
