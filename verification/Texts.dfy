/** Prefixes, trailing slashes and the URL path grammar shared by API paths and proxy locations. */
module Texts {
  import opened Wrappers
  import opened Paths

  function Strip(s: string, prefix: string): Option<string> {
    if prefix <= s then Some(s[|prefix|..]) else None
  }

  /** The text without its trailing slashes. */
  function TrimEnd(s: string): (r: string)
    ensures r <= s && (r != "" ==> r[|r| - 1] != '/')
  {
    if s != "" && s[|s| - 1] == '/' then TrimEnd(s[..|s| - 1]) else s
  }

  /** The text without its leading slashes. */
  function TrimStart(s: string): string {
    if s != "" && s[0] == '/' then TrimStart(s[1..]) else s
  }

  /** Unicode white space and control characters. */
  predicate Blank(c: char) {
    var n := c as int;
    n <= 0x20 || 0x7F <= n <= 0xA0 || n == 0x1680 || 0x2000 <= n <= 0x200A
    || n == 0x2028 || n == 0x2029 || n == 0x202F || n == 0x205F || n == 0x3000
  }

  predicate DoubleSlash(s: string) {
    exists i :: 0 <= i < |s| && s[i] == '/' && i + 1 < |s| && s[i + 1] == '/'
  }

  predicate ValidPath(path: string) {
    && "/" <= path && !DoubleSlash(path)
    && (forall c :: c in path ==> c !in {'?', '#', '%', '\\'} && !Blank(c))
    && "." !in Split(path, '/') && ".." !in Split(path, '/')
  }

  /** The reserved native namespace. */
  predicate IsReserved(path: string) {
    path == "/std" || "/std/" <= path
  }

  /** At the mount or below it. */
  predicate AtOrBelow(path: string, mount: string) {
    path == mount || mount + "/" <= path
  }

  /** Without double slashes at most one slash is trimmed. */
  lemma {:induction false} TrimsOneSlash(s: string)
    requires !DoubleSlash(s)
    ensures s == TrimEnd(s) || s == TrimEnd(s) + "/"
  {
    if s != "" && s[|s| - 1] == '/' {
      var front := s[..|s| - 1];
      assert front != "" ==> front[|front| - 1] == s[|s| - 2];
      assert s == front + "/" && TrimEnd(front) == front;
    }
  }

  /** Trimming does not move a path relative to a mount that has no trailing slash. */
  lemma {:induction false} TrimKeepsMount(path: string, mount: string)
    requires mount != "" && mount[|mount| - 1] != '/'
    ensures AtOrBelow(TrimEnd(path), mount) <==> AtOrBelow(path, mount)
  {
    if path != "" && path[|path| - 1] == '/' {
      var front := path[..|path| - 1];
      TrimKeepsMount(front, mount);
      assert path == front + "/";
      if mount + "/" <= path && !(mount + "/" <= front) {
        assert path == mount + "/";
      }
    }
  }

  lemma Rooted(path: string)
    requires "/" <= path
    ensures Split(path, '/') == [""] + Split(path[1..], '/')
  {
    assert path[0] == "/"[0];
  }

  /** The components of a path that starts with one known component. */
  lemma FirstComponent(head: string, path: string)
    requires '/' !in head && "/" <= path
    ensures Split(head + path, '/') == [head] + Split(path[1..], '/')
  {
    assert head + path == head + ['/'] + path[1..];
    SplitAt(head, path[1..], '/');
    SplitPlain(head, '/');
  }
}
