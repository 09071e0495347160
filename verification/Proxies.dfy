/** Choosing the proxy rule for a request and rewriting its path for the upstream. */
module Proxies {
  import opened Wrappers
  import Paths
  import opened Texts
  import opened Routes

  /** A loopback endpoint; without a base path requests keep their own. */
  datatype Upstream = Upstream(authority: string, base: Option<string>)

  datatype Rule = Rule(location: string, upstream: Upstream)

  datatype Outcome = NotFound | Redirect(to: string) | Forward(rule: Rule)

  predicate ValidLocation(location: string) {
    ValidPath(LocationPath(location)) && !IsReserved(LocationPath(location))
  }

  /** The table as it is read back from the configuration. */
  predicate ValidTable(t: seq<Rule>) {
    && (forall i :: 0 <= i < |t| ==> ValidLocation(t[i].location))
    && (forall i, j :: 0 <= i < j < |t| ==> t[i].location != t[j].location)
  }

  // ------------------------------------------------------------ the selection

  predicate EndsWithSlash(s: string) {
    s != "" && s[|s| - 1] == '/'
  }

  predicate RedirectsTo(location: string, path: string) {
    EndsWithSlash(location) && TrimEnd(location) == path
  }

  predicate Matches(location: string, path: string) {
    "/" <= location && (location == "/" || path == TrimEnd(location) || TrimEnd(location) + "/" <= path)
  }

  function FindExact(t: seq<Rule>, path: string): Option<Rule> {
    if t == [] then None
    else if t[0].location == "= " + path then Some(t[0])
    else FindExact(t[1..], path)
  }

  function FindRedirect(t: seq<Rule>, path: string): Option<Rule> {
    if t == [] then None
    else if RedirectsTo(t[0].location, path) then Some(t[0])
    else FindRedirect(t[1..], path)
  }

  /** The longest matching location, the last one among equals. */
  function Longest(t: seq<Rule>, path: string): Option<Rule> {
    if t == [] then None
    else
      var last := t[|t| - 1];
      var rest := Longest(t[..|t| - 1], path);
      if Matches(last.location, path) && (rest.None? || |rest.value.location| <= |last.location|) then Some(last)
      else rest
  }

  function Select(t: seq<Rule>, path: string): Outcome {
    if IsReserved(path) then NotFound
    else if FindExact(t, path).Some? then Forward(FindExact(t, path).value)
    else if FindRedirect(t, path).Some? then Redirect(FindRedirect(t, path).value.location)
    else if Longest(t, path).Some? then Forward(Longest(t, path).value)
    else NotFound
  }

  function ProxyUri(r: Rule, path: string): Option<string> {
    match r.upstream.base
    case None => Some(path)
    case Some(base) =>
      if "= " <= r.location then Some(base)
      else
        var suffix := Strip(path, r.location);
        if suffix.None? then None else Some(base + suffix.value)
  }

  // ------------------------------------------------------------ what is selected

  /** What a prefix location is for: a location ending in a slash covers the paths that continue it,
      any other its own path and the paths below it. */
  predicate Covers(location: string, path: string) {
    "/" <= location && (if EndsWithSlash(location) then location <= path else AtOrBelow(path, location))
  }

  lemma TrimOfLocation(location: string)
    requires ValidLocation(location)
    ensures EndsWithSlash(location) ==> location == TrimEnd(location) + "/"
    ensures !EndsWithSlash(location) ==> TrimEnd(location) == location
  {
    if "= " <= location {
      TrimOfSuffix(location);
    } else {
      TrimsOneSlash(location);
    }
  }

  lemma TrimOfSuffix(location: string)
    requires "= " <= location && ValidPath(location[2..])
    ensures EndsWithSlash(location) ==> location == TrimEnd(location) + "/"
  {
    var n := |location|;
    if EndsWithSlash(location) {
      var front := location[..n - 1];
      assert front[n - 2] != '/' by {
        if n == 3 {
          assert front[1] == location[1] == "= "[1];
        } else {
          assert location[2..][n - 3] == '/' && location[2..][n - 4] == front[n - 2];
        }
      }
      assert TrimEnd(front) == front && location == front + "/";
    }
  }

  /** Short of the redirect, matching is covering. */
  lemma MatchesIsCovers(location: string, path: string)
    requires ValidLocation(location) && "/" <= path
    ensures Covers(location, path) <==> Matches(location, path) && !RedirectsTo(location, path)
  {
    TrimOfLocation(location);
    if location == "/" {
      assert TrimEnd("/") == "";
    }
  }

  lemma {:induction false} ExactExactly(t: seq<Rule>, path: string)
    ensures FindExact(t, path).Some? ==>
      FindExact(t, path).value in t && FindExact(t, path).value.location == "= " + path
    ensures FindExact(t, path).None? <==> forall r :: r in t ==> r.location != "= " + path
  {
    if t != [] {
      ExactExactly(t[1..], path);
      assert forall r :: r in t <==> r == t[0] || r in t[1..];
    }
  }

  lemma {:induction false} RedirectExactly(t: seq<Rule>, path: string)
    ensures FindRedirect(t, path).Some? ==>
      FindRedirect(t, path).value in t && RedirectsTo(FindRedirect(t, path).value.location, path)
    ensures FindRedirect(t, path).None? <==> forall r :: r in t ==> !RedirectsTo(r.location, path)
  {
    if t != [] {
      RedirectExactly(t[1..], path);
      assert forall r :: r in t <==> r == t[0] || r in t[1..];
    }
  }

  lemma {:induction false} LongestExactly(t: seq<Rule>, path: string)
    ensures Longest(t, path).None? <==> forall r :: r in t ==> !Matches(r.location, path)
    ensures Longest(t, path).Some? ==>
      var best := Longest(t, path).value;
      && best in t && Matches(best.location, path)
      && forall r :: r in t && Matches(r.location, path) ==> |r.location| <= |best.location|
  {
    if t != [] {
      LongestExactly(t[..|t| - 1], path);
      assert t == t[..|t| - 1] + [t[|t| - 1]];
      assert forall r :: r in t <==> r == t[|t| - 1] || r in t[..|t| - 1];
    }
  }

  ghost predicate HasLocation(t: seq<Rule>, location: string) {
    exists r :: r in t && r.location == location
  }

  /** The intended choice: an exact location, else the redirect to `path/`, else the longest location
      covering the path. */
  ghost predicate Intended(t: seq<Rule>, path: string, o: Outcome) {
    match o
    case NotFound => IsReserved(path)
      || (!HasLocation(t, "= " + path) && forall r :: r in t ==> !Covers(r.location, path) && r.location != path + "/")
    case Redirect(to) => !IsReserved(path) && !HasLocation(t, "= " + path) && to == path + "/" && HasLocation(t, to)
    case Forward(rule) =>
      && !IsReserved(path) && rule in t
      && (rule.location == "= " + path
          || (!HasLocation(t, "= " + path) && !HasLocation(t, path + "/") && Covers(rule.location, path)
              && forall r :: r in t && Covers(r.location, path) ==> |r.location| <= |rule.location|))
  }

  lemma RedirectIsSlash(location: string, path: string)
    requires ValidLocation(location) && "/" <= path
    ensures RedirectsTo(location, path) ==> location == path + "/"
    ensures location == path + "/" && !EndsWithSlash(path) ==> RedirectsTo(location, path)
    ensures location == path + "/" ==> !EndsWithSlash(path)
  {
    TrimOfLocation(location);
  }

  lemma SelectIsIntended(t: seq<Rule>, path: string)
    requires ValidTable(t) && "/" <= path
    ensures Intended(t, path, Select(t, path))
  {
    ExactExactly(t, path);
    RedirectExactly(t, path);
    LongestExactly(t, path);
    LocationsAgree(t, path);
  }

  lemma LocationsAgree(t: seq<Rule>, path: string)
    requires ValidTable(t) && "/" <= path
    ensures forall r :: r in t ==> (RedirectsTo(r.location, path) <==> r.location == path + "/")
    ensures forall r :: r in t ==>
      (Covers(r.location, path) <==> Matches(r.location, path) && !RedirectsTo(r.location, path))
  {
    forall r | r in t
      ensures RedirectsTo(r.location, path) <==> r.location == path + "/"
      ensures Covers(r.location, path) <==> Matches(r.location, path) && !RedirectsTo(r.location, path)
    {
      RedirectIsSlash(r.location, path);
      MatchesIsCovers(r.location, path);
    }
  }

  lemma SameLocationSameRule(t: seq<Rule>, a: Rule, b: Rule)
    requires ValidTable(t) && a in t && b in t && a.location == b.location
    ensures a == b
  {
  }

  /** All locations covering one path are prefixes of it, so the longest is unique. */
  lemma LongestIsUnique(t: seq<Rule>, path: string, a: Rule, b: Rule)
    requires ValidTable(t) && a in t && b in t && Covers(a.location, path) && Covers(b.location, path)
    requires |a.location| == |b.location|
    ensures a == b
  {
    assert a.location <= path && b.location <= path;
    assert a.location == path[..|a.location|] == b.location;
    SameLocationSameRule(t, a, b);
  }

  lemma CoversIsNotExact(location: string, path: string)
    requires Covers(location, path)
    ensures !("= " <= location) && location <= path
  {
    assert location[0] == '/';
  }

  /** At most one outcome is intended. */
  lemma IntendedIsUnique(t: seq<Rule>, path: string, o: Outcome, q: Outcome)
    requires ValidTable(t) && "/" <= path && Intended(t, path, o) && Intended(t, path, q)
    ensures o == q
  {
    forall r | r in t && r.location == "= " + path ensures HasLocation(t, "= " + path) {}
    forall r | r in t && r.location == path + "/" ensures HasLocation(t, path + "/") {}
    if o.Forward? && q.Forward? {
      if o.rule.location == "= " + path {
        SameLocationSameRule(t, o.rule, q.rule);
      } else {
        LongestIsUnique(t, path, o.rule, q.rule);
      }
    }
  }

  /** The choice does not depend on the order of the table. */
  lemma SelectionIgnoresOrder(t: seq<Rule>, u: seq<Rule>, path: string)
    requires ValidTable(t) && ValidTable(u) && "/" <= path && forall r :: r in t <==> r in u
    ensures Select(t, path) == Select(u, path)
  {
    SelectIsIntended(t, path);
    SelectIsIntended(u, path);
    assert forall l :: HasLocation(t, l) <==> HasLocation(u, l);
    IntendedIsUnique(t, path, Select(t, path), Select(u, path));
  }

  /** A redirect goes to the same path with one slash, and from there never redirects again: it is
      forwarded by the very location redirected to, or by an exact one for it. */
  lemma RedirectsOnce(t: seq<Rule>, path: string)
    requires ValidTable(t) && "/" <= path && Select(t, path).Redirect?
    ensures var to := Select(t, path).to;
      && to == path + "/" && Select(t, to).Forward?
      && Select(t, to).rule.location == (if HasLocation(t, "= " + to) then "= " + to else to)
  {
    var to := Select(t, path).to;
    SelectIsIntended(t, path);
    SelectIsIntended(t, to);
    var r :| r in t && r.location == to;
    assert Covers(to, to);
    assert LocationPath(to) == to && !IsReserved(to);
    forall s | s in t ensures s.location != to + "/" {
      RedirectIsSlash(s.location, to);
    }
    var o := Select(t, to);
    if HasLocation(t, "= " + to) {
      var e :| e in t && e.location == "= " + to;
      assert Intended(t, to, Forward(e));
      IntendedIsUnique(t, to, o, Forward(e));
    } else {
      forall s | s in t && Covers(s.location, to) ensures |s.location| <= |to| {
        CoversIsNotExact(s.location, to);
      }
      assert Intended(t, to, Forward(r));
      IntendedIsUnique(t, to, o, Forward(r));
    }
  }

  // ------------------------------------------------------------ the rewritten path

  /** The chosen location can always be stripped: the upstream sees its base path followed by exactly
      what the request has after the location. */
  lemma ChosenIsRewritten(t: seq<Rule>, path: string)
    requires ValidTable(t) && "/" <= path && Select(t, path).Forward?
    ensures var r := Select(t, path).rule;
      && ProxyUri(r, path).Some?
      && (r.upstream.base.None? ==> ProxyUri(r, path).value == path)
      && (r.upstream.base.Some? && "= " <= r.location ==> ProxyUri(r, path).value == r.upstream.base.value)
      && (r.upstream.base.Some? && !("= " <= r.location) ==> exists suffix ::
            path == r.location + suffix && ProxyUri(r, path).value == r.upstream.base.value + suffix)
  {
    SelectIsIntended(t, path);
    var r := Select(t, path).rule;
    if r.location != "= " + path {
      CoversIsNotExact(r.location, path);
      assert path == r.location + path[|r.location|..];
    }
  }

  lemma NonPathIsNotExact(location: string, path: string)
    requires ValidLocation(location) && !("/" <= path)
    ensures location != "= " + path
  {
    assert ("= " + path)[2..] == path;
  }

  lemma LocationStart(location: string)
    requires ValidLocation(location)
    ensures "/" <= location || "= " <= location
    ensures location != "" && (location[0] == '/' || (|location| > 1 && location[1] == ' '))
  {
  }

  lemma NonPathIsNotRedirected(location: string, path: string)
    requires ValidLocation(location) && path != "" && ' ' !in path && !("/" <= path)
    ensures !RedirectsTo(location, path)
  {
    LocationStart(location);
    TrimOfLocation(location);
    assert (path + "/")[0] == path[0] && (|path| == 1 ==> (path + "/")[1] == '/');
    assert |path| > 1 ==> (path + "/")[1] == path[1];
  }

  lemma MatchedIsPath(location: string, path: string)
    requires ValidLocation(location) && Matches(location, path) && location != "/" && path != ""
    ensures "/" <= path
  {
    var front := TrimEnd(location);
    TrimOfLocation(location);
    assert front != "" && front[0] == location[0];
    if path != front {
      PrefixStarts(front, path);
    }
  }

  lemma PrefixStarts(front: string, path: string)
    requires front != "" && front + "/" <= path
    ensures path != "" && path[0] == front[0]
  {
    assert (front + "/")[0] == front[0];
  }

  lemma NonPathMatchesRoot(location: string, path: string)
    requires ValidLocation(location) && path != "" && !("/" <= path)
    ensures Matches(location, path) <==> location == "/"
  {
    if Matches(location, path) && location != "/" {
      MatchedIsPath(location, path);
    }
  }

  /** The empty path of an authority form: a location `/` redirects it, and nothing else takes it. */
  lemma EmptyIsNotForwarded(t: seq<Rule>)
    requires ValidTable(t)
    ensures !Select(t, "").Forward?
  {
    ExactExactly(t, "");
    RedirectExactly(t, "");
    LongestExactly(t, "");
    forall r | r in t ensures r.location != "= " + "" && (Matches(r.location, "") ==> RedirectsTo(r.location, "")) {
      NonPathIsNotExact(r.location, "");
      EmptyMatchesRoot(r.location);
    }
  }

  lemma EmptyMatchesRoot(location: string)
    requires ValidLocation(location)
    ensures Matches(location, "") ==> RedirectsTo(location, "")
  {
    if Matches(location, "") {
      TrimOfLocation(location);
      assert location == "/" || TrimEnd(location) == "";
      assert TrimEnd("") == "";
      assert location == "/";
    }
  }

  ghost predicate HasBasedRoot(t: seq<Rule>) {
    exists r :: r in t && r.location == "/" && r.upstream.base.Some?
  }

  lemma NonPathSelectsRoot(t: seq<Rule>, path: string)
    requires ValidTable(t) && path != "" && ' ' !in path && !("/" <= path)
    ensures FindExact(t, path).None? && FindRedirect(t, path).None?
    ensures Longest(t, path).Some? <==> HasLocation(t, "/")
    ensures Longest(t, path).Some? ==> Longest(t, path).value in t && Longest(t, path).value.location == "/"
  {
    ExactExactly(t, path);
    RedirectExactly(t, path);
    LongestExactly(t, path);
    forall r | r in t ensures r.location != "= " + path && !RedirectsTo(r.location, path)
      && (Matches(r.location, path) <==> r.location == "/") {
      NonPathIsNotExact(r.location, path);
      NonPathIsNotRedirected(r.location, path);
      NonPathMatchesRoot(r.location, path);
    }
  }

  /** A request target that is no path at all (the asterisk form) matches only the location `/`. Stripping
      fails exactly there, when that location has an upstream with a base path. */
  lemma OnlyNonPathsFailToStrip(t: seq<Rule>, path: string)
    requires ValidTable(t) && ' ' !in path
    ensures Select(t, path).Forward? && ProxyUri(Select(t, path).rule, path).None? <==>
      path != "" && !("/" <= path) && HasBasedRoot(t)
  {
    if path == "" {
      EmptyIsNotForwarded(t);
    } else if "/" <= path && Select(t, path).Forward? {
      PathStrips(t, path);
    } else if !("/" <= path) {
      NonPathFailsAtBase(t, path);
    }
  }

  lemma PathStrips(t: seq<Rule>, path: string)
    requires ValidTable(t) && "/" <= path && Select(t, path).Forward?
    ensures ProxyUri(Select(t, path).rule, path).Some?
  {
    ChosenIsRewritten(t, path);
  }

  lemma NonPathFailsAtBase(t: seq<Rule>, path: string)
    requires ValidTable(t) && path != "" && ' ' !in path && !("/" <= path)
    ensures Select(t, path).Forward? && ProxyUri(Select(t, path).rule, path).None? <==> HasBasedRoot(t)
  {
    NonPathSelectsRoot(t, path);
    if HasBasedRoot(t) {
      var r :| r in t && r.location == "/" && r.upstream.base.Some?;
      SameLocationSameRule(t, r, Longest(t, path).value);
    }
  }

  /** The input: the asterisk form with one based rule for `/`. */
  lemma AsteriskFailsToStrip(authority: string, base: string)
    ensures var t := [Rule("/", Upstream(authority, Some(base)))];
      ValidTable(t) && Select(t, "*") == Forward(t[0]) && ProxyUri(t[0], "*") == None
  {
    var t := [Rule("/", Upstream(authority, Some(base)))];
    RootIsValid();
    assert t[0] in t && t[0].location == "/";
    assert HasLocation(t, "/");
    NonPathSelectsRoot(t, "*");
  }

  lemma RootIsValid()
    ensures ValidLocation("/")
  {
    Rooted("/");
    assert "/"[1..] == "";
    assert Paths.Split("", '/') == [""];
  }

  /** A location without trailing slash is never used when the same one with a slash exists. */
  lemma SlashShadows(t: seq<Rule>, path: string, location: string)
    requires ValidTable(t) && "/" <= path && "/" <= location && !EndsWithSlash(location)
    requires HasLocation(t, location + "/")
    ensures Select(t, path).Forward? ==> Select(t, path).rule.location != location
  {
    SelectIsIntended(t, path);
    var s :| s in t && s.location == location + "/";
    assert location[0] == '/';
    if Covers(location, path) && path != location {
      assert EndsWithSlash(s.location) && Covers(s.location, path);
    }
  }

  function Longer(t: seq<Rule>): (n: nat)
    ensures forall r :: r in t ==> |r.location| < n
  {
    if t == [] then 0
    else
      var rest := Longer(t[1..]);
      assert forall r :: r in t ==> r == t[0] || r in t[1..];
      if |t[0].location| < rest then rest else |t[0].location| + 1
  }

  /** A path below a location by one component longer than every location. */
  function FarBelow(location: string, n: nat): (path: string)
    ensures |path| == |location| + 1 + n && location + "/" <= path
    ensures forall i :: |location| < i < |path| ==> path[i] == 'a'
  {
    location + "/" + seq(n, i => 'a')
  }

  lemma FarBelowIsNotReserved(location: string, n: nat)
    requires "/" <= location && !EndsWithSlash(location) && !IsReserved(location)
    ensures !IsReserved(FarBelow(location, n))
  {
    var path := FarBelow(location, n);
    assert path[|location|] == (location + "/")[|location|] == '/';
    assert path[..|location|] == location;
    if |location| < 4 {
      assert location[0] == '/' && "/std/"[|location|] != '/';
    } else {
      assert path[..4] == location[..4];
    }
  }

  lemma SlashFollows(other: string, path: string)
    requires other + "/" <= path
    ensures path[|other|] == '/'
  {
    assert path[|other|] == (other + "/")[|other|];
  }

  /** Only the location's own twin with a slash could take that path away. */
  lemma FarBelowIsCoveredShortly(location: string, n: nat, other: string)
    requires "/" <= location && Covers(other, FarBelow(location, n)) && |other| <= n
    ensures |other| <= |location| || other == location + "/"
  {
    var path := FarBelow(location, n);
    CoversIsNotExact(other, path);
    if EndsWithSlash(other) {
      assert path[|other| - 1] == '/';
      if |other| == |location| + 1 {
        assert other == path[..|location| + 1] == location + "/";
      }
    } else if other + "/" <= path {
      SlashFollows(other, path);
    }
  }

  lemma FarBelowIsForwarded(t: seq<Rule>, r: Rule)
    requires ValidTable(t) && r in t && "/" <= r.location && !EndsWithSlash(r.location)
    requires !HasLocation(t, r.location + "/")
    ensures Select(t, FarBelow(r.location, Longer(t))) == Forward(r)
  {
    var n := Longer(t);
    var path := FarBelow(r.location, n);
    assert LocationPath(r.location) == r.location;
    FarBelowIsNotReserved(r.location, n);
    assert path[0] == r.location[0];
    forall s | s in t && Covers(s.location, path) ensures |s.location| <= |r.location| {
      FarBelowIsCoveredShortly(r.location, n, s.location);
    }
    assert Intended(t, path, Forward(r));
    SelectIsIntended(t, path);
    IntendedIsUnique(t, path, Select(t, path), Forward(r));
  }

  /** A location without trailing slash serves some path exactly when its twin with a slash is absent. */
  lemma SlashlessIsUsedExactly(t: seq<Rule>, r: Rule)
    requires ValidTable(t) && r in t && "/" <= r.location && !EndsWithSlash(r.location)
    ensures (exists path :: "/" <= path && Select(t, path) == Forward(r)) <==> !HasLocation(t, r.location + "/")
  {
    if HasLocation(t, r.location + "/") {
      forall path | "/" <= path ensures Select(t, path) != Forward(r) {
        SlashShadows(t, path, r.location);
      }
    } else {
      FarBelowIsForwarded(t, r);
      assert "/" <= FarBelow(r.location, Longer(t));
    }
  }
}
