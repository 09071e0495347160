/** The routes packages publish, the collision check at installation, and how a request finds its
    package again. */
module Routes {
  import opened Wrappers
  import opened Identity
  import opened Paths
  import opened Texts

  type Methods = set<string>

  /** The served parts of one package: a Lib's API paths with their methods, an App's files below
      `public/`. */
  datatype Package = Package(id: PackageId, lib: Option<map<string, Methods>>, app: Option<set<string>>)

  datatype Kind = LibKind | AppKind

  const INDEX := "index.html"
  const READ: Methods := {"GET", "HEAD"}
  const NATIVE_ROOTS := {"/acl", "/contact", "/contacts", "/sys", "/pishoo", "/file", "/dhttp"}

  predicate HasKind(p: Package, kind: Kind) {
    if kind == LibKind then p.lib.Some? else p.app.Some?
  }

  // ------------------------------------------------------------ accepted packages

  predicate NativePath(path: string) {
    IsReserved(path) || exists root :: root in NATIVE_ROOTS && AtOrBelow(path, root)
  }

  /** The namespace rules a package's own metadata must satisfy. */
  ghost predicate ValidPackage(p: Package) {
    && ValidName(p.id.name) && p.id.name != "std"
    && (p.lib.Some? && p.id.name == "app" ==> IsStandard(p.id))
    && (p.lib.Some? ==> forall path :: path in p.lib.value ==> ValidPath(path))
    && (p.lib.Some? && IsStandard(p.id) ==>
          forall path :: path in p.lib.value ==> !NativePath(path) && AtOrBelow(path, "/" + p.id.name))
    && (p.app.Some? ==> forall file :: file in p.app.value ==> FileName(file))
  }

  /** A path below `public/`: no empty component and no escape character. */
  predicate FileName(file: string) {
    "" !in Split(file, '/') && '%' !in file
  }

  // ------------------------------------------------------------ published routes

  function LibPrefix(id: PackageId): string {
    if IsStandard(id) then "/std" else "/" + id.name
  }

  function AppMount(name: string): string {
    "/app/" + name
  }

  function AppRoute(name: string, file: string): string {
    AppMount(name) + "/" + (if file == INDEX then "" else file)
  }

  function AppPaths(name: string, files: set<string>): set<string> {
    (set file | file in files :: AppRoute(name, file)) + {AppMount(name)}
  }

  function PackageRoutes(p: Package, kind: Kind): map<string, Methods>
    requires HasKind(p, kind)
  {
    match kind
    case LibKind =>
      var prefix := LibPrefix(p.id);
      map route | route in (set path | path in p.lib.value :: prefix + path) && route[|prefix|..] in p.lib.value
        :: p.lib.value[route[|prefix|..]]
    case AppKind =>
      map route | route in AppPaths(p.id.name, p.app.value) :: READ
  }

  lemma LibRoutesExactly(p: Package, route: string)
    requires p.lib.Some?
    ensures route in PackageRoutes(p, LibKind) <==>
      LibPrefix(p.id) <= route && route[|LibPrefix(p.id)|..] in p.lib.value
    ensures route in PackageRoutes(p, LibKind) ==>
      PackageRoutes(p, LibKind)[route] == p.lib.value[route[|LibPrefix(p.id)|..]]
  {
    var prefix := LibPrefix(p.id);
    if prefix <= route {
      assert route == prefix + route[|prefix|..];
    }
  }

  // ------------------------------------------------------------ who owns a route

  /** The short name a route belongs to: its first component, or the second below `/std` and `/app`. */
  function Owner(route: string): string {
    var parts := Split(route, '/');
    if |parts| < 2 then ""
    else if parts[1] in {"std", "app"} && |parts| > 2 then parts[2]
    else parts[1]
  }

  function Area(route: string): string {
    var parts := Split(route, '/');
    if |parts| < 2 then "" else parts[1]
  }

  lemma NameHasNoSlash(name: string)
    requires ValidName(name)
    ensures '/' !in name
  {
  }

  function Tail(path: string): seq<string> {
    if path == "" then [] else Split(path[1..], '/')
  }

  lemma SplitHead(a: string, path: string)
    requires '/' !in a && (path == "" || "/" <= path)
    ensures Split(a + path, '/') == [a] + Tail(path)
  {
    if path == "" {
      assert a + path == a;
      SplitPlain(a, '/');
    } else {
      FirstComponent(a, path);
    }
  }

  /** `/a` followed by a path. */
  lemma SplitMounted(a: string, path: string, whole: string)
    requires '/' !in a && (path == "" || "/" <= path) && whole == "/" + a + path
    ensures Split(whole, '/') == ["", a] + Tail(path)
  {
    Rooted(whole);
    assert whole[1..] == a + path;
    SplitHead(a, path);
  }

  lemma SplitBelow(a: string, b: string, path: string, rest: string, whole: string)
    requires '/' !in a && '/' !in b && (path == "" || "/" <= path)
    requires rest == "/" + b + path && whole == "/" + a + rest
    ensures Split(whole, '/') == ["", a, b] + Tail(path)
  {
    SplitMounted(a, rest, whole);
    TailOf(b, path);
    assert ["", a] + ([b] + Tail(path)) == ["", a, b] + Tail(path);
  }

  lemma TailOf(b: string, path: string)
    requires '/' !in b && (path == "" || "/" <= path)
    ensures Tail("/" + b + path) == [b] + Tail(path)
  {
    Regroup("/", b, path);
    assert ("/" + (b + path))[1..] == b + path;
    SplitHead(b, path);
  }

  lemma Regroup(a: string, b: string, c: string)
    ensures a + b + c == a + (b + c)
  {
  }

  lemma OrdinaryLibOwner(p: Package, path: string)
    requires ValidPackage(p) && p.lib.Some? && !IsStandard(p.id) && "/" <= path
    ensures Owner(LibPrefix(p.id) + path) == p.id.name == Area(LibPrefix(p.id) + path)
  {
    NameHasNoSlash(p.id.name);
    SplitMounted(p.id.name, path, LibPrefix(p.id) + path);
    assert |Split(path[1..], '/')| >= 1;
  }

  lemma Below(path: string, mount: string) returns (rest: string)
    requires AtOrBelow(path, mount)
    ensures path == mount + rest && (rest == "" || "/" <= rest)
  {
    rest := path[|mount|..];
    assert path == mount + rest;
    if path != mount {
      assert rest[0] == (mount + "/")[|mount|];
    }
  }

  /** A path in one of the two shared areas belongs to its second component. */
  lemma OwnerInArea(area: string, name: string, rest: string, whole: string)
    requires area in {"std", "app"} && '/' !in area && '/' !in name && (rest == "" || "/" <= rest)
    requires whole == "/" + area + "/" + name + rest
    ensures Owner(whole) == name && Area(whole) == area
  {
    Regroup("/" + area, "/" + name, rest);
    SplitBelow(area, name, rest, "/" + name + rest, whole);
  }

  lemma UnderStd(name: string, rest: string, path: string)
    requires path == "/" + name + rest
    ensures "/std" + path == "/" + "std" + "/" + name + rest
  {
  }

  lemma StandardLibOwner(p: Package, path: string)
    requires ValidPackage(p) && p.lib.Some? && IsStandard(p.id) && path in p.lib.value
    ensures Owner(LibPrefix(p.id) + path) == p.id.name && Area(LibPrefix(p.id) + path) == "std"
  {
    NameHasNoSlash(p.id.name);
    var rest := Below(path, "/" + p.id.name);
    UnderStd(p.id.name, rest, path);
    OwnerInArea("std", p.id.name, rest, "/std" + path);
  }

  lemma AppOwner(p: Package, rest: string)
    requires ValidPackage(p) && (rest == "" || "/" <= rest)
    ensures Owner(AppMount(p.id.name) + rest) == p.id.name && Area(AppMount(p.id.name) + rest) == "app"
  {
    NameHasNoSlash(p.id.name);
    assert AppMount(p.id.name) + rest == "/" + "app" + "/" + p.id.name + rest;
    OwnerInArea("app", p.id.name, rest, AppMount(p.id.name) + rest);
  }

  lemma AppRouteForm(p: Package, route: string) returns (rest: string)
    requires p.app.Some? && route in PackageRoutes(p, AppKind)
    ensures route == AppMount(p.id.name) + rest && (rest == "" || "/" <= rest)
    ensures rest != "" && rest != "/" ==> rest[1..] in p.app.value && rest[1..] != INDEX
    ensures rest == "/" ==> INDEX in p.app.value || "" in p.app.value
  {
    if route == AppMount(p.id.name) {
      rest := "";
    } else {
      var file :| file in p.app.value && route == AppRoute(p.id.name, file);
      rest := "/" + (if file == INDEX then "" else file);
      assert rest[1..] == if file == INDEX then "" else file;
    }
  }

  lemma RoutesAreOwned(p: Package, kind: Kind, route: string)
    requires ValidPackage(p) && HasKind(p, kind) && route in PackageRoutes(p, kind)
    ensures Owner(route) == p.id.name
    ensures Area(route) ==
      if kind == AppKind then "app" else if IsStandard(p.id) then "std" else p.id.name
  {
    match kind {
      case LibKind =>
        LibRoutesExactly(p, route);
        var path := route[|LibPrefix(p.id)|..];
        assert route == LibPrefix(p.id) + path;
        if IsStandard(p.id) { StandardLibOwner(p, path); } else { OrdinaryLibOwner(p, path); }
      case AppKind =>
        var rest := AppRouteForm(p, route);
        AppOwner(p, rest);
    }
  }

  /** Packages with different short names never share a route, whatever their kinds. */
  lemma RoutesAreDisjoint(p: Package, k: Kind, q: Package, l: Kind)
    requires ValidPackage(p) && HasKind(p, k) && ValidPackage(q) && HasKind(q, l)
    requires p.id.name != q.id.name || k != l
    ensures PackageRoutes(p, k).Keys !! PackageRoutes(q, l).Keys
  {
    forall route | route in PackageRoutes(p, k) && route in PackageRoutes(q, l) ensures false {
      RoutesAreOwned(p, k, route);
      RoutesAreOwned(q, l, route);
    }
  }

  // ------------------------------------------------------------ the check at installation

  datatype Conflict = WithProxy(location: string) | WithPackage(id: PackageId)

  /** Where the files of one part are served, unless they go below `/std`. */
  function Mount(id: PackageId, kind: Kind): Option<string> {
    if kind == AppKind then Some(AppMount(id.name))
    else if IsStandard(id) then None
    else Some("/" + id.name)
  }

  /** The path of a proxy location, exact or not. */
  function LocationPath(location: string): string {
    if "= " <= location then location[2..] else location
  }

  /** The installer's own test: the location without trailing slashes is the mount or below it. */
  predicate Occupies(location: string, mount: string) {
    AtOrBelow(TrimEnd(LocationPath(location)), mount)
  }

  ghost predicate ProxyInWay(locations: set<string>, p: Package, kind: Kind) {
    Mount(p.id, kind).Some? && exists l :: l in locations && Occupies(l, Mount(p.id, kind).value)
  }

  /** Two packages answer one route, for Libs whatever the method. */
  ghost predicate Collide(p: Package, k: Kind, q: Package, l: Kind)
    requires HasKind(p, k) && HasKind(q, l)
  {
    exists route :: route in PackageRoutes(p, k) && route in PackageRoutes(q, l)
      && ((k == LibKind && l == LibKind) || PackageRoutes(p, k)[route] * PackageRoutes(q, l)[route] != {})
  }

  ghost predicate CollidesWith(p: Package, k: Kind, q: Package) {
    HasKind(p, k) && q.id != p.id
      && ((q.lib.Some? && Collide(p, k, q, LibKind)) || (q.app.Some? && Collide(p, k, q, AppKind)))
  }

  /** Compare route tables entry by entry. */
  method TablesCollide(ours: map<string, Methods>, theirs: map<string, Methods>, libs: bool) returns (yes: bool)
    ensures yes <==> exists route :: route in ours && route in theirs && (libs || ours[route] * theirs[route] != {})
  {
    var rest := theirs.Keys;
    while rest != {}
      invariant rest <= theirs.Keys
      invariant forall route :: route in theirs && route !in rest && route in ours ==>
        !libs && ours[route] * theirs[route] == {}
      decreases rest
    {
      var route :| route in rest;
      rest := rest - {route};
      if route in ours && (libs || ours[route] * theirs[route] != {}) {
        return true;
      }
    }
    yes := false;
  }

  method CheckRoutes(locations: set<string>, p: Package, kind: Kind, installed: set<Package>)
    returns (r: Option<Conflict>)
    requires HasKind(p, kind)
    ensures r.Some? && r.value.WithProxy? <==> ProxyInWay(locations, p, kind)
    ensures r.Some? && r.value.WithProxy? ==>
      r.value.location in locations && Occupies(r.value.location, Mount(p.id, kind).value)
    ensures r.Some? && r.value.WithPackage? <==>
      !ProxyInWay(locations, p, kind) && exists q :: q in installed && CollidesWith(p, kind, q)
    ensures r.Some? && r.value.WithPackage? ==>
      exists q :: q in installed && q.id == r.value.id && CollidesWith(p, kind, q)
  {
    if Mount(p.id, kind).Some? {
      var mount := Mount(p.id, kind).value;
      var rest := locations;
      while rest != {}
        invariant rest <= locations && forall l :: l in locations && l !in rest ==> !Occupies(l, mount)
        decreases rest
      {
        var location :| location in rest;
        rest := rest - {location};
        if Occupies(location, mount) {
          return Some(WithProxy(location));
        }
      }
    }
    var routes := PackageRoutes(p, kind);
    var rest := installed;
    while rest != {}
      invariant rest <= installed && forall q :: q in installed && q !in rest ==> !CollidesWith(p, kind, q)
      decreases rest
    {
      var q :| q in rest;
      rest := rest - {q};
      if q.id == p.id {
        continue;
      }
      if q.lib.Some? {
        var yes := TablesCollide(routes, PackageRoutes(q, LibKind), kind == LibKind);
        if yes {
          return Some(WithPackage(q.id));
        }
      }
      if q.app.Some? {
        var yes := TablesCollide(routes, PackageRoutes(q, AppKind), false);
        if yes {
          return Some(WithPackage(q.id));
        }
      }
    }
    r := None;
  }

  /** Against any installation of other names the package test never fires: the check is exactly the
      proxy test, and a batch need not be compared with itself. */
  lemma OnlyProxiesConflict(p: Package, kind: Kind, installed: set<Package>)
    requires ValidPackage(p) && HasKind(p, kind)
    requires forall q :: q in installed ==> ValidPackage(q) && (q.id == p.id || q.id.name != p.id.name)
    ensures !exists q :: q in installed && CollidesWith(p, kind, q)
  {
    forall q | q in installed && q.id != p.id ensures !CollidesWith(p, kind, q) {
      if q.lib.Some? { RoutesAreDisjoint(p, kind, q, LibKind); }
      if q.app.Some? { RoutesAreDisjoint(p, kind, q, AppKind); }
    }
  }

  /** The name rules are needed: an ordinary Lib called `app` would answer an App's routes. */
  lemma AppNameWouldCollide(author: string, file: string, methods: Methods)
    requires !IsStandardAuthor(author)
    ensures Collide(Package(PackageId(Some(author), "app"), Some(map["/x" := methods]), None), LibKind,
                    Package(PackageId(Some("b"), "x"), Some(map["/" := methods]), Some({file})), AppKind)
      <==> "GET" in methods || "HEAD" in methods
  {
    var p := Package(PackageId(Some(author), "app"), Some(map["/x" := methods]), None);
    var q := Package(PackageId(Some("b"), "x"), Some(map["/" := methods]), Some({file}));
    LibRoutesExactly(p, "/app/x");
    assert "/app/x" == "/" + "app" + "/x";
    assert AppMount("x") == "/app/x";
    assert LibPrefix(p.id) == "/app" && "/app/x"[|"/app"|..] == "/x";
    assert "/app/x" in PackageRoutes(p, LibKind) && PackageRoutes(p, LibKind)["/app/x"] == methods;
    assert PackageRoutes(q, AppKind)["/app/x"] == READ;
    assert methods * READ != {} <==> "GET" in methods || "HEAD" in methods by {
      if methods * READ != {} { var m :| m in methods * READ; }
      if "GET" in methods { assert "GET" in methods * READ; }
      if "HEAD" in methods { assert "HEAD" in methods * READ; }
    }
    forall route | route in PackageRoutes(p, LibKind) ensures route == "/app/x" {
      LibRoutesExactly(p, route);
      assert route == LibPrefix(p.id) + route[|LibPrefix(p.id)|..];
    }
  }
}
