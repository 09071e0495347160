/** Which handler a request path reaches, given the loaded Libs and Apps. */
module Dispatch {
  import opened Wrappers
  import opened Identity
  import opened Paths
  import opened Texts
  import opened Routes
  import Registration
  import Sandbox

  /** A Lib sees the rewritten path; an App the text after its name. */
  datatype Target =
    | ToNative
    | ToLib(id: PackageId, path: string)
    | ToApp(id: PackageId, suffix: string)
    | ToProxy
    | Missing

  /** The text before the first slash. */
  function FirstPart(s: string): (r: string)
    ensures r <= s && '/' !in r && (|r| < |s| ==> s[|r|] == '/')
  {
    if s == "" || s[0] == '/' then "" else [s[0]] + FirstPart(s[1..])
  }

  lemma {:induction false} FirstPartIs(name: string, rest: string)
    requires '/' !in name && (rest == "" || "/" <= rest)
    ensures FirstPart(name + rest) == name
  {
    if name == "" {
      assert name + rest == rest;
    } else {
      assert (name + rest)[1..] == name[1..] + rest;
      FirstPartIs(name[1..], rest);
    }
  }

  predicate ForStandard(path: string) {
    "/std/" <= path
  }

  function LibTail(path: string): string {
    if ForStandard(path) then path[5..] else if "/" <= path then path[1..] else path
  }

  /** Standard Libs keep their name in the path they see; others see what follows it. */
  function LibPath(path: string): string {
    var tail := LibTail(path);
    if ForStandard(path) then "/" + tail
    else
      var rest := tail[|FirstPart(tail)|..];
      if rest == "" then "/" else rest
  }

  predicate AsksLib(id: PackageId, path: string) {
    IsStandard(id) == ForStandard(path) && id.name == FirstPart(LibTail(path))
  }

  predicate AsksApp(id: PackageId, path: string) {
    "/app/" <= path && id.name == FirstPart(path[5..])
  }

  function AppSuffix(path: string): string
    requires "/app/" <= path
  {
    path[5 + |FirstPart(path[5..])|..]
  }

  /** What an App answers: a redirect to its root, one of its files, or nothing. */
  datatype Page = Redirected | Served(file: string) | NotServed

  predicate IsControl(c: char) {
    c as int < 0x20 || 0x7F <= c as int < 0xA0
  }

  predicate HasControl(s: string) {
    exists c :: c in s && IsControl(c)
  }

  /** The suffixes refused before any file is looked for, after percent decoding. */
  predicate RefusedSuffix(suffix: string) {
    || '\\' in suffix || '%' in suffix || HasControl(suffix)
    || "." in Split(suffix, '/') || ".." in Split(suffix, '/')
  }

  /** The paths an App opens: no component is empty or one the installer keeps for itself. */
  predicate Openable(file: string) {
    && '\\' !in file && '\0' !in file
    && forall part {:trigger Kept(part)} :: part in Split(file, '/') ==> !Kept(part)
  }

  predicate Kept(part: string) {
    part == "" || part == "." || part == ".." || part == ".transaction.json" || part == ".previous"
  }

  function FileOf(suffix: string): string {
    if suffix == "/" then INDEX else TrimStart(suffix)
  }

  /** A file that is not there stands for the index page, unless the request asks for an asset. */
  function PageOf(files: set<string>, suffix: string, asset: bool): Page {
    if suffix == "" then Redirected
    else if RefusedSuffix(suffix) then NotServed
    else if Openable(FileOf(suffix)) && FileOf(suffix) in files then Served(FileOf(suffix))
    else if !asset && INDEX in files then Served(INDEX)
    else NotServed
  }

  ghost predicate UnderNative(path: string) {
    exists root :: root in NATIVE_ROOTS && AtOrBelow(path, "/std" + root)
  }

  /** The routes the server itself registers; each lies in the native namespace. */
  type Natives = string -> bool

  ghost predicate Confined(native: Natives) {
    forall path :: native(path) ==> UnderNative(path)
  }

  /** The server's test before it considers a proxy. */
  ghost predicate Occupied(libs: set<PackageId>, apps: set<PackageId>, path: string) {
    || (exists id :: id in apps && AsksApp(id, path))
    || (exists id :: id in libs && !IsStandard(id) && id.name == FirstPart(TrimStart(path)))
  }

  ghost predicate AnswersLib(libs: set<PackageId>, path: string, t: Target) {
    || (t.ToLib? && t.id in libs && AsksLib(t.id, path) && t.path == LibPath(path))
    || (t == Missing && forall id :: id in libs ==> !AsksLib(id, path))
  }

  ghost predicate AnswersApp(apps: set<PackageId>, path: string, t: Target) {
    || (t.ToApp? && t.id in apps && AsksApp(t.id, path) && t.suffix == AppSuffix(path))
    || (t == Missing && forall id :: id in apps ==> !AsksApp(id, path))
  }

  ghost predicate Answers(native: Natives, libs: set<PackageId>, apps: set<PackageId>, path: string, t: Target) {
    if native(path) then t == ToNative
    else if path == "/std" then t == Missing
    else if ForStandard(path) && |path| > 5 then AnswersLib(libs, path, t)
    else if !Occupied(libs, apps, path) then t == ToProxy
    else if "/app/" <= path then AnswersApp(apps, path, t)
    else AnswersLib(libs, path, t)
  }

  // ------------------------------------------------------------ the lookups, in any map order

  method ServeLib(libs: set<PackageId>, path: string) returns (t: Target)
    ensures AnswersLib(libs, path, t)
  {
    var rest := libs;
    while rest != {}
      invariant rest <= libs && forall id :: id in libs && id !in rest ==> !AsksLib(id, path)
      decreases rest
    {
      var id :| id in rest;
      rest := rest - {id};
      if AsksLib(id, path) {
        return ToLib(id, LibPath(path));
      }
    }
    t := Missing;
  }

  method ServeApp(apps: set<PackageId>, path: string) returns (t: Target)
    requires "/app/" <= path
    ensures AnswersApp(apps, path, t)
  {
    var rest := apps;
    while rest != {}
      invariant rest <= apps && forall id :: id in apps && id !in rest ==> !AsksApp(id, path)
      decreases rest
    {
      var id :| id in rest;
      rest := rest - {id};
      if AsksApp(id, path) {
        return ToApp(id, AppSuffix(path));
      }
    }
    t := Missing;
  }

  method TestInstalled(libs: set<PackageId>, apps: set<PackageId>, path: string) returns (yes: bool)
    ensures yes <==> Occupied(libs, apps, path)
  {
    var rest := apps;
    while rest != {}
      invariant rest <= apps && forall id :: id in apps && id !in rest ==> !AsksApp(id, path)
      decreases rest
    {
      var id :| id in rest;
      rest := rest - {id};
      if AsksApp(id, path) { return true; }
    }
    var name := FirstPart(TrimStart(path));
    rest := libs;
    while rest != {}
      invariant rest <= libs && forall id :: id in libs && id !in rest ==> IsStandard(id) || id.name != name
      decreases rest
    {
      var id :| id in rest;
      rest := rest - {id};
      if !IsStandard(id) && id.name == name { return true; }
    }
    yes := false;
  }

  method Serve(native: Natives, libs: set<PackageId>, apps: set<PackageId>, path: string) returns (t: Target)
    ensures Answers(native, libs, apps, path, t)
  {
    if native(path) {
      return ToNative;
    }
    if path == "/std" {
      return Missing;
    }
    if ForStandard(path) && |path| > 5 {
      t := ServeLib(libs, path);
      return;
    }
    var installed := TestInstalled(libs, apps, path);
    if !installed {
      return ToProxy;
    }
    if "/app/" <= path {
      t := ServeApp(apps, path);
    } else {
      t := ServeLib(libs, path);
    }
  }

  // ------------------------------------------------------------ dispatch inverts publication

  ghost predicate UniqueNames(ids: set<PackageId>) {
    forall a, b :: a in ids && b in ids && a.name == b.name ==> a == b
  }

  /** A runtime that mirrors the registry never holds two packages of one short name. */
  lemma MirroredNamesAreUnique(t: Registration.Tables, rt: Registration.Runtime)
    requires Sandbox.Mirrors(t, rt)
    ensures UniqueNames(rt.libs.Keys) && UniqueNames(rt.apps.Keys)
  {
    forall a, b | a in rt.libs && b in rt.libs && a.name == b.name ensures a == b {
      assert Sandbox.MirroredAt(t, rt, a) && Sandbox.MirroredAt(t, rt, b);
    }
    forall a, b | a in rt.apps && b in rt.apps && a.name == b.name ensures a == b {
      assert Sandbox.MirroredAt(t, rt, a) && Sandbox.MirroredAt(t, rt, b);
    }
  }

  lemma StartsStd(path: string)
    requires "/std/" <= path
    ensures FirstPart(path[1..]) == "std"
  {
    var rest := path[4..];
    assert rest[0] == path[4] == '/' && path[1..] == "std" + rest;
    FirstPartIs("std", rest);
  }

  lemma StartsApp(path: string)
    requires "/app/" <= path
    ensures FirstPart(path[1..]) == "app"
  {
    var rest := path[4..];
    assert rest[0] == path[4] == '/' && path[1..] == "app" + rest;
    FirstPartIs("app", rest);
  }

  lemma RootIsPath(root: string)
    requires root in NATIVE_ROOTS
    ensures "/" <= root
  {
  }

  lemma NativeStartsStd(path: string)
    requires UnderNative(path)
    ensures "/std/" <= path
  {
    var root :| root in NATIVE_ROOTS && AtOrBelow(path, "/std" + root);
    RootIsPath(root);
    assert "/std" + root <= path;
    assert ("/std" + root)[..5] == "/std/";
  }

  lemma StdAlone()
    ensures FirstPart("/std"[1..]) == "std"
  {
    assert "/std"[1..] == "std" + "";
    FirstPartIs("std", "");
  }

  /** A path whose first component is not `std` stays out of the native namespace. */
  lemma NotNative(area: string, tail: string, path: string)
    requires '/' !in area && area != "std" && (tail == "" || "/" <= tail) && path == "/" + area + tail
    ensures !UnderNative(path) && path != "/std" && !ForStandard(path)
    ensures "/app/" <= path ==> area == "app"
    ensures path[1..] == area + tail && FirstPart(path[1..]) == area
  {
    assert path[1..] == area + tail;
    FirstPartIs(area, tail);
    StdAlone();
    if "/std/" <= path { StartsStd(path); }
    if "/app/" <= path { StartsApp(path); }
    if UnderNative(path) { NativeStartsStd(path); }
  }

  lemma OrdinaryAsks(id: PackageId, path: string, route: string)
    requires !IsStandard(id) && id.name != "" && '/' !in id.name && id.name != "std" && "/" <= path
    requires route == "/" + id.name + path
    ensures AsksLib(id, route) && LibPath(route) == path && FirstPart(TrimStart(route)) == id.name
    ensures !UnderNative(route) && route != "/std" && !ForStandard(route)
    ensures "/app/" <= route ==> id.name == "app"
  {
    NotNative(id.name, path, route);
    assert route[1..][0] == id.name[0];
    assert TrimStart(route) == route[1..];
    assert (id.name + path)[|id.name|..] == path;
  }

  /** A request to a published Lib route reaches that Lib, with the path its API declares. */
  lemma OrdinaryRouteReaches(native: Natives, libs: set<PackageId>, apps: set<PackageId>, p: Package, path: string,
                             t: Target)
    requires Confined(native)
    requires ValidPackage(p) && p.lib.Some? && path in p.lib.value && p.id in libs && UniqueNames(libs)
    requires !IsStandard(p.id) && Answers(native, libs, apps, LibPrefix(p.id) + path, t)
    ensures t == ToLib(p.id, path)
  {
    var route := LibPrefix(p.id) + path;
    NameHasNoSlash(p.id.name);
    OrdinaryAsks(p.id, path, route);
    assert Occupied(libs, apps, route);
    assert AnswersLib(libs, route, t);
  }

  lemma StandardAsks(id: PackageId, rest: string, route: string)
    requires IsStandard(id) && '/' !in id.name && (rest == "" || "/" <= rest)
    requires route == "/std/" + id.name + rest
    ensures AsksLib(id, route) && LibPath(route) == "/" + id.name + rest
    ensures route != "/std" && ForStandard(route)
  {
    assert route[5..] == id.name + rest;
    FirstPartIs(id.name, rest);
  }

  lemma NativeBelowStd(path: string)
    requires UnderNative("/std" + path)
    ensures NativePath(path)
  {
    var route := "/std" + path;
    var root :| root in NATIVE_ROOTS && AtOrBelow(route, "/std" + root);
    assert route[4..] == path && ("/std" + root)[4..] == root && ("/std" + root + "/")[4..] == root + "/";
    assert AtOrBelow(path, root);
  }

  lemma StandardRouteReaches(native: Natives, libs: set<PackageId>, apps: set<PackageId>, p: Package, path: string,
                             t: Target)
    requires Confined(native)
    requires ValidPackage(p) && p.lib.Some? && path in p.lib.value && p.id in libs && UniqueNames(libs)
    requires IsStandard(p.id) && Answers(native, libs, apps, LibPrefix(p.id) + path, t)
    ensures t == ToLib(p.id, path)
  {
    NameHasNoSlash(p.id.name);
    StandardPlace(p.id, path, "/std" + path);
    StandardAnswer(native, libs, apps, p.id, path, "/std" + path, t);
  }

  lemma StandardPlace(id: PackageId, path: string, route: string)
    requires IsStandard(id) && id.name != "" && '/' !in id.name && AtOrBelow(path, "/" + id.name)
    requires route == "/std" + path
    requires !NativePath(path)
    ensures AsksLib(id, route) && LibPath(route) == path && ForStandard(route) && route != "/std" && |route| > 5
    ensures !UnderNative(route)
  {
    var rest := Routes.Below(path, "/" + id.name);
    assert route == "/std/" + id.name + rest;
    StandardAsks(id, rest, route);
    if UnderNative(route) { NativeBelowStd(path); }
  }

  lemma StandardAnswer(native: Natives, libs: set<PackageId>, apps: set<PackageId>, id: PackageId, path: string,
                       route: string, t: Target)
    requires Confined(native)
    requires id in libs && UniqueNames(libs) && AsksLib(id, route) && LibPath(route) == path
    requires ForStandard(route) && route != "/std" && |route| > 5 && !UnderNative(route)
    requires Answers(native, libs, apps, route, t)
    ensures t == ToLib(id, path)
  {
    assert AnswersLib(libs, route, t);
  }

  function RouteSuffix(file: string): string {
    "/" + (if file == INDEX then "" else file)
  }

  /** A request to a published App route reaches that App, and gets the very file the route was
      published for: always for the root's own page, and otherwise exactly when no component of the
      path is reserved and no character is a control. */
  lemma AppRouteReaches(native: Natives, libs: set<PackageId>, apps: set<PackageId>, p: Package, file: string,
                        asset: bool, t: Target)
    requires Confined(native)
    requires ValidPackage(p) && p.app.Some? && file in p.app.value && p.id in apps && UniqueNames(apps)
    requires Answers(native, libs, apps, AppRoute(p.id.name, file), t)
    ensures t.ToApp? && t.id == p.id
    ensures PageOf(p.app.value, t.suffix, asset) == Served(file) <==>
      file == INDEX || (Openable(file) && !HasControl(file))
  {
    RouteIsMounted(p.id.name, file);
    AppReaches(native, libs, apps, p, RouteSuffix(file), AppRoute(p.id.name, file), t);
    SuffixSelects(p.app.value, file, asset);
  }

  lemma RouteIsMounted(name: string, file: string)
    ensures AppRoute(name, file) == AppMount(name) + RouteSuffix(file) && "/" <= RouteSuffix(file)
  {
    var tail := if file == INDEX then "" else file;
    assert AppMount(name) + ("/" + tail) == AppMount(name) + "/" + tail;
  }

  lemma SuffixSelects(files: set<string>, file: string, asset: bool)
    requires FileName(file) && file in files
    ensures PageOf(files, RouteSuffix(file), asset) == Served(file) <==>
      file == INDEX || (Openable(file) && !HasControl(file))
  {
    if file == INDEX {
      RootSelects(files, file, RouteSuffix(file), asset);
    } else {
      NameSelects(files, file, RouteSuffix(file), asset);
    }
  }

  /** The inputs: a published file whose last component is one the installer keeps for itself, in
      whatever directory, is never served. */
  lemma KeptNameIsNotServed(files: set<string>, directory: string, leaf: string, asset: bool)
    requires FileName(directory) && Kept(leaf) && leaf != ""
    ensures var file := directory + "/" + leaf;
      FileName(file) && (file in files ==> PageOf(files, RouteSuffix(file), asset) != Served(file))
  {
    var file := directory + "/" + leaf;
    assert file == directory + ['/'] + leaf;
    KeptIsPlain(leaf);
    SplitAt(directory, leaf, '/');
    SplitPlain(leaf, '/');
    var parts := Split(file, '/');
    assert parts[|parts| - 1] == leaf;
    NestedIsNotIndex(file);
    if file in files {
      SuffixSelects(files, file, asset);
    }
  }

  lemma KeptIsPlain(leaf: string)
    requires Kept(leaf)
    ensures '/' !in leaf && '%' !in leaf
  {
  }

  lemma NestedIsNotIndex(file: string)
    requires '/' in file
    ensures file != INDEX
  {
  }

  /** A name of letters and dots is openable. */
  lemma PlainName(name: string)
    requires !Kept(name)
    requires forall c :: c in name ==> 'a' <= c <= 'z' || c == '.'
    ensures Openable(name) && !HasControl(name)
  {
    SplitPlain(name, '/');
    assert forall part :: part in Split(name, '/') ==> part == name;
  }

  lemma RootSelects(files: set<string>, index: string, suffix: string, asset: bool)
    requires suffix == "/" && index == FileOf(suffix) && index in files
    ensures PageOf(files, suffix, asset) == Served(index)
  {
    PlainName(index);
    Rooted(suffix);
    SplitPlain(suffix[1..], '/');
  }

  lemma NameSelects(files: set<string>, file: string, suffix: string, asset: bool)
    requires FileName(file) && file in files && file != INDEX && suffix == "/" + file
    ensures PageOf(files, suffix, asset) == Served(file) <==> Openable(file) && !HasControl(file)
  {
    assert Split(file, '/')[0] != "";
    if file[0] == '/' { Rooted(file); }
    assert suffix[1..] == file && TrimStart(suffix) == file;
    Rooted(suffix);
    assert forall c :: c in suffix <==> c == '/' || c in file;
    if "." in Split(file, '/') { assert Kept("."); }
    if ".." in Split(file, '/') { assert Kept(".."); }
  }

  lemma AppAsks(id: PackageId, suffix: string, route: string)
    requires '/' !in id.name && (suffix == "" || "/" <= suffix) && route == "/app/" + id.name + suffix
    ensures AsksApp(id, route) && AppSuffix(route) == suffix
    ensures !UnderNative(route) && route != "/std" && !ForStandard(route) && "/app/" <= route
  {
    assert route == "/" + "app" + ("/" + id.name + suffix);
    NotNative("app", "/" + id.name + suffix, route);
    AppTail(id.name, suffix, route);
  }

  lemma AppTail(name: string, suffix: string, route: string)
    requires '/' !in name && (suffix == "" || "/" <= suffix) && route == "/app/" + name + suffix
    ensures "/app/" <= route && FirstPart(route[5..]) == name && route[5 + |name|..] == suffix
  {
    assert route[5..] == name + suffix;
    FirstPartIs(name, suffix);
    assert (name + suffix)[|name|..] == suffix;
  }

  lemma AppReaches(native: Natives, libs: set<PackageId>, apps: set<PackageId>, p: Package, suffix: string,
                   route: string, t: Target)
    requires Confined(native)
    requires ValidPackage(p) && p.id in apps && UniqueNames(apps) && (suffix == "" || "/" <= suffix)
    requires route == AppMount(p.id.name) + suffix && Answers(native, libs, apps, route, t)
    ensures t == ToApp(p.id, suffix)
  {
    NameHasNoSlash(p.id.name);
    AppAsks(p.id, suffix, route);
    assert Occupied(libs, apps, route);
    assert AnswersApp(apps, route, t);
  }

  /** Conversely a Lib is reached only through its own prefix, and the path it sees is the rest of the
      route; the bare mount of an ordinary Lib stands for its root. */
  lemma LibSeesTheRest(native: Natives, libs: set<PackageId>, apps: set<PackageId>, path: string, t: Target)
    requires "/" <= path && Answers(native, libs, apps, path, t) && t.ToLib?
    ensures t.id in libs
    ensures path == LibPrefix(t.id) + t.path || (!IsStandard(t.id) && path == LibPrefix(t.id) && t.path == "/")
  {
    assert AnswersLib(libs, path, t);
    AskedPath(t.id, path);
  }

  lemma AskedPath(id: PackageId, path: string)
    requires "/" <= path && AsksLib(id, path)
    ensures path == LibPrefix(id) + LibPath(path) || (!IsStandard(id) && path == LibPrefix(id) && LibPath(path) == "/")
  {
    var tail := LibTail(path);
    if ForStandard(path) {
      assert path == "/std" + ("/" + tail);
    } else {
      var rest := tail[|id.name|..];
      assert tail == id.name + rest && path == "/" + id.name + rest;
    }
  }

  /** Published routes are never handed to a proxy, whatever the proxy table says. */
  lemma PublishedIsNotProxied(native: Natives, libs: set<PackageId>, apps: set<PackageId>, p: Package, kind: Kind,
                              route: string, t: Target)
    requires Confined(native)
    requires ValidPackage(p) && HasKind(p, kind) && route in PackageRoutes(p, kind) && UniqueNames(libs)
    requires UniqueNames(apps)
    requires if kind == LibKind then p.id in libs else p.id in apps
    requires Answers(native, libs, apps, route, t)
    ensures (t.ToLib? || t.ToApp?) && t.id == p.id
  {
    match kind {
      case LibKind =>
        LibRoutesExactly(p, route);
        var path := route[|LibPrefix(p.id)|..];
        assert route == LibPrefix(p.id) + path;
        if IsStandard(p.id) {
          StandardRouteReaches(native, libs, apps, p, path, t);
        } else {
          OrdinaryRouteReaches(native, libs, apps, p, path, t);
        }
      case AppKind =>
        var suffix := AppRouteForm(p, route);
        AppReaches(native, libs, apps, p, suffix, route, t);
    }
  }
}
