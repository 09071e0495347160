/** Writing an App's public files into a fresh directory, and reading their names back. */
module Extraction {
  import opened Sets
  import opened Wrappers
  import opened Bytes
  import opened Paths
  import opened Archive

  /** A path inside the App directory, as its components; the directory itself is empty. */
  type Path = seq<seq<Byte>>

  const MARKER := Ascii(".transaction.json")
  const PREVIOUS := Ascii(".previous")
  const MAX_LEVEL := 32

  datatype Problem = Reserved | Clash | TooDeep | TooMany

  predicate ReservedPart(c: seq<Byte>) {
    c == MARKER || c == PREVIOUS
  }

  predicate IsPublic(name: seq<Byte>) {
    PUBLIC + [SLASH] <= name
  }

  /** The path below `public/`. */
  function Below(name: seq<Byte>): Path {
    Split(name, SLASH)[1..]
  }

  lemma PublicParts(name: seq<Byte>)
    requires IsPublic(name)
    ensures |Split(name, SLASH)| >= 2 && Split(name, SLASH)[0] == PUBLIC
  {
    var rest := name[|PUBLIC| + 1..];
    assert name == PUBLIC + [SLASH] + rest;
    assert SLASH !in PUBLIC;
    SplitAt(PUBLIC, rest, SLASH);
    SplitPlain(PUBLIC, SLASH);
  }

  lemma SamePathSameName(m: seq<Byte>, n: seq<Byte>)
    requires IsPublic(m) && IsPublic(n) && Below(m) == Below(n)
    ensures m == n
  {
    PublicParts(m);
    PublicParts(n);
    assert Split(m, SLASH) == [PUBLIC] + Below(m) && Split(n, SLASH) == [PUBLIC] + Below(n);
    SplitInjective(m, n, SLASH);
  }

  /** A public file whose path continues another file's path has that file as an ancestor. */
  lemma PrefixIsAncestor(m: seq<Byte>, n: seq<Byte>)
    requires IsPublic(m) && IsPublic(n) && ProperPrefix(Below(m), Below(n))
    ensures m in Ancestors(n, SLASH)
  {
    PublicParts(m);
    PublicParts(n);
    var p, q := Split(m, SLASH), Split(n, SLASH);
    assert p == [PUBLIC] + Below(m) && q == [PUBLIC] + Below(n);
    AncestorsArePrefixes(n, SLASH, m);
  }

  class Folder {
    var dirs: set<Path>
    var files: map<Path, seq<Byte>>

    constructor ()
      ensures dirs == {[]} && files == map[]
    {
      dirs, files := {[]}, map[];
    }

    /** Make a directory unless it is there, then open it as one. */
    method EnterDirectory(path: Path) returns (ok: bool)
      modifies `dirs
      ensures ok <==> path !in files
      ensures dirs == if ok then old(dirs) + {path} else old(dirs)
    {
      ok := path !in files;
      if ok { dirs := dirs + {path}; }
    }

    /** Create a file that must not exist. */
    method CreateFile(path: Path, data: seq<Byte>) returns (ok: bool)
      modifies `files
      ensures ok <==> path !in dirs && path !in old(files)
      ensures files == if ok then old(files)[path := data] else old(files)
    {
      ok := path !in dirs && path !in files;
      if ok { files := files[path := data]; }
    }

    /** Write one file below the directory, making the directories above it. */
    method WriteOne(path: Path, data: seq<Byte>) returns (ok: bool)
      requires path != []
      modifies this
      ensures ok <==>
        (forall k :: 0 < k < |path| ==> path[..k] !in old(files)) && path !in old(files) && path !in old(dirs)
      ensures ok ==> files == old(files)[path := data]
      ensures ok ==> forall p :: p in dirs <==> p in old(dirs) || (p != [] && ProperPrefix(p, path))
    {
      for k := 1 to |path|
        invariant files == old(files)
        invariant forall j :: 0 < j < k ==> path[..j] !in files
        invariant forall p :: p in dirs <==> p in old(dirs) || (p != [] && |p| < k && path[..|p|] == p)
      {
        ok := EnterDirectory(path[..k]);
        if !ok { return; }
      }
      ok := CreateFile(path, data);
    }

    /** Write every public file. For an accepted archive it never meets a file where it needs a
        directory, nor the reverse; it refuses exactly a reserved first component. */
    method WriteExpanded(package: map<seq<Byte>, seq<Byte>>) returns (r: Option<Problem>)
      requires dirs == {[]} && files == map[]
      requires NoConflict(package.Keys)
      modifies this
      ensures r == None || r == Some(Reserved)
      ensures r == Some(Reserved) <==>
        exists n :: n in package && IsPublic(n) && Below(n) != [] && ReservedPart(Below(n)[0])
      ensures r == None ==> HoldsPackage(package, dirs, files)
    {
      var rest := package.Keys;
      while rest != {}
        invariant rest <= package.Keys && HoldsPart(package, package.Keys - rest, dirs, files)
        invariant forall n :: n in package && n !in rest && IsPublic(n) ==> Below(n) != [] && !ReservedPart(Below(n)[0])
        decreases rest
      {
        var name :| name in rest;
        ghost var done := package.Keys - rest;
        rest := rest - {name};
        assert package.Keys - rest == done + {name};
        if !IsPublic(name) {
          SkipKeepsPart(package, done, name, dirs, files);
          continue;
        }
        PublicParts(name);
        var path := Below(name);
        if ReservedPart(path[0]) {
          return Some(Reserved);
        }
        NewFileFits(package, done, name, dirs, files);
        ghost var ds, fs := dirs, files;
        var ok := WriteOne(path, package[name]);
        WriteKeepsPart(package, done, name, ds, fs, dirs, files);
      }
      assert package.Keys - rest == package.Keys;
      r := None;
    }
  }

  /** The folder holds exactly these public files and the directories they need. */
  ghost predicate HoldsPart(package: map<seq<Byte>, seq<Byte>>, done: set<seq<Byte>>, dirs: set<Path>,
                            files: map<Path, seq<Byte>>)
    requires done <= package.Keys
  {
    && (forall p :: p in files <==> IsFileOf(done, p))
    && (forall n :: n in done && IsPublic(n) ==> Below(n) in files && files[Below(n)] == package[n])
    && (forall p :: p in dirs <==> p == [] || IsDirectoryOf(done, p))
  }

  ghost predicate IsFileOf(done: set<seq<Byte>>, p: Path) {
    exists n :: n in done && IsPublic(n) && Below(n) == p
  }

  ghost predicate IsDirectoryOf(done: set<seq<Byte>>, p: Path) {
    exists n :: n in done && IsPublic(n) && ProperPrefix(p, Below(n))
  }

  ghost predicate HoldsPackage(package: map<seq<Byte>, seq<Byte>>, dirs: set<Path>, files: map<Path, seq<Byte>>) {
    HoldsPart(package, package.Keys, dirs, files)
  }

  lemma SkipKeepsPart(package: map<seq<Byte>, seq<Byte>>, done: set<seq<Byte>>, name: seq<Byte>, dirs: set<Path>,
                      files: map<Path, seq<Byte>>)
    requires done <= package.Keys && name in package && !IsPublic(name) && HoldsPart(package, done, dirs, files)
    ensures HoldsPart(package, done + {name}, dirs, files)
  {
    forall p ensures IsFileOf(done + {name}, p) <==> IsFileOf(done, p) {}
    forall p ensures IsDirectoryOf(done + {name}, p) <==> IsDirectoryOf(done, p) {}
  }

  lemma NewFileFits(package: map<seq<Byte>, seq<Byte>>, done: set<seq<Byte>>, name: seq<Byte>, dirs: set<Path>,
                    files: map<Path, seq<Byte>>)
    requires NoConflict(package.Keys) && done <= package.Keys && name in package && name !in done && IsPublic(name)
    requires HoldsPart(package, done, dirs, files)
    ensures Below(name) !in files && Below(name) !in dirs
    ensures forall k :: 0 < k < |Below(name)| ==> Below(name)[..k] !in files
  {
    var path := Below(name);
    PublicParts(name);
    if path in files {
      var m :| m in done && IsPublic(m) && Below(m) == path;
      SamePathSameName(m, name);
    }
    if path in dirs {
      var m :| m in done && IsPublic(m) && ProperPrefix(path, Below(m));
      PrefixIsAncestor(name, m);
    }
    forall k | 0 < k < |path| ensures path[..k] !in files {
      if path[..k] in files {
        var m :| m in done && IsPublic(m) && Below(m) == path[..k];
        PrefixIsAncestor(m, name);
      }
    }
  }

  lemma WriteKeepsPart(package: map<seq<Byte>, seq<Byte>>, done: set<seq<Byte>>, name: seq<Byte>,
                       ds: set<Path>, fs: map<Path, seq<Byte>>, dirs: set<Path>, files: map<Path, seq<Byte>>)
    requires done <= package.Keys && name in package && IsPublic(name) && HoldsPart(package, done, ds, fs)
    requires Below(name) !in fs && files == fs[Below(name) := package[name]]
    requires forall p :: p in dirs <==> p in ds || (p != [] && ProperPrefix(p, Below(name)))
    ensures HoldsPart(package, done + {name}, dirs, files)
  {
    var all := done + {name};
    forall p ensures p in files <==> IsFileOf(all, p) {
      assert IsFileOf(all, p) <==> IsFileOf(done, p) || p == Below(name);
    }
    forall p ensures p in dirs <==> p == [] || IsDirectoryOf(all, p) {
      assert IsDirectoryOf(all, p) <==> IsDirectoryOf(done, p) || ProperPrefix(p, Below(name));
    }
  }

  // ------------------------------------------------------------ reading back

  ghost predicate IsTree(dirs: set<Path>, files: map<Path, seq<Byte>>) {
    && [] in dirs && dirs !! files.Keys
    && (forall p :: p in dirs && p != [] ==> Up(p) in dirs)
    && (forall p :: p in files ==> p != [] && Up(p) in dirs)
  }

  function Nodes(dirs: set<Path>, files: map<Path, seq<Byte>>): set<Path> {
    (dirs - {[]}) + files.Keys
  }

  function Children(nodes: set<Path>, d: Path): set<Path> {
    set p | p in nodes && p != [] && Up(p) == d
  }

  /** No component of the path is reserved. */
  predicate Clean(p: Path) {
    forall i :: 0 <= i < |p| ==> !ReservedPart(p[i])
  }

  /** The walk so far: `done` directories were opened, `seen` entries were counted. */
  ghost predicate Scanning(dirs: set<Path>, files: map<Path, seq<Byte>>, done: set<Path>, seen: set<Path>,
                           pending: seq<(Path, nat)>, found: set<Path>) {
    && done <= dirs && seen <= Nodes(dirs, files)
    && (forall d :: d in done ==> Clean(d) && (d == [] || d in seen))
    && (forall p :: p in found <==> p in seen && p in files && Clean(p))
    && (forall i :: 0 <= i < |pending| ==> Waits(dirs, done, seen, pending[i]))
    && (forall i, j :: 0 <= i < j < |pending| ==> pending[i].0 != pending[j].0)
    && AllPending(dirs, done, seen, pending)
  }

  ghost predicate Waits(dirs: set<Path>, done: set<Path>, seen: set<Path>, w: (Path, nat)) {
    w.0 in dirs && (w.0 == [] || w.0 in seen) && Clean(w.0) && w.0 !in done && w.1 == |w.0|
  }

  ghost predicate SeenExactly(dirs: set<Path>, files: map<Path, seq<Byte>>, done: set<Path>, seen: set<Path>) {
    forall p :: p in seen <==> p in Nodes(dirs, files) && Up(p) in done
  }

  function Up(p: Path): Path {
    if p == [] then p else p[..|p| - 1]
  }

  /** In the middle of one directory: everything below the earlier ones, and this one's entries so far. */
  ghost predicate SeenInside(nodes: set<Path>, before: set<Path>, directory: Path, rest: set<Path>, seen: set<Path>) {
    forall p :: p in seen <==> p in nodes && (Up(p) in before || (Up(p) == directory && p !in rest))
  }

  lemma {:induction false} CleanDirectoriesAreDone(dirs: set<Path>, files: map<Path, seq<Byte>>, done: set<Path>,
                                                   seen: set<Path>, found: set<Path>, d: Path)
    requires IsTree(dirs, files) && Scanning(dirs, files, done, seen, [], found) && SeenExactly(dirs, files, done, seen)
    requires d in dirs && Clean(d)
    ensures d in done
    decreases |d|
  {
    if d != [] {
      CleanDirectoriesAreDone(dirs, files, done, seen, found, Up(d));
      assert d in seen;
    }
  }

  /** The resource walk of an installed App, limited to depth 32 and 10000 entries. It finds exactly
      the files without a reserved component, and stops early only on a tree beyond those limits. */
  method InstalledFiles(dirs: set<Path>, files: map<Path, seq<Byte>>) returns (r: Result<set<Path>, Problem>)
    requires IsTree(dirs, files)
    ensures r.Ok? ==> forall p :: p in r.value <==> p in files && Clean(p)
    ensures r.Err? ==> r.error == TooMany || r.error == TooDeep
    ensures r.Err? && r.error == TooMany ==> |Nodes(dirs, files)| > MAX_NODES
    ensures r.Err? && r.error == TooDeep ==> exists d :: d in dirs && |d| > MAX_LEVEL
  {
    var nodes := Nodes(dirs, files);
    var pending: seq<(Path, nat)> := [([], 0)];
    var found: set<Path> := {};
    var count := 0;
    ghost var done: set<Path>, seen: set<Path> := {}, {};
    while pending != []
      invariant Scanning(dirs, files, done, seen, pending, found) && SeenExactly(dirs, files, done, seen)
      invariant count == |seen|
      decreases dirs - done
    {
      var (directory, depth) := pending[|pending| - 1];
      assert Waits(dirs, done, seen, pending[|pending| - 1]);
      if depth > MAX_LEVEL {
        return Err(TooDeep);
      }
      OpenDirectory(dirs, files, done, seen, pending, found);
      pending := pending[..|pending| - 1];
      var step;
      step, pending, found, count, seen :=
        ScanDirectory(dirs, files, nodes, directory, depth, done, seen, pending, found, count);
      if step {
        return Err(TooMany);
      }
      done := done + {directory};
    }
    forall p | p in files && Clean(p) ensures p in found {
      UpIsClean(p);
      CleanDirectoriesAreDone(dirs, files, done, seen, found, Up(p));
    }
    r := Ok(found);
  }

  lemma UpIsClean(p: Path)
    requires Clean(p)
    ensures Clean(Up(p))
  {
  }

  lemma OpenDirectory(dirs: set<Path>, files: map<Path, seq<Byte>>, done: set<Path>, seen: set<Path>,
                      pending: seq<(Path, nat)>, found: set<Path>)
    requires IsTree(dirs, files) && Scanning(dirs, files, done, seen, pending, found)
    requires SeenExactly(dirs, files, done, seen) && pending != []
    ensures var d := pending[|pending| - 1].0;
      && d in dirs && d !in done && Clean(d) && pending[|pending| - 1].1 == |d|
      && Scanning(dirs, files, done + {d}, seen, pending[..|pending| - 1], found)
      && SeenInside(Nodes(dirs, files), done, d, Children(Nodes(dirs, files), d), seen)
  {
    var last := pending[|pending| - 1];
    var rest := pending[..|pending| - 1];
    assert Waits(dirs, done, seen, last);
    PopKeepsWaiting(dirs, done, seen, pending);
    RestIsPending(dirs, done, seen, pending);
    OpenedAll(Nodes(dirs, files), done, last.0, seen);
  }

  ghost predicate AllPending(dirs: set<Path>, done: set<Path>, seen: set<Path>, pending: seq<(Path, nat)>) {
    forall d :: d in dirs && (d == [] || d in seen) && Clean(d) && d !in done ==> (d, |d|) in pending
  }

  lemma RestIsPending(dirs: set<Path>, done: set<Path>, seen: set<Path>, pending: seq<(Path, nat)>)
    requires pending != [] && AllPending(dirs, done, seen, pending)
    ensures AllPending(dirs, done + {pending[|pending| - 1].0}, seen, pending[..|pending| - 1])
  {
    var rest, last := pending[..|pending| - 1], pending[|pending| - 1];
    forall d | d in dirs && (d == [] || d in seen) && Clean(d) && d !in done + {last.0} ensures (d, |d|) in rest {
      assert (d, |d|) in pending;
      assert pending == rest + [last];
    }
  }

  lemma PopKeepsWaiting(dirs: set<Path>, done: set<Path>, seen: set<Path>, pending: seq<(Path, nat)>)
    requires pending != []
    requires forall i :: 0 <= i < |pending| ==> Waits(dirs, done, seen, pending[i])
    requires forall i, j :: 0 <= i < j < |pending| ==> pending[i].0 != pending[j].0
    ensures var rest := pending[..|pending| - 1]; var last := pending[|pending| - 1];
      && (forall i :: 0 <= i < |rest| ==> Waits(dirs, done + {last.0}, seen, rest[i]))
      && (forall i, j :: 0 <= i < j < |rest| ==> rest[i].0 != rest[j].0)
  {
    var rest, last := pending[..|pending| - 1], pending[|pending| - 1];
    forall i | 0 <= i < |rest| ensures Waits(dirs, done + {last.0}, seen, rest[i]) {
      assert rest[i] == pending[i];
    }
  }

  /** Before a directory is opened exactly the entries of the earlier ones were seen. */
  lemma OpenedAll(nodes: set<Path>, done: set<Path>, d: Path, seen: set<Path>)
    requires d !in done && forall p :: p in seen <==> p in nodes && Up(p) in done
    requires forall p :: p in nodes ==> p != []
    ensures SeenInside(nodes, done, d, Children(nodes, d), seen)
  {
  }

  /** Count and sort the entries of one directory. */
  method ScanDirectory(dirs: set<Path>, files: map<Path, seq<Byte>>, nodes: set<Path>, directory: Path, depth: nat,
                       ghost before: set<Path>, ghost seen0: set<Path>, pending0: seq<(Path, nat)>, found0: set<Path>,
                       count0: nat)
    returns (tooMany: bool, pending: seq<(Path, nat)>, found: set<Path>, count: nat, ghost seen: set<Path>)
    requires nodes == Nodes(dirs, files) && dirs !! files.Keys
    requires Clean(directory) && directory !in before && depth == |directory|
    requires Scanning(dirs, files, before + {directory}, seen0, pending0, found0)
    requires SeenInside(nodes, before, directory, Children(nodes, directory), seen0) && count0 == |seen0|
    ensures tooMany ==> |nodes| > MAX_NODES
    ensures !tooMany ==> count == |seen| && Scanning(dirs, files, before + {directory}, seen, pending, found)
    ensures !tooMany ==> SeenExactly(dirs, files, before + {directory}, seen)
  {
    pending, found, count, seen := pending0, found0, count0, seen0;
    var rest := Children(nodes, directory);
    while rest != {}
      invariant rest <= Children(nodes, directory) && count == |seen|
      invariant Scanning(dirs, files, before + {directory}, seen, pending, found)
      invariant SeenInside(nodes, before, directory, rest, seen)
      decreases rest
    {
      var p :| p in rest;
      SeeOne(nodes, before, directory, rest, seen, p);
      rest := rest - {p};
      ScanOne(dirs, files, before + {directory}, seen, pending, found, directory, p);
      seen := seen + {p};
      count := count + 1;
      SubsetSize(seen, nodes);
      if count > MAX_NODES {
        return true, pending, found, count, seen;
      }
      if ReservedPart(p[|p| - 1]) {
        continue;
      }
      if p in dirs {
        pending := pending + [(p, depth + 1)];
      } else {
        found := found + {p};
      }
    }
    tooMany := false;
  }

  lemma SeeOne(nodes: set<Path>, before: set<Path>, directory: Path, rest: set<Path>, seen: set<Path>, p: Path)
    requires SeenInside(nodes, before, directory, rest, seen) && rest <= Children(nodes, directory) && p in rest
    requires directory !in before
    ensures p !in seen && p in nodes && p != [] && Up(p) == directory
    ensures SeenInside(nodes, before, directory, rest - {p}, seen + {p})
  {
  }

  /** One entry taken into account, in each of its three cases. */
  lemma ScanOne(dirs: set<Path>, files: map<Path, seq<Byte>>, done: set<Path>, seen: set<Path>,
                pending: seq<(Path, nat)>, found: set<Path>, directory: Path, p: Path)
    requires Scanning(dirs, files, done, seen, pending, found) && dirs !! files.Keys
    requires p in Nodes(dirs, files) && p !in seen && p != [] && Up(p) == directory && Clean(directory)
    ensures ReservedPart(p[|p| - 1]) ==> Scanning(dirs, files, done, seen + {p}, pending, found)
    ensures !ReservedPart(p[|p| - 1]) && p in dirs ==>
      Scanning(dirs, files, done, seen + {p}, pending + [(p, |directory| + 1)], found)
    ensures !ReservedPart(p[|p| - 1]) && p !in dirs ==> Scanning(dirs, files, done, seen + {p}, pending, found + {p})
  {
    CleanChild(directory, p);
    if p in dirs && Clean(p) {
      DirectorySeen(dirs, files, done, seen, pending, found, p);
    } else {
      EntrySeen(dirs, files, done, seen, pending, found, p);
    }
  }

  lemma StillWaiting(dirs: set<Path>, done: set<Path>, seen: set<Path>, pending: seq<(Path, nat)>, p: Path)
    requires p !in seen && p != [] && forall i :: 0 <= i < |pending| ==> Waits(dirs, done, seen, pending[i])
    ensures forall i :: 0 <= i < |pending| ==> Waits(dirs, done, seen + {p}, pending[i]) && pending[i].0 != p
  {
    forall i | 0 <= i < |pending| ensures Waits(dirs, done, seen + {p}, pending[i]) && pending[i].0 != p {
      assert Waits(dirs, done, seen, pending[i]);
    }
  }

  /** A file, or an entry that is not opened. */
  lemma EntrySeen(dirs: set<Path>, files: map<Path, seq<Byte>>, done: set<Path>, seen: set<Path>,
                  pending: seq<(Path, nat)>, found: set<Path>, p: Path)
    requires Scanning(dirs, files, done, seen, pending, found) && dirs !! files.Keys
    requires p in Nodes(dirs, files) && p !in seen && p != [] && !(p in dirs && Clean(p))
    ensures Scanning(dirs, files, done, seen + {p}, pending, if Clean(p) then found + {p} else found)
  {
    StillWaiting(dirs, done, seen, pending, p);
  }

  /** A directory waits to be opened. */
  lemma DirectorySeen(dirs: set<Path>, files: map<Path, seq<Byte>>, done: set<Path>, seen: set<Path>,
                      pending: seq<(Path, nat)>, found: set<Path>, p: Path)
    requires Scanning(dirs, files, done, seen, pending, found) && dirs !! files.Keys
    requires p in dirs && p !in seen && p != [] && Clean(p)
    ensures Scanning(dirs, files, done, seen + {p}, pending + [(p, |p|)], found)
  {
    var longer := pending + [(p, |p|)];
    StillWaiting(dirs, done, seen, pending, p);
    forall i | 0 <= i < |longer| ensures Waits(dirs, done, seen + {p}, longer[i]) {
      assert i < |pending| ==> longer[i] == pending[i];
    }
    forall d | d in dirs && (d == [] || d in seen + {p}) && Clean(d) && d !in done ensures (d, |d|) in longer {
      if d == p {
        assert longer[|pending|] == (p, |p|);
      } else {
        assert (d, |d|) in pending;
      }
    }
  }

  lemma CleanChild(d: Path, p: Path)
    requires Clean(d) && p != [] && Up(p) == d
    ensures Clean(p) <==> !ReservedPart(p[|p| - 1])
  {
    if !ReservedPart(p[|p| - 1]) {
      forall i | 0 <= i < |p| ensures !ReservedPart(p[i]) {
        assert i < |d| ==> p[i] == d[i];
      }
    }
  }

  // ------------------------------------------------------------ both together

  /** Each of these paths is below some of these names. */
  ghost predicate Named(names: set<seq<Byte>>, paths: set<Path>) {
    forall p {:trigger p in paths} :: p in paths ==> exists m :: m in names && Below(m) == p
  }

  lemma {:induction false} NoMorePathsThanNames(names: set<seq<Byte>>, paths: set<Path>)
    requires Named(names, paths)
    ensures |paths| <= |names|
    decreases paths
  {
    if paths != {} {
      var p :| p in paths;
      var m :| m in names && Below(m) == p;
      var names', paths' := names - {m}, paths - {p};
      forall q {:trigger q in paths'} | q in paths' ensures exists n :: n in names' && Below(n) == q {
        assert q in paths;
        var n :| n in names && Below(n) == q;
        assert n in names' && Below(n) == q;
      }
      NoMorePathsThanNames(names', paths');
    }
  }

  /** A directory made for a public file is one of the archive's directories. */
  lemma DirectoryIsNamed(n: seq<Byte>, p: Path)
    requires IsPublic(n) && ProperPrefix(p, Below(n))
    ensures exists m :: m in Ancestors(n, SLASH) && Below(m) == p
  {
    PublicParts(n);
    SplitParts(n, SLASH);
    var q := Split(n, SLASH);
    var above := [PUBLIC] + p;
    assert forall i :: 0 <= i < |above| ==> above[i] == q[i];
    var m := Join(above, SLASH);
    SplitJoin(above, SLASH);
    assert Split(m, SLASH) == above && Below(m) == p;
    assert q[..|above|] == above;
    AncestorsArePrefixes(n, SLASH, m);
  }

  ghost predicate Shallow(names: set<seq<Byte>>) {
    forall n :: n in names ==> |Split(n, SLASH)| <= MAX_DEPTH
  }

  /** The result of extraction is a tree. */
  lemma ExtractedIsTree(package: map<seq<Byte>, seq<Byte>>, dirs: set<Path>, files: map<Path, seq<Byte>>)
    requires HoldsPackage(package, dirs, files) && NoConflict(package.Keys)
    ensures IsTree(dirs, files)
  {
    forall p | p in files ensures p != [] && Up(p) in dirs && p !in dirs {
      FileHasDirectory(package, dirs, files, p);
    }
    forall p | p in dirs && p != [] ensures Up(p) in dirs {
      assert IsDirectoryOf(package.Keys, p);
      DirectoryHasParent(package.Keys, p);
    }
  }

  lemma DirectoryHasParent(names: set<seq<Byte>>, p: Path)
    requires IsDirectoryOf(names, p) && p != []
    ensures IsDirectoryOf(names, Up(p))
  {
    var n :| n in names && IsPublic(n) && ProperPrefix(p, Below(n));
    assert ProperPrefix(Up(p), Below(n));
  }

  lemma FileHasDirectory(package: map<seq<Byte>, seq<Byte>>, dirs: set<Path>, files: map<Path, seq<Byte>>, p: Path)
    requires HoldsPackage(package, dirs, files) && NoConflict(package.Keys) && p in files
    ensures p != [] && Up(p) in dirs && p !in dirs
  {
    assert IsFileOf(package.Keys, p);
    var n :| n in package.Keys && IsPublic(n) && Below(n) == p;
    PublicParts(n);
    assert ProperPrefix(Up(p), Below(n));
    assert IsDirectoryOf(package.Keys, Up(p));
    if p in dirs {
      var m :| m in package && IsPublic(m) && ProperPrefix(p, Below(m));
      PrefixIsAncestor(n, m);
    }
  }

  lemma DirectoryHasName(names: set<seq<Byte>>, p: Path)
    requires IsDirectoryOf(names, p)
    ensures exists m :: m in Directories(names) && Below(m) == p
  {
    var n :| n in names && IsPublic(n) && ProperPrefix(p, Below(n));
    DirectoryIsNamed(n, p);
    var m :| m in Ancestors(n, SLASH) && Below(m) == p;
    assert m in Directories(names);
  }

  lemma ExtractedIsSmall(package: map<seq<Byte>, seq<Byte>>, dirs: set<Path>, files: map<Path, seq<Byte>>)
    requires HoldsPackage(package, dirs, files)
    ensures |Nodes(dirs, files)| <= |Directories(package.Keys)| + |package|
  {
    var names := Directories(package.Keys) + package.Keys;
    var paths := Nodes(dirs, files);
    forall p {:trigger p in paths} | p in paths ensures exists m :: m in names && Below(m) == p {
      if p in files {
        assert IsFileOf(package.Keys, p);
      } else {
        assert IsDirectoryOf(package.Keys, p);
        DirectoryHasName(package.Keys, p);
      }
    }
    NoMorePathsThanNames(names, paths);
    assert |names| == |Directories(package.Keys)| + |package.Keys| - |Directories(package.Keys) * package.Keys|;
  }

  lemma ExtractedIsShallow(package: map<seq<Byte>, seq<Byte>>, dirs: set<Path>, files: map<Path, seq<Byte>>, d: Path)
    requires HoldsPackage(package, dirs, files) && Shallow(package.Keys) && d in dirs
    ensures |d| <= MAX_LEVEL
  {
    if d != [] {
      var n :| n in package && IsPublic(n) && ProperPrefix(d, Below(n));
      PublicParts(n);
    }
  }

  lemma AcceptedIsShallow(bytes: seq<Byte>, listing: Listing, plain: seq<Byte> -> bool, o: Opened)
    requires Accepted(bytes, listing, plain, o)
    ensures Shallow(o.files.Keys)
  {
    forall n | n in o.files.Keys ensures |Split(n, SLASH)| <= MAX_DEPTH {
      assert n in Names(listing.entries);
      var e :| e in listing.entries && e.name == n;
      assert Placed(bytes, e, plain, o);
    }
  }

  /** An accepted archive, once extracted, is a tree the resource walk reads to the end, and what it
      finds are exactly the archive's public paths without a reserved component. */
  lemma ExtractedReadsBack(bytes: seq<Byte>, listing: Listing, plain: seq<Byte> -> bool, o: Opened,
                           dirs: set<Path>, files: map<Path, seq<Byte>>)
    requires Accepted(bytes, listing, plain, o) && HoldsPackage(o.files, dirs, files)
    ensures IsTree(dirs, files) && |Nodes(dirs, files)| <= MAX_NODES
    ensures forall d :: d in dirs ==> |d| <= MAX_LEVEL
    ensures forall p :: p in files && Clean(p) <==> IsFileOf(o.files.Keys, p) && Clean(p)
    ensures forall n :: n in o.files && IsPublic(n) ==> files[Below(n)] == o.files[n]
  {
    ExtractedIsTree(o.files, dirs, files);
    ExtractedIsSmall(o.files, dirs, files);
    AcceptedIsShallow(bytes, listing, plain, o);
    forall d | d in dirs ensures |d| <= MAX_LEVEL {
      ExtractedIsShallow(o.files, dirs, files, d);
    }
  }

  /** Install, then look at the installed routes: refused only for a reserved first component,
      otherwise the walk reports exactly the clean public paths. */
  method ExtractThenScan(ghost bytes: seq<Byte>, ghost listing: Listing, ghost plain: seq<Byte> -> bool, o: Opened)
    returns (r: Result<set<Path>, Problem>)
    requires Accepted(bytes, listing, plain, o)
    ensures r.Err? <==> exists n :: n in o.files && IsPublic(n) && Below(n) != [] && ReservedPart(Below(n)[0])
    ensures r.Err? ==> r.error == Reserved
    ensures r.Ok? ==> forall p :: p in r.value <==> IsFileOf(o.files.Keys, p) && Clean(p)
  {
    var folder := new Folder();
    var problem := folder.WriteExpanded(o.files);
    if problem.Some? {
      return Err(problem.value);
    }
    ExtractedReadsBack(bytes, listing, plain, o, folder.dirs, folder.files);
    r := InstalledFiles(folder.dirs, folder.files);
  }
}
