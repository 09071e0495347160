/** Resolving one requested release into its dependency closure, and ordering it. */
module Store {
  import opened Sets
  import opened Wrappers
  import opened Identity
  import opened Digraph

  const MAX_PACKAGES := 100

  datatype Release = Release(id: ReleaseId, version: string, dependencies: seq<Request>)

  /** What the installed catalog says about one short name. */
  datatype Installed = Installed(author: Option<string>, version: string, hasOwner: bool)

  /** A downloaded member, with the release it upgrades when that has no recorded owner. */
  datatype Resource = Resource(release: Release, previous: Option<Release>)

  datatype Error =
    | ConflictingVersions(id: ReleaseId)
    | TooManyPackages
    | ConflictingAuthors
    | InstalledByAnotherAuthor(name: string)
    | Unavailable(request: Request)
    | OwnershipConflict
    | CyclicDependencies

  /** The dependency rules of a manifest: at most 100, none repeated, none on itself. */
  predicate ValidManifest(r: Release) {
    && |r.dependencies| <= MAX_PACKAGES
    && (forall i, j :: 0 <= i < j < |r.dependencies| ==> r.dependencies[i].id != r.dependencies[j].id)
    && (forall i :: 0 <= i < |r.dependencies| ==> r.dependencies[i].id != r.id)
  }

  predicate Downloads(store: map<Request, Release>, q: Request) {
    q in store && store[q].id == q.id && store[q].version == q.version && ValidManifest(store[q])
  }

  function Download(store: map<Request, Release>, q: Request): (r: Result<Release, Error>)
    ensures r.Ok? ==> r.value.id == q.id && r.value.version == q.version
  {
    if Downloads(store, q) then Ok(store[q]) else Err(Unavailable(q))
  }

  /** The earlier release whose receipt must prove who owns a row that records no owner. */
  function PreviousRequest(installed: map<string, Installed>, id: ReleaseId): Option<Request> {
    if id.name in installed && installed[id.name].author == Some(id.author) && !installed[id.name].hasOwner
    then Some(Request(id, installed[id.name].version))
    else None
  }

  /** Everything one member needs, apart from its relation to other members. */
  predicate Obtainable(store: map<Request, Release>, installed: map<string, Installed>, q: Request) {
    && (q.id.name in installed ==> installed[q.id.name].author == Some(q.id.author))
    && Downloads(store, q)
    && var previous := PreviousRequest(installed, q.id);
       previous.Some? ==> Downloads(store, previous.value)
  }

  function DependencySet(r: Release): set<Request> {
    set d | d in r.dependencies
  }

  /** The declared edges between exact releases of the store. */
  function Declared(store: map<Request, Release>): map<Request, set<Request>> {
    map q | q in store && Downloads(store, q) :: DependencySet(store[q])
  }

  function Requests(resources: seq<Resource>): set<Request> {
    set r | r in resources :: Request(r.release.id, r.release.version)
  }

  /** The members are what one installation can take: few enough, each obtainable, and no
      short name asked for at two versions or from two authors. */
  ghost predicate Installable(store: map<Request, Release>, installed: map<string, Installed>, root: Request) {
    exists s: set<Request> :: IsClosure(store, root, s) && Compatible(store, installed, s)
  }

  ghost predicate IsClosure(store: map<Request, Release>, root: Request, s: set<Request>) {
    forall q :: q in s <==> Reaches(Declared(store), root, q)
  }

  ghost predicate Compatible(store: map<Request, Release>, installed: map<string, Installed>, s: set<Request>) {
    && |s| <= MAX_PACKAGES
    && (forall q :: q in s ==> Obtainable(store, installed, q))
    && (forall q, q' :: q in s && q' in s && q.id.name == q'.id.name ==> q == q')
  }

  ghost predicate FromStore(store: map<Request, Release>, installed: map<string, Installed>, resources: seq<Resource>) {
    forall i :: 0 <= i < |resources| ==> MemberOfStore(store, installed, resources[i])
  }

  ghost predicate MemberOfStore(store: map<Request, Release>, installed: map<string, Installed>, r: Resource) {
    var q := Request(r.release.id, r.release.version);
    && Obtainable(store, installed, q)
    && r.release == store[q]
    && r.previous == (match PreviousRequest(installed, q.id)
                      case None => None
                      case Some(p) => Some(store[p]))
  }

  ghost predicate DistinctNames(resources: seq<Resource>) {
    forall i, j :: 0 <= i < j < |resources| ==> resources[i].release.id.name != resources[j].release.id.name
  }

  /** Every edge that leaves a fetched member is fetched already or still waits. */
  ghost predicate Accounted(resources: seq<Resource>, pending: seq<Request>) {
    forall i, d :: 0 <= i < |resources| && d in resources[i].release.dependencies ==>
      d in Requests(resources) || d in pending
  }

  ghost predicate AllReached(store: map<Request, Release>, root: Request, qs: seq<Request>) {
    forall i :: 0 <= i < |qs| ==> Reaches(Declared(store), root, qs[i])
  }

  lemma RequestsSize(resources: seq<Resource>)
    requires DistinctNames(resources)
    ensures |Requests(resources)| == |resources|
  {
    if resources != [] {
      var last := resources[|resources| - 1];
      var front := resources[..|resources| - 1];
      var q := Request(last.release.id, last.release.version);
      RequestsSize(front);
      assert resources == front + [last];
      assert Requests(resources) == Requests(front) + {q};
      assert q !in Requests(front);
    }
  }

  lemma RequestOf(resources: seq<Resource>, i: int)
    requires 0 <= i < |resources|
    ensures Request(resources[i].release.id, resources[i].release.version) in Requests(resources)
  {
    assert resources[i] in resources;
  }

  /** A finished worklist has fetched exactly what the root reaches. */
  lemma FinishedIsClosure(store: map<Request, Release>, installed: map<string, Installed>, root: Request,
                          resources: seq<Resource>)
    requires FromStore(store, installed, resources) && Accounted(resources, [])
    requires root in Requests(resources)
    requires forall q :: q in Requests(resources) ==> Reaches(Declared(store), root, q)
    ensures IsClosure(store, root, Requests(resources))
  {
    var g, s := Declared(store), Requests(resources);
    assert ClosedUnder(g, s) by {
      forall a, b | a in s && Edge(g, a, b)
        ensures b in s
      {
        var r :| r in resources && a == Request(r.release.id, r.release.version);
        var i :| 0 <= i < |resources| && resources[i] == r;
        assert MemberOfStore(store, installed, resources[i]);
        assert b in resources[i].release.dependencies;
      }
    }
    forall q | Reaches(g, root, q) ensures q in s {
      ClosedContainsReachable(g, s, root, q);
    }
  }

  /** The state of the worklist between two rounds. */
  ghost predicate Progress(store: map<Request, Release>, installed: map<string, Installed>, root: Request,
                           resources: seq<Resource>, pending: seq<Request>) {
    && |resources| <= MAX_PACKAGES
    && FromStore(store, installed, resources) && DistinctNames(resources)
    && Accounted(resources, pending)
    && AllReached(store, root, pending)
    && (forall q :: q in Requests(resources) ==> Reaches(Declared(store), root, q))
    && (resources == [] ==> pending == [root])
    && (resources != [] ==> resources[0].release.id == root.id && resources[0].release.version == root.version)
  }

  lemma StartOfClosure(store: map<Request, Release>, installed: map<string, Installed>, root: Request)
    ensures Progress(store, installed, root, [], [root])
  {
    ReachesSelf(Declared(store), root);
  }

  lemma SkipKnown(store: map<Request, Release>, installed: map<string, Installed>, root: Request,
                  resources: seq<Resource>, pending: seq<Request>, q: Request, at: nat)
    requires Progress(store, installed, root, resources, pending + [q])
    requires at < |resources| && resources[at].release.id == q.id && resources[at].release.version == q.version
    ensures Progress(store, installed, root, resources, pending)
  {
    RequestOf(resources, at);
    forall i | 0 <= i < |pending| ensures Reaches(Declared(store), root, pending[i]) {
      assert pending[i] == (pending + [q])[i];
    }
  }

  lemma FetchKeepsProgress(store: map<Request, Release>, installed: map<string, Installed>, root: Request,
                           resources: seq<Resource>, pending: seq<Request>, q: Request, r: Resource)
    requires Progress(store, installed, root, resources, pending + [q])
    requires |resources| < MAX_PACKAGES && MemberOfStore(store, installed, r)
    requires r.release.id == q.id && r.release.version == q.version
    requires forall i :: 0 <= i < |resources| ==> resources[i].release.id.name != q.id.name
    ensures Progress(store, installed, root, resources + [r], pending + r.release.dependencies)
  {
    var next, waiting := resources + [r], pending + r.release.dependencies;
    var all := pending + [q];
    assert Requests(next) == Requests(resources) + {q};
    assert Reaches(Declared(store), root, q) by { assert all[|all| - 1] == q; }
    forall i | 0 <= i < |waiting| ensures Reaches(Declared(store), root, waiting[i]) {
      if i >= |pending| {
        assert waiting[i] == r.release.dependencies[i - |pending|];
        ReachesEdge(Declared(store), q, waiting[i]);
        ReachesTrans(Declared(store), root, q, waiting[i]);
      } else {
        assert waiting[i] == all[i];
      }
    }
    forall i, d | 0 <= i < |next| && d in next[i].release.dependencies
      ensures d in Requests(next) || d in waiting
    {
      if i < |resources| {
        assert d in resources[i].release.dependencies;
      }
    }
    if resources == [] {
      assert all[|all| - 1] == q && all[0] == root;
    }
  }

  lemma FinishedIsInstallable(store: map<Request, Release>, installed: map<string, Installed>, root: Request,
                              resources: seq<Resource>)
    requires Progress(store, installed, root, resources, [])
    ensures IsClosure(store, root, Requests(resources)) && Installable(store, installed, root)
  {
    RequestOf(resources, 0);
    FinishedIsClosure(store, installed, root, resources);
    RequestsSize(resources);
    var s := Requests(resources);
    forall a | a in s ensures Obtainable(store, installed, a) {
      var m :| m in resources && a == Request(m.release.id, m.release.version);
      var i :| 0 <= i < |resources| && resources[i] == m;
      assert MemberOfStore(store, installed, resources[i]);
    }
    forall a, b | a in s && b in s && a.id.name == b.id.name ensures a == b {
      var m :| m in resources && a == Request(m.release.id, m.release.version);
      var n :| n in resources && b == Request(n.release.id, n.release.version);
    }
    assert Compatible(store, installed, s);
  }

  lemma PendingIsReached(store: map<Request, Release>, installed: map<string, Installed>, root: Request,
                         resources: seq<Resource>, pending: seq<Request>, q: Request)
    requires Progress(store, installed, root, resources, pending + [q])
    ensures Reaches(Declared(store), root, q)
  {
    var all := pending + [q];
    assert all[|all| - 1] == q;
  }

  /** The closure worklist. It always stops; it succeeds exactly when the releases reached from
      the root form one installable set, and then returns exactly that set, the root first. */
  method ResolveClosure(store: map<Request, Release>, installed: map<string, Installed>, root: Request)
    returns (r: Result<seq<Resource>, Error>)
    ensures r.Ok? <==> Installable(store, installed, root)
    ensures r.Err? ==> Justified(store, installed, root, r.error)
    ensures r.Ok? ==>
      && IsClosure(store, root, Requests(r.value))
      && FromStore(store, installed, r.value) && DistinctNames(r.value)
      && 0 < |r.value| <= MAX_PACKAGES
      && r.value[0].release.id == root.id && r.value[0].release.version == root.version
  {
    var pending := [root];
    var resources: seq<Resource> := [];
    StartOfClosure(store, installed, root);
    while pending != []
      invariant Progress(store, installed, root, resources, pending)
      decreases MAX_PACKAGES - |resources|, |pending|
    {
      var q := pending[|pending| - 1];
      assert pending == pending[..|pending| - 1] + [q];
      pending := pending[..|pending| - 1];
      PendingIsReached(store, installed, root, resources, pending, q);
      var known := FindById(resources, q.id);
      if known.Some? {
        if resources[known.value].release.version != q.version {
          RequestOf(resources, known.value);
          assert q == Request(q.id, q.version);
          r := Err(ConflictingVersions(q.id));
          JustifiedIsNotInstallable(store, installed, root, r.error);
          return;
        }
        SkipKnown(store, installed, root, resources, pending, q, known.value);
        continue;
      }
      if |resources| >= MAX_PACKAGES {
        FullSetJustifies(store, installed, root, q, resources);
        JustifiedIsNotInstallable(store, installed, root, TooManyPackages);
        return Err(TooManyPackages);
      }
      var other := FindByName(resources, q.id.name);
      if other.Some? {
        RequestOf(resources, other.value);
        JustifiedIsNotInstallable(store, installed, root, ConflictingAuthors);
        return Err(ConflictingAuthors);
      }
      var resource := Fetch(store, installed, q);
      if resource.Err? {
        JustifiedIsNotInstallable(store, installed, root, resource.error);
        return Err(resource.error);
      }
      FetchKeepsProgress(store, installed, root, resources, pending, q, resource.value);
      pending := pending + resource.value.release.dependencies;
      resources := resources + [resource.value];
    }
    FinishedIsInstallable(store, installed, root, resources);
    r := Ok(resources);
  }

  /** One round's download: the release and, for a row without an owner, its predecessor. */
  method Fetch(store: map<Request, Release>, installed: map<string, Installed>, q: Request)
    returns (r: Result<Resource, Error>)
    ensures r.Ok? <==> Obtainable(store, installed, q)
    ensures r.Err? ==> match r.error
      case InstalledByAnotherAuthor(name) => name == q.id.name && name in installed
        && installed[name].author != Some(q.id.author)
      case Unavailable(p) => p == q && !Downloads(store, q)
      case OwnershipConflict => LacksPredecessor(store, installed, q)
      case _ => false
    ensures r.Ok? ==>
      MemberOfStore(store, installed, r.value) && r.value.release.id == q.id && r.value.release.version == q.version
  {
    if q.id.name in installed && installed[q.id.name].author != Some(q.id.author) {
      return Err(InstalledByAnotherAuthor(q.id.name));
    }
    var release := Download(store, q);
    if release.Err? {
      return Err(release.error);
    }
    var previous := None;
    match PreviousRequest(installed, q.id) {
      case None =>
      case Some(p) =>
        var earlier := Download(store, p);
        if earlier.Err? {
          return Err(OwnershipConflict);
        }
        previous := Some(earlier.value);
    }
    r := Ok(Resource(release.value, previous));
  }

  method FindById(resources: seq<Resource>, id: ReleaseId) returns (at: Option<nat>)
    ensures at.Some? ==> at.value < |resources| && resources[at.value].release.id == id
    ensures at.None? ==> forall i :: 0 <= i < |resources| ==> resources[i].release.id != id
  {
    for i := 0 to |resources|
      invariant forall j :: 0 <= j < i ==> resources[j].release.id != id
    {
      if resources[i].release.id == id { return Some(i); }
    }
    at := None;
  }

  method FindByName(resources: seq<Resource>, name: string) returns (at: Option<nat>)
    ensures at.Some? ==> at.value < |resources| && resources[at.value].release.id.name == name
    ensures at.None? ==> forall i :: 0 <= i < |resources| ==> resources[i].release.id.name != name
  {
    for i := 0 to |resources|
      invariant forall j :: 0 <= j < i ==> resources[j].release.id.name != name
    {
      if resources[i].release.id.name == name { return Some(i); }
    }
    at := None;
  }

  ghost predicate EachReached(store: map<Request, Release>, root: Request, s: set<Request>) {
    forall q :: q in s ==> Reaches(Declared(store), root, q)
  }

  /** What each refusal says about the releases the root reaches. */
  ghost predicate Justified(store: map<Request, Release>, installed: map<string, Installed>, root: Request, e: Error) {
    var g := Declared(store);
    match e
    case ConflictingVersions(id) =>
      exists v, w :: v != w && Reaches(g, root, Request(id, v)) && Reaches(g, root, Request(id, w))
    case TooManyPackages =>
      exists s: set<Request> :: |s| == MAX_PACKAGES + 1 && EachReached(store, root, s)
    case ConflictingAuthors =>
      exists p, q :: Reaches(g, root, p) && Reaches(g, root, q) && p.id.name == q.id.name && p.id != q.id
    case InstalledByAnotherAuthor(name) =>
      exists q ::
        Reaches(g, root, q) && q.id.name == name && name in installed && installed[name].author != Some(q.id.author)
    case Unavailable(q) =>
      Reaches(g, root, q) && !Downloads(store, q)
    case OwnershipConflict =>
      exists q :: Reaches(g, root, q) && LacksPredecessor(store, installed, q)
    case CyclicDependencies =>
      false
  }

  predicate LacksPredecessor(store: map<Request, Release>, installed: map<string, Installed>, q: Request) {
    var p := PreviousRequest(installed, q.id);
    p.Some? && !Downloads(store, p.value)
  }

  lemma JustifiedIsNotInstallable(store: map<Request, Release>, installed: map<string, Installed>, root: Request,
                                  e: Error)
    requires Justified(store, installed, root, e)
    ensures !Installable(store, installed, root)
  {
    if Installable(store, installed, root) {
      var s :| IsClosure(store, root, s) && Compatible(store, installed, s);
      match e {
        case TooManyPackages =>
          var t: set<Request> :| |t| == MAX_PACKAGES + 1 && EachReached(store, root, t);
          SubsetSize(t, s);
          assert false;
        case ConflictingVersions(id) =>
        case ConflictingAuthors =>
        case InstalledByAnotherAuthor(name) =>
        case Unavailable(q) =>
        case OwnershipConflict =>
      }
    }
  }

  lemma FullSetJustifies(store: map<Request, Release>, installed: map<string, Installed>, root: Request, q: Request,
                         resources: seq<Resource>)
    requires Reaches(Declared(store), root, q)
    requires |resources| == MAX_PACKAGES && DistinctNames(resources)
    requires forall i :: 0 <= i < |resources| ==> resources[i].release.id != q.id
    requires forall a :: a in Requests(resources) ==> Reaches(Declared(store), root, a)
    ensures Justified(store, installed, root, TooManyPackages)
  {
    RequestsSize(resources);
    var t := Requests(resources) + {q};
    assert q !in Requests(resources);
    assert |t| == MAX_PACKAGES + 1 && EachReached(store, root, t);
  }

  // ---------------------------------------------------------------- ordering

  function Ids(rs: seq<Resource>): set<ReleaseId> {
    set r | r in rs :: r.release.id
  }

  ghost predicate DistinctIds(rs: seq<Resource>) {
    forall i, j :: 0 <= i < j < |rs| ==> rs[i].release.id != rs[j].release.id
  }

  predicate Ready(ordered: set<ReleaseId>, r: Resource) {
    forall d :: d in r.release.dependencies ==> d.id in ordered
  }

  /** Every dependency stands strictly before the member that declares it. */
  ghost predicate DependenciesFirst(rs: seq<Resource>) {
    forall i {:trigger ReadyAt(rs[..i], rs, i)} :: 0 <= i < |rs| ==> ReadyAt(rs[..i], rs, i)
  }

  ghost predicate ReadyAt(ordered: seq<Resource>, rs: seq<Resource>, i: int)
    requires 0 <= i < |rs|
  {
    Ready(Ids(ordered), rs[i])
  }

  ghost predicate DependenciesPresent(rs: seq<Resource>) {
    forall i {:trigger ReadyAt(rs, rs, i)} :: 0 <= i < |rs| ==> ReadyAt(rs, rs, i)
  }

  /** The dependency graph between the identities of a set of members. */
  function Dependencies(rs: seq<Resource>): map<ReleaseId, set<ReleaseId>> {
    map id | id in Ids(rs) :: set r, d | r in rs && r.release.id == id && d in r.release.dependencies :: d.id
  }

  lemma SameMembersSameGraph(rs: seq<Resource>, ts: seq<Resource>)
    requires multiset(rs) == multiset(ts)
    ensures forall r :: r in rs <==> r in ts
    ensures Ids(rs) == Ids(ts) && Dependencies(rs) == Dependencies(ts)
    ensures DependenciesPresent(rs) ==> DependenciesPresent(ts)
  {
    forall r ensures r in rs <==> r in ts {
      assert r in rs <==> r in multiset(rs);
      assert r in ts <==> r in multiset(ts);
    }
    forall id | id in Ids(rs) ensures Dependencies(rs)[id] == Dependencies(ts)[id] {
      assert Dependencies(rs)[id] <= Dependencies(ts)[id];
      assert Dependencies(ts)[id] <= Dependencies(rs)[id];
    }
    if DependenciesPresent(rs) {
      forall i | 0 <= i < |ts| ensures ReadyAt(ts, ts, i) {
        assert ts[i] in ts;
        var j :| 0 <= j < |rs| && rs[j] == ts[i];
        assert ReadyAt(rs, rs, j);
      }
    }
  }

  lemma DeclaredDependencyIsEdge(rs: seq<Resource>, r: Resource, d: Request)
    requires r in rs && d in r.release.dependencies
    ensures Edge(Dependencies(rs), r.release.id, d.id)
  {
  }

  /** An edge leads to an earlier position, and so does every longer path. */
  lemma {:induction false} PathsLeadBack(rs: seq<Resource>, p: seq<ReleaseId>, i: nat)
    requires DependenciesFirst(rs) && DistinctIds(rs) && IsPath(Dependencies(rs), p)
    requires i < |rs| && rs[i].release.id == p[0]
    ensures exists j :: 0 <= j <= i && rs[j].release.id == p[|p| - 1] && (|p| >= 2 ==> j < i)
  {
    if |p| >= 2 {
      assert Edge(Dependencies(rs), p[0], p[1]);
      var r, d :| r in rs && r.release.id == p[0] && d in r.release.dependencies && d.id == p[1];
      assert r == rs[i];
      assert ReadyAt(rs[..i], rs, i);
      assert p[1] in Ids(rs[..i]);
      var k :| 0 <= k < i && rs[k].release.id == p[1];
      var q := p[1..];
      assert IsPath(Dependencies(rs), q) by {
        forall m | 0 <= m < |q| - 1 ensures Edge(Dependencies(rs), q[m], q[m + 1]) {
          assert Edge(Dependencies(rs), p[m + 1], p[m + 2]);
        }
      }
      PathsLeadBack(rs, q, k);
    }
  }

  lemma OrderedIsAcyclic(rs: seq<Resource>)
    requires DependenciesFirst(rs) && DistinctIds(rs)
    ensures DependenciesPresent(rs) && Acyclic(Dependencies(rs))
  {
    forall i | 0 <= i < |rs| ensures ReadyAt(rs, rs, i) {
      assert ReadyAt(rs[..i], rs, i);
      assert forall r :: r in rs[..i] ==> r in rs;
    }
    forall p | IsPath(Dependencies(rs), p) && |p| >= 2 ensures p[0] != p[|p| - 1] {
      assert Edge(Dependencies(rs), p[0], p[1]);
      var r :| r in rs && r.release.id == p[0];
      var i :| 0 <= i < |rs| && rs[i] == r;
      PathsLeadBack(rs, p, i);
    }
  }

  /** When nothing that remains is ready, a dependency is missing or a cycle remains. */
  lemma StuckIsCyclic(all: seq<Resource>, ordered: seq<Resource>, rest: seq<Resource>)
    requires multiset(ordered + rest) == multiset(all) && rest != []
    requires DependenciesPresent(all) && NoneReady(ordered, rest)
    ensures !Acyclic(Dependencies(all))
  {
    var g, s := Dependencies(all), Ids(rest);
    assert rest[0].release.id in s by { assert rest[0] in rest; }
    forall a {:trigger HasSuccessorIn(g, s, a)} | a in s ensures HasSuccessorIn(g, s, a) {
      StuckIdHasSuccessor(all, ordered, rest, a);
    }
    SuccessorsInsideMakeCycle(g, s);
  }

  lemma StuckIdHasSuccessor(all: seq<Resource>, ordered: seq<Resource>, rest: seq<Resource>, id: ReleaseId)
    requires multiset(ordered + rest) == multiset(all)
    requires DependenciesPresent(all) && NoneReady(ordered, rest) && id in Ids(rest)
    ensures HasSuccessorIn(Dependencies(all), Ids(rest), id)
  {
    SameMembersSameGraph(all, ordered + rest);
    var i := IndexOfId(rest, id);
    StuckHasStuckDependency(all, ordered, rest, i);
  }

  ghost predicate NoneReady(ordered: seq<Resource>, rest: seq<Resource>) {
    forall i {:trigger ReadyAt(ordered, rest, i)} :: 0 <= i < |rest| ==> !ReadyAt(ordered, rest, i)
  }

  lemma IndexOfId(rs: seq<Resource>, id: ReleaseId) returns (i: nat)
    requires id in Ids(rs)
    ensures i < |rs| && rs[i].release.id == id
  {
    var r :| r in rs && r.release.id == id;
    i :| 0 <= i < |rs| && rs[i] == r;
  }

  lemma StuckHasStuckDependency(all: seq<Resource>, ordered: seq<Resource>, rest: seq<Resource>, i: nat)
    requires forall r :: r in all <==> r in ordered + rest
    requires DependenciesPresent(all) && NoneReady(ordered, rest)
    requires i < |rest|
    ensures HasSuccessorIn(Dependencies(all), Ids(rest), rest[i].release.id)
  {
    var r := rest[i];
    assert !ReadyAt(ordered, rest, i);
    var d :| d in r.release.dependencies && d.id !in Ids(ordered);
    assert r in ordered + rest;
    var k :| 0 <= k < |all| && all[k] == r;
    assert ReadyAt(all, all, k);
    var t :| t in all && t.release.id == d.id;
    assert t in ordered + rest && t !in ordered;
    DeclaredDependencyIsEdge(all, r, d);
    assert d.id in Ids(rest);
  }

  /** Repeatedly take the first member whose dependencies are all placed. */
  method OrderPackages(resources: seq<Resource>) returns (r: Result<seq<Resource>, Error>)
    ensures r.Ok? ==> multiset(r.value) == multiset(resources) && DependenciesFirst(r.value)
    ensures r.Err? ==> r.error == CyclicDependencies
    ensures DistinctIds(resources) ==>
      (r.Ok? <==> DependenciesPresent(resources) && Acyclic(Dependencies(resources)))
  {
    var rest := resources;
    var ordered: seq<Resource> := [];
    assert ordered + rest == resources;
    while rest != []
      invariant multiset(ordered + rest) == multiset(resources)
      invariant DependenciesFirst(ordered)
      decreases |rest|
    {
      var ready := None;
      for i := 0 to |rest|
        invariant ready.None?
        invariant forall j {:trigger ReadyAt(ordered, rest, j)} :: 0 <= j < i ==> !ReadyAt(ordered, rest, j)
      {
        if Ready(Ids(ordered), rest[i]) {
          ready := Some(i);
          break;
        }
      }
      if ready.None? {
        if DependenciesPresent(resources) {
          StuckIsCyclic(resources, ordered, rest);
        }
        return Err(CyclicDependencies);
      }
      TakeKeepsOrder(ordered, rest, ready.value);
      ordered := ordered + [rest[ready.value]];
      rest := rest[..ready.value] + rest[ready.value + 1..];
    }
    assert ordered + rest == ordered;
    r := Ok(ordered);
    if DistinctIds(resources) {
      PermutationDistinct(resources, ordered);
      OrderedIsAcyclic(ordered);
      SameMembersSameGraph(ordered, resources);
    }
  }

  lemma TakeKeepsOrder(ordered: seq<Resource>, rest: seq<Resource>, i: nat)
    requires i < |rest| && DependenciesFirst(ordered) && Ready(Ids(ordered), rest[i])
    ensures DependenciesFirst(ordered + [rest[i]])
    ensures multiset(ordered + [rest[i]] + (rest[..i] + rest[i + 1..])) == multiset(ordered + rest)
  {
    var next := ordered + [rest[i]];
    forall k | 0 <= k < |next| ensures ReadyAt(next[..k], next, k) {
      assert next[..k] == ordered[..k];
      if k < |ordered| {
        assert ReadyAt(ordered[..k], ordered, k);
      } else {
        assert ordered[..k] == ordered;
      }
    }
    assert rest == rest[..i] + [rest[i]] + rest[i + 1..];
  }

  lemma CountTwice(ts: seq<Resource>, i: nat, j: nat)
    requires i < j < |ts| && ts[i] == ts[j]
    ensures multiset(ts)[ts[i]] >= 2
  {
    assert ts == ts[..i] + [ts[i]] + ts[i + 1..j] + [ts[j]] + ts[j + 1..];
  }

  lemma CountOnce(rs: seq<Resource>, k: nat)
    requires k < |rs| && DistinctIds(rs)
    ensures multiset(rs)[rs[k]] == 1
  {
    assert rs == rs[..k] + [rs[k]] + rs[k + 1..];
    assert rs[k] !in rs[..k] && rs[k] !in rs[k + 1..];
  }

  lemma PermutationDistinct(rs: seq<Resource>, ts: seq<Resource>)
    requires multiset(rs) == multiset(ts) && DistinctIds(rs)
    ensures DistinctIds(ts)
  {
    SameMembersSameGraph(rs, ts);
    forall i, j | 0 <= i < j < |ts| ensures ts[i].release.id != ts[j].release.id {
      assert ts[i] in rs && ts[j] in rs;
      var k :| 0 <= k < |rs| && rs[k] == ts[i];
      var m :| 0 <= m < |rs| && rs[m] == ts[j];
      CountOnce(rs, k);
      if k == m {
        CountTwice(ts, i, j);
      }
    }
  }

  /** On a closure built from one root, the ordered batch ends with that root. */
  lemma RootComesLast(store: map<Request, Release>, installed: map<string, Installed>, root: Request,
                      closure: seq<Resource>, ordered: seq<Resource>)
    requires IsClosure(store, root, Requests(closure)) && FromStore(store, installed, closure)
    requires DistinctNames(closure) && 0 < |closure|
    requires multiset(ordered) == multiset(closure) && DependenciesFirst(ordered)
    ensures ordered != []
    ensures ordered[|ordered| - 1].release.id == root.id && ordered[|ordered| - 1].release.version == root.version
  {
    assert |ordered| == |multiset(ordered)| == |multiset(closure)| == |closure|;
    assert DistinctIds(closure);
    PermutationDistinct(closure, ordered);
    SameMembersSameGraph(closure, ordered);
    var last := ordered[|ordered| - 1];
    assert last in closure;
    var q := Request(last.release.id, last.release.version);
    assert q in Requests(closure);
    var p: seq<Request> :| IsPathBetween(Declared(store), p, root, q);
    if |p| >= 2 {
      var ids := seq(|p|, i requires 0 <= i < |p| => p[i].id);
      PathOfIds(store, installed, root, closure, p, ids);
      ReachesSelf(Declared(store), root);
      assert root in Requests(closure);
      NoPathToLast(ordered, ids);
    }
  }

  lemma NoPathToLast(ordered: seq<Resource>, ids: seq<ReleaseId>)
    requires DependenciesFirst(ordered) && DistinctIds(ordered) && ordered != []
    requires IsPath(Dependencies(ordered), ids) && |ids| >= 2 && ids[0] in Ids(ordered)
    ensures ids[|ids| - 1] != ordered[|ordered| - 1].release.id
  {
    var i := IndexOfId(ordered, ids[0]);
    PathsLeadBack(ordered, ids, i);
  }

  lemma PathOfIds(store: map<Request, Release>, installed: map<string, Installed>, root: Request,
                  closure: seq<Resource>, p: seq<Request>, ids: seq<ReleaseId>)
    requires IsClosure(store, root, Requests(closure)) && FromStore(store, installed, closure)
    requires IsPath(Declared(store), p) && p[0] == root
    requires |ids| == |p| && forall i :: 0 <= i < |p| ==> ids[i] == p[i].id
    ensures IsPath(Dependencies(closure), ids)
  {
    forall i | 0 <= i < |ids| - 1 ensures Edge(Dependencies(closure), ids[i], ids[i + 1]) {
      assert Edge(Declared(store), p[i], p[i + 1]);
      assert IsPathBetween(Declared(store), p[..i + 1], root, p[i]);
      assert p[i] in Requests(closure);
      var r :| r in closure && Request(r.release.id, r.release.version) == p[i];
      var k :| 0 <= k < |closure| && closure[k] == r;
      assert MemberOfStore(store, installed, closure[k]);
      assert p[i + 1] in r.release.dependencies;
    }
  }
}
