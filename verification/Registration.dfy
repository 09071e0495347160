/** The package registry and the transactions that change it. A transaction works on its own
    copy of the tables; `Err` is the copy being dropped. */
module Registration {
  import opened Wrappers
  import opened Identity
  import opened Digraph

  datatype Row = Row(author: Option<string>, version: string, hasLib: bool, hasApp: bool, about: string,
                     owner: Option<string>, sha: Option<string>, leaf: Option<string>,
                     installedAt: Option<int>, upgradedAt: Option<int>)

  /** One permission group of a Lib with its mounted (method, path) operations. */
  datatype Group = Group(id: string, title: string, endpoints: seq<(string, string)>)

  /** `package` by its primary key, `package_dependency` by its primary key (package, dependency),
      and the capability rows of each Lib. */
  datatype Tables = Tables(packages: map<string, Row>, dependencies: map<(string, string), string>,
                           groups: map<string, seq<Group>>)

  /** A publication receipt for the release an unowned row was installed from. */
  datatype Receipt = Receipt(id: ReleaseId, version: string, owner: string, verified: bool)

  /** One verified member of a batch. `evidence` is the verdict on its signatures and revocation
      lists; `routesClear` the verdict of the route checks made against the old installation. */
  datatype Candidate = Candidate(id: ReleaseId, version: string, hasLib: bool, hasApp: bool, about: string,
                                 owner: string, sha: string, leaf: string, dependencies: seq<Request>,
                                 groups: seq<Group>, previous: Option<Receipt>, evidence: bool, routesClear: bool)

  /** The loaded Libs and Apps with the version each was loaded at. */
  datatype Runtime = Runtime(libs: map<PackageId, string>, apps: map<PackageId, string>)

  datatype Error =
    | BadRequest
    | PolicyRejected
    | NameTaken(name: string)
    | OwnershipConflict
    | VersionConflict
    | RouteConflict
    | RequiredByOthers(name: string)
    | DependencyMissing(request: Request)
    | DependencyCycle(name: string)
    | Constraint
    | StillRequired(name: string)

  const EMPTY := Tables(map[], map[], map[])
  const MAX_BATCH := 100

  function IdOf(id: ReleaseId): PackageId {
    PackageId(Some(id.author), id.name)
  }

  /** The identity text of a row: `author/name`, or the name alone for a legacy row. */
  function RowId(name: string, row: Row): PackageId {
    PackageId(row.author, name)
  }

  // ------------------------------------------------------------ dependency graph

  function Dependents(t: Tables): set<string> {
    set k | k in t.dependencies :: k.0
  }

  function Graph(t: Tables): map<string, set<string>> {
    map a | a in Dependents(t) :: set k | k in t.dependencies && k.0 == a :: k.1
  }

  lemma EdgesAreRows(t: Tables)
    ensures forall a, b :: Edge(Graph(t), a, b) <==> (a, b) in t.dependencies
  {
    forall a, b ensures Edge(Graph(t), a, b) <==> (a, b) in t.dependencies {
      if (a, b) in t.dependencies {
        assert (a, b).0 in Dependents(t);
        assert (a, b).1 in Graph(t)[a];
      }
    }
  }

  function Successors(t: Tables, a: string): set<string> {
    set k | k in t.dependencies && k.0 == a :: k.1
  }

  /** What is installed: rows of dependencies name installed packages at exactly the version
      required, and following them never returns. */
  ghost predicate Consistent(t: Tables) {
    && (forall k :: k in t.dependencies ==> ExactRow(t, k))
    && Acyclic(Graph(t))
  }

  ghost predicate ExactRow(t: Tables, k: (string, string))
    requires k in t.dependencies
  {
    && k.0 in t.packages && k.1 in t.packages
    && t.packages[k.1].version == t.dependencies[k]
    && k.0 != k.1
  }

  /** Everything named anywhere in the dependency table. */
  function Named(t: Tables): set<string> {
    Dependents(t) + (set k | k in t.dependencies :: k.1)
  }

  /** The cycle search: a worklist over `package_dependency` from the new dependency. It stops, and
      reports a cycle exactly when the depending package is reached. */
  method CheckDependencyCycle(t: Tables, name: string, dependency: string) returns (cyclic: bool)
    ensures cyclic <==> Reaches(Graph(t), dependency, name)
  {
    var pending := [dependency];
    var seen: set<string> := {};
    SearchStarts(t, name, dependency);
    while pending != []
      invariant Searching(t, name, dependency, seen, pending)
      decreases Named(t) + {dependency} - seen, |pending|
    {
      var current := pending[|pending| - 1];
      SearchPops(t, name, dependency, seen, pending);
      ghost var before := pending;
      pending := pending[..|pending| - 1];
      assert before == pending + [current];
      if current == name {
        return true;
      }
      if current in seen {
        continue;
      }
      var more := SetToSequence(Successors(t, current));
      SearchGrows(t, name, dependency, seen, pending, current, more);
      seen := seen + {current};
      pending := pending + more;
    }
    SearchEnds(t, name, dependency, seen);
    cyclic := false;
  }

  /** Everything found is reached, and everything seen has its successors seen or waiting. */
  ghost predicate Searching(t: Tables, name: string, dependency: string, seen: set<string>, pending: seq<string>) {
    && seen <= Named(t) + {dependency} && name !in seen && (dependency in seen || dependency in pending)
    && (forall x :: x in pending ==> Found(t, dependency, x))
    && (forall a {:trigger Left(t, seen, pending, a)} :: a in seen ==> Left(t, seen, pending, a))
  }

  ghost predicate Found(t: Tables, dependency: string, x: string) {
    x in Named(t) + {dependency} && Reaches(Graph(t), dependency, x)
  }

  ghost predicate Left(t: Tables, seen: set<string>, pending: seq<string>, a: string) {
    forall b :: (a, b) in t.dependencies ==> b in seen || b in pending
  }

  lemma SearchStarts(t: Tables, name: string, dependency: string)
    ensures Searching(t, name, dependency, {}, [dependency])
  {
    ReachesSelf(Graph(t), dependency);
  }

  /** Taking the last one: it is reached, and if it was seen before nothing is lost. */
  lemma SearchPops(t: Tables, name: string, dependency: string, seen: set<string>, pending: seq<string>)
    requires pending != [] && Searching(t, name, dependency, seen, pending)
    ensures Found(t, dependency, pending[|pending| - 1])
    ensures pending[|pending| - 1] in seen ==> Searching(t, name, dependency, seen, pending[..|pending| - 1])
  {
    var rest, last := pending[..|pending| - 1], pending[|pending| - 1];
    assert pending == rest + [last];
    if last in seen {
      forall a {:trigger Left(t, seen, rest, a)} | a in seen ensures Left(t, seen, rest, a) {
        assert Left(t, seen, pending, a);
      }
    }
  }

  lemma SearchGrows(t: Tables, name: string, dependency: string, seen: set<string>, rest: seq<string>, last: string,
                    more: seq<string>)
    requires Searching(t, name, dependency, seen, rest + [last]) && last != name && last !in seen
    requires forall x :: x in more <==> x in Successors(t, last)
    ensures Searching(t, name, dependency, seen + {last}, rest + more)
    ensures last in Named(t) + {dependency}
  {
    var now, waiting := seen + {last}, rest + more;
    assert last in rest + [last] && Found(t, dependency, last);
    SuccessorsExactly(t, last);
    forall x | x in waiting ensures Found(t, dependency, x) {
      if x in more {
        ReachesSuccessor(t, dependency, last, x);
      } else {
        assert x in rest + [last];
      }
    }
    forall a {:trigger Left(t, now, waiting, a)} | a in now ensures Left(t, now, waiting, a) {
      if a in seen {
        assert Left(t, seen, rest + [last], a);
      }
    }
  }

  lemma SearchEnds(t: Tables, name: string, dependency: string, seen: set<string>)
    requires Searching(t, name, dependency, seen, [])
    ensures !Reaches(Graph(t), dependency, name)
  {
    EdgesAreRows(t);
    assert ClosedUnder(Graph(t), seen) by {
      forall a, b | a in seen && Edge(Graph(t), a, b) ensures b in seen {
        assert Left(t, seen, [], a) && (a, b) in t.dependencies;
      }
    }
    if Reaches(Graph(t), dependency, name) {
      ClosedContainsReachable(Graph(t), seen, dependency, name);
    }
  }

  lemma SuccessorsExactly(t: Tables, a: string)
    ensures forall b :: b in Successors(t, a) <==> (a, b) in t.dependencies
  {
    forall b | (a, b) in t.dependencies ensures b in Successors(t, a) {
      assert (a, b).1 in Successors(t, a);
    }
  }

  lemma ReachesSuccessor(t: Tables, start: string, a: string, b: string)
    requires Reaches(Graph(t), start, a) && b in Successors(t, a)
    ensures Reaches(Graph(t), start, b) && b in Named(t)
  {
    EdgesAreRows(t);
    assert (a, b) in t.dependencies;
    ReachesEdge(Graph(t), a, b);
    ReachesTrans(Graph(t), start, a, b);
  }

  /** The rows of a query in some order. */
  method SetToSequence(s: set<string>) returns (q: seq<string>)
    ensures forall x :: x in q <==> x in s
  {
    var rest := s;
    q := [];
    while rest != {}
      invariant rest <= s && forall x :: x in q <==> x in s - rest
      decreases rest
    {
      var x :| x in rest;
      q := q + [x];
      rest := rest - {x};
    }
  }

  // ------------------------------------------------------------ saving one registration

  predicate NameFree(t: Tables, id: ReleaseId) {
    id.name in t.packages ==> t.packages[id.name].author == Some(id.author)
  }

  predicate OwnerHolds(t: Tables, p: Candidate) {
    p.id.name in t.packages && t.packages[p.id.name].owner.Some? ==> t.packages[p.id.name].owner == Some(p.owner)
  }

  /** Some dependent outside pins another version. */
  predicate PinnedElsewhere(t: Tables, p: Candidate) {
    exists k :: k in t.dependencies && k.1 == p.id.name && t.dependencies[k] != p.version
  }

  function NewRow(t: Tables, p: Candidate, now: int): Row {
    var first := p.id.name !in t.packages;
    Row(Some(p.id.author), p.version, p.hasLib, p.hasApp, p.about, Some(p.owner), Some(p.sha), Some(p.leaf),
        if first then Some(now) else t.packages[p.id.name].installedAt,
        if first then None else Some(now))
  }

  function Upserted(t: Tables, p: Candidate, now: int): Tables {
    t.(packages := t.packages[p.id.name := NewRow(t, p, now)])
  }

  function WithoutOutgoing(t: Tables, names: set<string>): Tables {
    t.(dependencies := map k | k in t.dependencies && k.0 !in names :: t.dependencies[k])
  }

  predicate InstalledExactly(t: Tables, d: Request) {
    && d.id.name in t.packages
    && t.packages[d.id.name].author == Some(d.id.author) && t.packages[d.id.name].version == d.version
  }

  /** Inserting the declared dependencies from the i-th on, one row at a time. */
  ghost function Linked(t: Tables, p: Candidate, i: nat): Result<Tables, Error>
    requires i <= |p.dependencies|
    decreases |p.dependencies| - i
  {
    if i == |p.dependencies| then Ok(t)
    else
      var d := p.dependencies[i];
      if !InstalledExactly(t, d) then Err(DependencyMissing(d))
      else if Reaches(Graph(t), d.id.name, p.id.name) then Err(DependencyCycle(p.id.name))
      else if (p.id.name, d.id.name) in t.dependencies then Err(Constraint)
      else Linked(t.(dependencies := t.dependencies[(p.id.name, d.id.name) := d.version]), p, i + 1)
  }

  predicate Claims(groups: seq<Group>, e: (string, string)) {
    exists g :: g in groups && e in g.endpoints
  }

  /** The unique (method, path) index across all Libs' operations. */
  predicate EndpointsClash(t: Tables, p: Candidate) {
    exists name, g, e ::
      name in t.groups && name != p.id.name && g in t.groups[name] && e in g.endpoints && Claims(p.groups, e)
  }

  ghost function Saved(t: Tables, p: Candidate, now: int): Result<Tables, Error> {
    if !NameFree(t, p.id) then Err(NameTaken(p.id.name))
    else if !OwnerHolds(t, p) then Err(OwnershipConflict)
    else if PinnedElsewhere(t, p) then Err(RequiredByOthers(p.id.name))
    else
      var linked := Linked(WithoutOutgoing(Upserted(t, p, now), {p.id.name}), p, 0);
      if linked.Err? then linked
      else if EndpointsClash(linked.value, p) then Err(Constraint)
      else Ok(linked.value.(groups := linked.value.groups[p.id.name := p.groups]))
  }

  method SaveRegistration(t: Tables, p: Candidate, now: int) returns (r: Result<Tables, Error>)
    ensures r == Saved(t, p, now)
  {
    if p.id.name in t.packages && t.packages[p.id.name].author != Some(p.id.author) {
      return Err(NameTaken(p.id.name));
    }
    if p.id.name in t.packages && t.packages[p.id.name].owner.Some? && t.packages[p.id.name].owner != Some(p.owner) {
      return Err(OwnershipConflict);
    }
    if PinnedElsewhere(t, p) {
      return Err(RequiredByOthers(p.id.name));
    }
    var work := WithoutOutgoing(Upserted(t, p, now), {p.id.name});
    for i := 0 to |p.dependencies|
      invariant Linked(WithoutOutgoing(Upserted(t, p, now), {p.id.name}), p, 0) == Linked(work, p, i)
    {
      var d := p.dependencies[i];
      if !InstalledExactly(work, d) {
        return Err(DependencyMissing(d));
      }
      var cyclic := CheckDependencyCycle(work, p.id.name, d.id.name);
      if cyclic {
        return Err(DependencyCycle(p.id.name));
      }
      if (p.id.name, d.id.name) in work.dependencies {
        return Err(Constraint);
      }
      work := work.(dependencies := work.dependencies[(p.id.name, d.id.name) := d.version]);
    }
    if EndpointsClash(work, p) {
      return Err(Constraint);
    }
    r := Ok(work.(groups := work.groups[p.id.name := p.groups]));
  }

  /** One of the first i declarations names n. */
  ghost predicate Declares(p: Candidate, i: nat, n: string)
    requires i <= |p.dependencies|
  {
    exists j :: 0 <= j < i && p.dependencies[j].id.name == n
  }

  ghost predicate LinkedAt(u: Tables, p: Candidate, j: nat)
    requires j < |p.dependencies|
  {
    var k := (p.id.name, p.dependencies[j].id.name);
    k in u.dependencies && u.dependencies[k] == p.dependencies[j].version
  }

  /** What has been linked so far: everything of other packages, and the first i declarations. */
  ghost predicate LinkedUpTo(t: Tables, u: Tables, p: Candidate, i: nat)
    requires i <= |p.dependencies|
  {
    && u.packages == t.packages && u.groups == t.groups
    && (forall k :: k in u.dependencies <==> k in t.dependencies || (k.0 == p.id.name && Declares(p, i, k.1)))
    && (forall k :: k in t.dependencies ==> u.dependencies[k] == t.dependencies[k])
    && (forall j: nat {:trigger LinkedAt(u, p, j)} :: j < i ==> LinkedAt(u, p, j))
  }

  /** One accepted insertion keeps the table consistent. */
  lemma InsertKeepsConsistent(t: Tables, p: Candidate, d: Request)
    requires Consistent(t) && p.id.name in t.packages && InstalledExactly(t, d)
    requires !Reaches(Graph(t), d.id.name, p.id.name)
    ensures Consistent(t.(dependencies := t.dependencies[(p.id.name, d.id.name) := d.version]))
  {
    var u := t.(dependencies := t.dependencies[(p.id.name, d.id.name) := d.version]);
    EdgesAreRows(t);
    EdgesAreRows(u);
    NewEdgeKeepsAcyclic(Graph(t), Graph(u), p.id.name, d.id.name);
    if p.id.name == d.id.name {
      ReachesSelf(Graph(t), d.id.name);
    }
    forall k | k in u.dependencies ensures ExactRow(u, k) {
      assert k != (p.id.name, d.id.name) ==> ExactRow(t, k);
    }
  }

  lemma {:induction false} LinkedKeepsConsistent(t: Tables, p: Candidate, i: nat)
    requires i <= |p.dependencies|
    requires Consistent(t) && p.id.name in t.packages && Linked(t, p, i).Ok?
    ensures Consistent(Linked(t, p, i).value) && Linked(t, p, i).value.packages == t.packages
    decreases |p.dependencies| - i
  {
    if i < |p.dependencies| {
      var d := p.dependencies[i];
      InsertKeepsConsistent(t, p, d);
      LinkedKeepsConsistent(t.(dependencies := t.dependencies[(p.id.name, d.id.name) := d.version]), p, i + 1);
    }
  }

  lemma DroppingKeepsConsistent(t: Tables, names: set<string>)
    requires Consistent(t)
    ensures Consistent(WithoutOutgoing(t, names))
  {
    var u := WithoutOutgoing(t, names);
    EdgesAreRows(t);
    EdgesAreRows(u);
    forall k | k in u.dependencies ensures ExactRow(u, k) {
      assert ExactRow(t, k);
    }
    FewerEdgesStayAcyclic(Graph(t), Graph(u));
  }

  lemma UpsertKeepsConsistent(t: Tables, p: Candidate, now: int)
    requires Consistent(t) && !PinnedElsewhere(t, p)
    ensures Consistent(Upserted(t, p, now))
  {
    var u := Upserted(t, p, now);
    assert Graph(u) == Graph(t);
    forall k | k in u.dependencies ensures ExactRow(u, k) {
      assert ExactRow(t, k);
    }
  }

  /** Registering one member keeps every exact requirement and never closes a cycle. */
  lemma SaveKeepsConsistent(t: Tables, p: Candidate, now: int)
    requires Consistent(t) && Saved(t, p, now).Ok?
    ensures Consistent(Saved(t, p, now).value)
  {
    var u := WithoutOutgoing(Upserted(t, p, now), {p.id.name});
    UpsertKeepsConsistent(t, p, now);
    DroppingKeepsConsistent(Upserted(t, p, now), {p.id.name});
    LinkedKeepsConsistent(u, p, 0);
    var v := Linked(u, p, 0).value;
    var w := Saved(t, p, now).value;
    assert Graph(w) == Graph(v);
    forall k | k in w.dependencies ensures ExactRow(w, k) {
      assert ExactRow(v, k);
    }
  }

  lemma {:induction false} LinkedRows(t: Tables, u: Tables, p: Candidate, i: nat)
    requires i <= |p.dependencies| && LinkedUpTo(t, u, p, i) && Linked(u, p, i).Ok?
    ensures LinkedUpTo(t, Linked(u, p, i).value, p, |p.dependencies|)
    decreases |p.dependencies| - i
  {
    if i < |p.dependencies| {
      var d := p.dependencies[i];
      LinkedStep(t, u, p, i);
      LinkedRows(t, u.(dependencies := u.dependencies[(p.id.name, d.id.name) := d.version]), p, i + 1);
    }
  }

  /** What one registration writes: its own row, exactly its declared edges at the declared
      versions, its own capabilities, and nothing of any other package. */
  lemma SaveWritesItsRows(t: Tables, p: Candidate, now: int)
    requires Saved(t, p, now).Ok?
    ensures var u := Saved(t, p, now).value;
      && u.packages == t.packages[p.id.name := NewRow(t, p, now)]
      && u.groups == t.groups[p.id.name := p.groups]
      && (forall k :: k in u.dependencies && k.0 != p.id.name <==> k in t.dependencies && k.0 != p.id.name)
      && (forall k :: k in t.dependencies && k.0 != p.id.name ==> u.dependencies[k] == t.dependencies[k])
      && (forall n :: (p.id.name, n) in u.dependencies <==> Declares(p, |p.dependencies|, n))
      && (forall j: nat :: j < |p.dependencies| ==> LinkedAt(u, p, j))
  {
    var v := WithoutOutgoing(Upserted(t, p, now), {p.id.name});
    LinkedRows(v, v, p, 0);
    var u := Saved(t, p, now).value;
    forall n ensures (p.id.name, n) in u.dependencies <==> Declares(p, |p.dependencies|, n) {
      assert (p.id.name, n) !in v.dependencies;
      assert (p.id.name, n).1 == n;
    }
    forall j: nat | j < |p.dependencies| ensures LinkedAt(u, p, j) {
      assert LinkedAt(Linked(v, p, 0).value, p, j);
    }
  }

  lemma LinkStepExactly(t: Tables, u: Tables, p: Candidate, i: nat)
    requires i < |p.dependencies| && LinkedUpTo(t, u, p, i)
    requires forall k :: k in t.dependencies ==> k.0 != p.id.name
    ensures Linkable(t, p, i) <==>
      && InstalledExactly(u, p.dependencies[i])
      && !Reaches(Graph(u), p.dependencies[i].id.name, p.id.name)
      && (p.id.name, p.dependencies[i].id.name) !in u.dependencies
  {
    var d := p.dependencies[i];
    EdgesAreRows(t);
    EdgesAreRows(u);
    ReachIgnoresEdgesOfGoal(Graph(t), Graph(u), d.id.name, p.id.name);
    assert (p.id.name, d.id.name).1 == d.id.name && (p.id.name, d.id.name).0 == p.id.name;
  }

  /** The declared edges can all be inserted exactly when each names a distinct package installed
      at that version by that author, and none of them already leads back to this package. */
  lemma {:induction false} LinksExactly(t: Tables, u: Tables, p: Candidate, i: nat)
    requires i <= |p.dependencies| && LinkedUpTo(t, u, p, i)
    requires forall k :: k in t.dependencies ==> k.0 != p.id.name
    ensures Linked(u, p, i).Ok? <==>
      forall j {:trigger Linkable(t, p, j)} :: i <= j < |p.dependencies| ==> Linkable(t, p, j)
    decreases |p.dependencies| - i
  {
    if i < |p.dependencies| {
      LinkStepExactly(t, u, p, i);
      if Linkable(t, p, i) {
        var d := p.dependencies[i];
        var next := u.(dependencies := u.dependencies[(p.id.name, d.id.name) := d.version]);
        LinkedStep(t, u, p, i);
        LinksExactly(t, next, p, i + 1);
        assert Linked(u, p, i) == Linked(next, p, i + 1);
      }
    }
  }

  lemma LinkedStep(t: Tables, u: Tables, p: Candidate, i: nat)
    requires i < |p.dependencies| && LinkedUpTo(t, u, p, i)
    requires (p.id.name, p.dependencies[i].id.name) !in u.dependencies
    ensures var d := p.dependencies[i];
      LinkedUpTo(t, u.(dependencies := u.dependencies[(p.id.name, d.id.name) := d.version]), p, i + 1)
  {
    var d := p.dependencies[i];
    var v := u.(dependencies := u.dependencies[(p.id.name, d.id.name) := d.version]);
    forall n ensures Declares(p, i + 1, n) <==> Declares(p, i, n) || n == d.id.name {
      assert p.dependencies[i].id.name == d.id.name;
    }
    forall j: nat {:trigger LinkedAt(v, p, j)} | j < i + 1 ensures LinkedAt(v, p, j) {
      if j < i {
        assert LinkedAt(u, p, j);
      }
    }
  }

  ghost predicate Linkable(t: Tables, p: Candidate, j: nat)
    requires j < |p.dependencies|
  {
    && InstalledExactly(t, p.dependencies[j])
    && !Reaches(Graph(t), p.dependencies[j].id.name, p.id.name)
    && forall m :: 0 <= m < j ==> p.dependencies[m].id.name != p.dependencies[j].id.name
  }

  /** The exact condition under which one registration is accepted. */
  lemma SavesExactly(t: Tables, p: Candidate, now: int)
    ensures Saved(t, p, now).Ok? <==>
      && NameFree(t, p.id) && OwnerHolds(t, p) && !PinnedElsewhere(t, p) && !EndpointsClash(t, p)
      && forall j :: 0 <= j < |p.dependencies| ==> Linkable(WithoutOutgoing(Upserted(t, p, now), {p.id.name}), p, j)
  {
    var v := WithoutOutgoing(Upserted(t, p, now), {p.id.name});
    LinksExactly(v, v, p, 0);
    if Linked(v, p, 0).Ok? {
      LinkedRows(v, v, p, 0);
      assert EndpointsClash(Linked(v, p, 0).value, p) <==> EndpointsClash(t, p) by {
        assert Linked(v, p, 0).value.groups == t.groups;
      }
    }
  }
}
