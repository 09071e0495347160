/** From a resolved closure to the registry: an ordered closure never fails on its dependencies. */
module Resolution {
  import opened Wrappers
  import opened Identity
  import opened Digraph
  import opened Registration
  import opened Installation
  import Store

  /** The dependencies that the content of a release declares. */
  datatype Content = Content(id: ReleaseId, version: string, sha: string)
  type Manifests = Content -> seq<Request>

  function ContentOf(p: Candidate): Content {
    Content(p.id, p.version, p.sha)
  }

  ghost predicate NamesOne(deps: seq<Request>, n: string) {
    exists j :: 0 <= j < |deps| && deps[j].id.name == n
  }

  ghost predicate LinkedTo(t: Tables, name: string, d: Request) {
    (name, d.id.name) in t.dependencies && t.dependencies[(name, d.id.name)] == d.version
  }

  /** The edges that leave a name are exactly these, at these versions. */
  ghost predicate EdgesAre(t: Tables, name: string, deps: seq<Request>) {
    && (forall n {:trigger NamesOne(deps, n)} :: (name, n) in t.dependencies <==> NamesOne(deps, n))
    && (forall j {:trigger LinkedTo(t, name, deps[j])} :: 0 <= j < |deps| ==> LinkedTo(t, name, deps[j]))
  }

  ghost predicate SameEdges(t: Tables, u: Tables, name: string) {
    forall n :: ((name, n) in t.dependencies <==> (name, n) in u.dependencies)
      && ((name, n) in t.dependencies ==> u.dependencies[(name, n)] == t.dependencies[(name, n)])
  }

  lemma EdgesKept(t: Tables, u: Tables, name: string, deps: seq<Request>)
    requires EdgesAre(t, name, deps) && SameEdges(t, u, name)
    ensures EdgesAre(u, name, deps)
  {
    forall j {:trigger LinkedTo(u, name, deps[j])} | 0 <= j < |deps| ensures LinkedTo(u, name, deps[j]) {
      assert LinkedTo(t, name, deps[j]);
    }
  }

  lemma EdgesTwice(t: Tables, u: Tables, v: Tables, name: string)
    requires SameEdges(t, u, name) && SameEdges(u, v, name)
    ensures SameEdges(t, v, name)
  {
    forall n: string ensures (name, n) in t.dependencies <==> (name, n) in v.dependencies {
      assert (name, n) in t.dependencies <==> (name, n) in u.dependencies;
    }
  }

  lemma DroppedEdges(t: Tables, names: set<string>, name: string)
    requires name !in names
    ensures SameEdges(t, WithoutOutgoing(t, names), name)
  {
    forall n: string ensures (name, n) in t.dependencies <==> (name, n) in WithoutOutgoing(t, names).dependencies {
      assert (name, n).0 == name;
    }
  }

  // ------------------------------------------------------------ edges follow the manifests

  /** Every row with a recorded digest has exactly the edges that its release declares. */
  ghost predicate Follows(t: Tables, m: Manifests) {
    forall name {:trigger RowFollows(t, m, name)} :: RowFollows(t, m, name)
  }

  ghost predicate RowFollows(t: Tables, m: Manifests, name: string) {
    name in t.packages && t.packages[name].author.Some? && t.packages[name].sha.Some? ==>
      var row := t.packages[name];
      EdgesAre(t, name, m(Content(ReleaseId(row.author.value, name), row.version, row.sha.value)))
  }

  /** Members declare what their content does. */
  ghost predicate Genuine(batch: seq<Candidate>, m: Manifests) {
    forall i :: 0 <= i < |batch| ==> batch[i].dependencies == m(ContentOf(batch[i]))
  }

  /** One registration leaves the declared edges, and those of other names as they were. */
  lemma SavedEdges(t: Tables, p: Candidate, now: int)
    requires Saved(t, p, now).Ok?
    ensures EdgesAre(Saved(t, p, now).value, p.id.name, p.dependencies)
    ensures forall name :: name != p.id.name ==> SameEdges(t, Saved(t, p, now).value, name)
  {
    var u := Saved(t, p, now).value;
    SaveWritesItsRows(t, p, now);
    forall n {:trigger NamesOne(p.dependencies, n)}
      ensures (p.id.name, n) in u.dependencies <==> NamesOne(p.dependencies, n)
    {
      assert Declares(p, |p.dependencies|, n) <==> NamesOne(p.dependencies, n);
    }
    forall j: nat {:trigger LinkedTo(u, p.id.name, p.dependencies[j])} | j < |p.dependencies|
      ensures LinkedTo(u, p.id.name, p.dependencies[j])
    {
      assert LinkedAt(u, p, j);
    }
    forall name | name != p.id.name ensures SameEdges(t, u, name) {
      forall n ensures (name, n) in t.dependencies <==> (name, n) in u.dependencies {
        assert (name, n).0 == name;
      }
    }
  }

  lemma {:induction false} OtherEdges(t: Tables, changed: seq<Candidate>, now: int, i: nat, name: string)
    requires i <= |changed| && SavedAll(t, changed, now, i).Ok? && !NamedFrom(changed, i, name)
    ensures SameEdges(t, SavedAll(t, changed, now, i).value, name)
    decreases |changed| - i
  {
    if i < |changed| {
      SavedEdges(t, changed[i], now);
      var one := Saved(t, changed[i], now).value;
      assert changed[i].id.name != name;
      OtherEdges(one, changed, now, i + 1, name);
      EdgesTwice(t, one, SavedAll(t, changed, now, i).value, name);
    }
  }

  /** In the end every written member has exactly its declared edges. */
  lemma {:induction false} WrittenEdges(t: Tables, changed: seq<Candidate>, now: int, i: nat, k: nat)
    requires i <= k < |changed| && SavedAll(t, changed, now, i).Ok? && DistinctNames(changed)
    ensures EdgesAre(SavedAll(t, changed, now, i).value, changed[k].id.name, changed[k].dependencies)
    decreases |changed| - i
  {
    var one := Saved(t, changed[i], now).value;
    if i < k {
      WrittenEdges(one, changed, now, i + 1, k);
    } else {
      var u := SavedAll(t, changed, now, i).value;
      SavedEdges(t, changed[k], now);
      OtherEdges(one, changed, now, k + 1, changed[k].id.name);
      EdgesKept(one, u, changed[k].id.name, changed[k].dependencies);
    }
  }

  lemma InstallFollows(t: Tables, rt: Runtime, batch: seq<Candidate>, now: int, m: Manifests)
    requires Consistent(t) && Follows(t, m) && Genuine(batch, m) && Installed(t, rt, batch, now).Ok?
    ensures Follows(Installed(t, rt, batch, now).value.tables, m)
  {
    var o := Installed(t, rt, batch, now).value;
    InstallKeepsConsistent(t, rt, batch, now);
    forall name {:trigger RowFollows(o.tables, m, name)} ensures RowFollows(o.tables, m, name) {
      if NamedFrom(o.changed, 0, name) {
        var k: nat :| k < |o.changed| && o.changed[k].id.name == name;
        WrittenFollows(t, rt, batch, now, m, k);
      } else {
        UnwrittenFollows(t, rt, batch, now, m, name);
      }
    }
  }

  lemma WrittenFollows(t: Tables, rt: Runtime, batch: seq<Candidate>, now: int, m: Manifests, k: nat)
    requires Consistent(t) && Genuine(batch, m) && Installed(t, rt, batch, now).Ok?
    requires k < |Installed(t, rt, batch, now).value.changed|
    ensures var o := Installed(t, rt, batch, now).value; RowFollows(o.tables, m, o.changed[k].id.name)
  {
    var o := Installed(t, rt, batch, now).value;
    var base := WithoutOutgoing(t, NamesOf(o.changed));
    ChangedIsNonempty(t, rt, batch, now);
    DroppingKeepsConsistent(t, NamesOf(o.changed));
    WrittenRow(base, o.changed, now, 0, k);
    WrittenEdges(base, o.changed, now, 0, k);
    WrittenIsChecked(t, rt, batch, now, o.changed[k]);
    var j :| 0 <= j < |batch| && batch[j] == o.changed[k];
  }

  lemma UnwrittenFollows(t: Tables, rt: Runtime, batch: seq<Candidate>, now: int, m: Manifests, name: string)
    requires Consistent(t) && Follows(t, m) && Installed(t, rt, batch, now).Ok?
    requires !NamedFrom(Installed(t, rt, batch, now).value.changed, 0, name)
    ensures RowFollows(Installed(t, rt, batch, now).value.tables, m, name)
  {
    var o := Installed(t, rt, batch, now).value;
    InstallKeepsConsistent(t, rt, batch, now);
    UnwrittenEdges(t, rt, batch, now, name);
    assert RowFollows(t, m, name);
    if name in t.packages && t.packages[name].author.Some? && t.packages[name].sha.Some? {
      var row := t.packages[name];
      EdgesKept(t, o.tables, name, m(Content(ReleaseId(row.author.value, name), row.version, row.sha.value)));
    }
  }

  lemma UnwrittenEdges(t: Tables, rt: Runtime, batch: seq<Candidate>, now: int, name: string)
    requires Installed(t, rt, batch, now).Ok? && !NamedFrom(Installed(t, rt, batch, now).value.changed, 0, name)
    ensures SameEdges(t, Installed(t, rt, batch, now).value.tables, name)
  {
    var o := Installed(t, rt, batch, now).value;
    var base := WithoutOutgoing(t, NamesOf(o.changed));
    OtherEdges(base, o.changed, now, 0, name);
    assert name !in NamesOf(o.changed);
    DroppedEdges(t, NamesOf(o.changed), name);
  }

  lemma RemoveFollows(t: Tables, id: PackageId, m: Manifests)
    requires Follows(t, m) && Removed(t, id).Ok?
    ensures Follows(Removed(t, id).value, m)
  {
    var u := Removed(t, id).value;
    if u != t {
      forall name {:trigger RowFollows(u, m, name)} ensures RowFollows(u, m, name) {
        assert RowFollows(t, m, name);
        if name in u.packages && u.packages[name].author.Some? && u.packages[name].sha.Some? {
          var row := u.packages[name];
          DroppedEdges(t, {id.name}, name);
          EdgesKept(t, u, name, m(Content(ReleaseId(row.author.value, name), row.version, row.sha.value)));
        }
      }
    }
  }

  ghost predicate GenuineRun(ops: seq<Operation>, m: Manifests) {
    forall i :: 0 <= i < |ops| ==> (ops[i].Install? ==> Genuine(ops[i].batch, m))
  }

  /** Over every run of installs and removals the edges follow the manifests. */
  lemma {:induction false} RunsFollow(t: Tables, ops: seq<Operation>, m: Manifests)
    requires Consistent(t) && Follows(t, m) && GenuineRun(ops, m)
    ensures Follows(Run(t, ops), m)
    decreases |ops|
  {
    if ops != [] {
      StepKeepsConsistent(t, ops[0]);
      match ops[0] {
        case Install(rt, batch, now) =>
          if Installed(t, rt, batch, now).Ok? {
            InstallFollows(t, rt, batch, now, m);
          }
        case Remove(id) =>
          if Removed(t, id).Ok? {
            RemoveFollows(t, id, m);
          }
      }
      RunsFollow(Step(t, ops[0]), ops[1..], m);
    }
  }

  // ------------------------------------------------------------ the order of a closure

  /** Every dependency of a member is an earlier member at the version asked for. */
  ghost predicate Ordered(batch: seq<Candidate>) {
    forall i, d :: 0 <= i < |batch| && d in batch[i].dependencies ==> Provided(batch, i, d)
  }

  ghost predicate Provided(batch: seq<Candidate>, i: int, d: Request)
    requires i <= |batch|
  {
    exists k :: 0 <= k < i && batch[k].id == d.id && batch[k].version == d.version
  }

  ghost predicate Represents(batch: seq<Candidate>, ordered: seq<Store.Resource>) {
    |batch| == |ordered| && forall i :: 0 <= i < |batch| ==> IsRelease(batch[i], ordered[i].release)
  }

  ghost predicate IsRelease(p: Candidate, r: Store.Release) {
    p.id == r.id && p.version == r.version && p.dependencies == r.dependencies
  }

  /** In a closure a dependency is fetched at exactly the version asked for. */
  lemma ClosureProvides(store: map<Request, Store.Release>, installed: map<string, Store.Installed>, root: Request,
                        closure: seq<Store.Resource>, r: Store.Resource, d: Request)
    requires Store.IsClosure(store, root, Store.Requests(closure)) && Store.FromStore(store, installed, closure)
    requires r in closure && d in r.release.dependencies
    ensures d in Store.Requests(closure)
  {
    var i :| 0 <= i < |closure| && closure[i] == r;
    assert Store.MemberOfStore(store, installed, closure[i]);
    var q := Request(r.release.id, r.release.version);
    assert q in Store.Requests(closure);
    assert Edge(Store.Declared(store), q, d);
    ReachesEdge(Store.Declared(store), q, d);
    ReachesTrans(Store.Declared(store), root, q, d);
  }

  /** The members of an ordered closure find every dependency before them. */
  lemma ClosureIsOrdered(store: map<Request, Store.Release>, installed: map<string, Store.Installed>, root: Request,
                         closure: seq<Store.Resource>, ordered: seq<Store.Resource>, batch: seq<Candidate>)
    requires Store.IsClosure(store, root, Store.Requests(closure)) && Store.FromStore(store, installed, closure)
    requires Store.DistinctNames(closure)
    requires multiset(ordered) == multiset(closure) && Store.DependenciesFirst(ordered)
    requires Represents(batch, ordered)
    ensures Ordered(batch)
  {
    assert Store.DistinctIds(closure);
    Store.PermutationDistinct(closure, ordered);
    Store.SameMembersSameGraph(closure, ordered);
    forall i, d | 0 <= i < |batch| && d in batch[i].dependencies ensures Provided(batch, i, d) {
      assert IsRelease(batch[i], ordered[i].release) && ordered[i] in ordered;
      ClosureProvides(store, installed, root, closure, ordered[i], d);
      assert Store.ReadyAt(ordered[..i], ordered, i);
      var k := Store.IndexOfId(ordered[..i], d.id);
      var r :| r in closure && d == Request(r.release.id, r.release.version);
      assert r in ordered;
      var j :| 0 <= j < |ordered| && ordered[j] == r;
      assert IsRelease(batch[k], ordered[k].release);
      assert j == k;
    }
  }

  // ------------------------------------------------------------ no dependency error

  predicate DependencyError(e: Error) {
    e.DependencyMissing? || e.DependencyCycle?
  }

  /** A member stands in the registry: at its version and author, with exactly its declared edges. */
  ghost predicate Standing(t: Tables, p: Candidate) {
    InstalledExactly(t, Request(p.id, p.version)) && EdgesAre(t, p.id.name, p.dependencies)
  }

  ghost predicate AllStanding(t: Tables, batch: seq<Candidate>, b: nat)
    requires b <= |batch|
  {
    forall j {:trigger Standing(t, batch[j])} :: 0 <= j < b ==> Standing(t, batch[j])
  }

  lemma {:induction false} LinksWithin(u: Tables, p: Candidate, s: set<string>, k: nat)
    requires k <= |p.dependencies| && ClosedUnder(Graph(u), s) && p.id.name !in s
    requires forall d :: d in p.dependencies ==> InstalledExactly(u, d) && d.id.name in s
    ensures Linked(u, p, k).Err? ==> !DependencyError(Linked(u, p, k).error)
    decreases |p.dependencies| - k
  {
    if k < |p.dependencies| {
      var d := p.dependencies[k];
      if Reaches(Graph(u), d.id.name, p.id.name) {
        ClosedContainsReachable(Graph(u), s, d.id.name, p.id.name);
      }
      var v := u.(dependencies := u.dependencies[(p.id.name, d.id.name) := d.version]);
      EdgesAreRows(u);
      EdgesAreRows(v);
      assert ClosedUnder(Graph(v), s) by {
        forall a, b | a in s && Edge(Graph(v), a, b) ensures b in s {
          assert Edge(Graph(u), a, b);
        }
      }
      LinksWithin(v, p, s, k + 1);
    }
  }

  /** What has been registered so far, with the rest as it was before. */
  ghost predicate Midway(t: Tables, work: Tables, changed: seq<Candidate>) {
    forall name {:trigger NamedFrom(changed, 0, name)} :: !NamedFrom(changed, 0, name) ==>
      (name in work.packages <==> name in t.packages)
      && (name in t.packages ==> work.packages[name] == t.packages[name])
      && SameEdges(t, work, name)
  }

  /** The names before a member are closed under the edges that are there when it is registered. */
  lemma EarlierIsClosed(work: Tables, batch: seq<Candidate>, b: nat, now: int)
    requires b < |batch| && Ordered(batch) && AllStanding(work, batch, b) && batch[b].id.name !in NamesOf(batch[..b])
    ensures ClosedUnder(Graph(WithoutOutgoing(Upserted(work, batch[b], now), {batch[b].id.name})), NamesOf(batch[..b]))
  {
    var u, s := WithoutOutgoing(Upserted(work, batch[b], now), {batch[b].id.name}), NamesOf(batch[..b]);
    EdgesAreRows(u);
    forall x, y | x in s && Edge(Graph(u), x, y) ensures y in s {
      var q :| q in batch[..b] && q.id.name == x;
      var j :| 0 <= j < b && batch[j] == q;
      assert Standing(work, batch[j]) && (x, y) in work.dependencies;
      assert NamesOne(q.dependencies, y);
      var n :| 0 <= n < |q.dependencies| && q.dependencies[n].id.name == y;
      ProvidedIsEarlier(batch, j, q.dependencies[n], b);
    }
  }

  lemma ProvidedIsEarlier(batch: seq<Candidate>, j: nat, d: Request, b: nat)
    requires j <= b < |batch| && Ordered(batch) && d in batch[j].dependencies
    ensures d.id.name in NamesOf(batch[..b]) && Provided(batch, b, d)
  {
    assert Provided(batch, j, d);
    var k :| 0 <= k < j && batch[k].id == d.id && batch[k].version == d.version;
    assert batch[k] in batch[..b];
  }

  lemma DependenciesStand(work: Tables, batch: seq<Candidate>, b: nat, now: int, d: Request)
    requires b < |batch| && Ordered(batch) && AllStanding(work, batch, b) && batch[b].id.name !in NamesOf(batch[..b])
    requires d in batch[b].dependencies
    ensures InstalledExactly(WithoutOutgoing(Upserted(work, batch[b], now), {batch[b].id.name}), d)
    ensures d.id.name in NamesOf(batch[..b])
  {
    ProvidedIsEarlier(batch, b, d, b);
    var k :| 0 <= k < b && batch[k].id == d.id && batch[k].version == d.version;
    assert Standing(work, batch[k]);
  }

  lemma MemberSaves(work: Tables, batch: seq<Candidate>, b: nat, now: int)
    requires b < |batch| && Ordered(batch) && AllStanding(work, batch, b) && batch[b].id.name !in NamesOf(batch[..b])
    ensures Saved(work, batch[b], now).Err? ==> !DependencyError(Saved(work, batch[b], now).error)
    ensures Saved(work, batch[b], now).Ok? ==> AllStanding(Saved(work, batch[b], now).value, batch, b + 1)
  {
    var p := batch[b];
    var u := WithoutOutgoing(Upserted(work, p, now), {p.id.name});
    EarlierIsClosed(work, batch, b, now);
    forall d | d in p.dependencies ensures InstalledExactly(u, d) && d.id.name in NamesOf(batch[..b]) {
      DependenciesStand(work, batch, b, now, d);
    }
    LinksWithin(u, p, NamesOf(batch[..b]), 0);
    if Saved(work, p, now).Ok? {
      SavedStands(work, batch, b, now);
    }
  }

  lemma SavedStands(work: Tables, batch: seq<Candidate>, b: nat, now: int)
    requires b < |batch| && AllStanding(work, batch, b) && batch[b].id.name !in NamesOf(batch[..b])
    requires Saved(work, batch[b], now).Ok?
    ensures AllStanding(Saved(work, batch[b], now).value, batch, b + 1)
  {
    var p, v := batch[b], Saved(work, batch[b], now).value;
    SaveWritesItsRows(work, p, now);
    SavedEdges(work, p, now);
    forall j {:trigger Standing(v, batch[j])} | 0 <= j < b + 1 ensures Standing(v, batch[j]) {
      if j < b {
        assert Standing(work, batch[j]) && batch[j] in batch[..b];
        assert batch[j].id.name in NamesOf(batch[..b]);
        EdgesKept(work, v, batch[j].id.name, batch[j].dependencies);
      }
    }
  }

  /** A reused member stands as the row it is reused from. */
  lemma ReusedStands(t: Tables, rt: Runtime, batch: seq<Candidate>, b: nat, work: Tables, m: Manifests)
    requires Changed(t, rt, batch, 0).Ok? && b < |batch| && VerdictAt(t, rt, batch, b) == Ok(true)
    requires Follows(t, m) && Genuine(batch, m) && Midway(t, work, Changed(t, rt, batch, 0).value)
    ensures Standing(work, batch[b])
  {
    var p := batch[b];
    ReusedIsNotWritten(t, rt, batch, b);
    assert RowFollows(t, m, p.id.name);
    assert ContentOf(p) == Content(ReleaseId(p.id.author, p.id.name), p.version, p.sha);
    EdgesKept(t, work, p.id.name, p.dependencies);
  }

  lemma SavedIsMidway(t: Tables, work: Tables, changed: seq<Candidate>, i: nat, now: int)
    requires i < |changed| && Midway(t, work, changed) && Saved(work, changed[i], now).Ok?
    ensures Midway(t, Saved(work, changed[i], now).value, changed)
  {
    var v := Saved(work, changed[i], now).value;
    SaveWritesItsRows(work, changed[i], now);
    SavedEdges(work, changed[i], now);
    forall name {:trigger NamedFrom(changed, 0, name)} | !NamedFrom(changed, 0, name)
      ensures (name in v.packages <==> name in t.packages)
      ensures name in t.packages ==> v.packages[name] == t.packages[name]
      ensures SameEdges(t, v, name)
    {
      assert name != changed[i].id.name;
      EdgesTwice(t, work, v, name);
    }
  }

  lemma NextIsWritten(t: Tables, rt: Runtime, batch: seq<Candidate>, changed: seq<Candidate>, b: nat, i: nat)
    requires b < |batch| && i <= |changed| && Changed(t, rt, batch, b) == Ok(changed[i..])
    requires VerdictAt(t, rt, batch, b) == Ok(false)
    ensures i < |changed| && changed[i] == batch[b] && Changed(t, rt, batch, b + 1) == Ok(changed[i + 1..])
  {
    var rest := Changed(t, rt, batch, b + 1).value;
    var tail := changed[i..];
    assert tail == [batch[b]] + rest;
    assert tail[0] == batch[b] && tail[1..] == rest;
  }

  lemma {:induction false} SavesWithoutDependencyError(t: Tables, rt: Runtime, batch: seq<Candidate>, now: int,
                                                       m: Manifests, work: Tables, b: nat, i: nat)
    requires Changed(t, rt, batch, 0).Ok? && Follows(t, m) && Genuine(batch, m) && Ordered(batch)
    requires b <= |batch| && i <= |Changed(t, rt, batch, 0).value|
    requires Changed(t, rt, batch, b) == Ok(Changed(t, rt, batch, 0).value[i..])
    requires Midway(t, work, Changed(t, rt, batch, 0).value) && AllStanding(work, batch, b)
    ensures var r := SavedAll(work, Changed(t, rt, batch, 0).value, now, i);
      r.Err? ==> !DependencyError(r.error)
    decreases |batch| - b
  {
    var changed := Changed(t, rt, batch, 0).value;
    if b < |batch| {
      assert VerdictAt(t, rt, batch, b).Ok?;
      if VerdictAt(t, rt, batch, b).value {
        ReusedStands(t, rt, batch, b, work, m);
        SavesWithoutDependencyError(t, rt, batch, now, m, work, b + 1, i);
      } else {
        NextIsWritten(t, rt, batch, changed, b, i);
        MemberSaves(work, batch, b, now);
        if Saved(work, batch[b], now).Ok? {
          SavedIsMidway(t, work, changed, i, now);
          SavesWithoutDependencyError(t, rt, batch, now, m, Saved(work, batch[b], now).value, b + 1, i + 1);
        }
      }
    }
  }

  /** An ordered batch over a registry whose edges follow the manifests is never refused for a missing
      dependency or a cycle. */
  lemma OrderedNeverMisses(t: Tables, rt: Runtime, batch: seq<Candidate>, now: int, m: Manifests)
    requires Follows(t, m) && Genuine(batch, m) && Ordered(batch)
    ensures Installed(t, rt, batch, now).Err? ==> !DependencyError(Installed(t, rt, batch, now).error)
  {
    if 0 < |batch| <= MAX_BATCH && Changed(t, rt, batch, 0).Ok? {
      var changed := Changed(t, rt, batch, 0).value;
      var base := WithoutOutgoing(t, NamesOf(changed));
      assert changed[0..] == changed;
      forall name {:trigger NamedFrom(changed, 0, name)} | !NamedFrom(changed, 0, name)
        ensures SameEdges(t, base, name)
      {
        assert name !in NamesOf(changed);
        DroppedEdges(t, NamesOf(changed), name);
      }
      SavesWithoutDependencyError(t, rt, batch, now, m, base, 0, 0);
    } else if batch != [] && Changed(t, rt, batch, 0).Err? {
      RefusalsAreNotDependencies(t, rt, batch, 0);
    }
  }

  lemma {:induction false} RefusalsAreNotDependencies(t: Tables, rt: Runtime, batch: seq<Candidate>, i: nat)
    requires i <= |batch|
    ensures Changed(t, rt, batch, i).Err? ==> !DependencyError(Changed(t, rt, batch, i).error)
    decreases |batch| - i
  {
    if i < |batch| {
      RefusalsAreNotDependencies(t, rt, batch, i + 1);
    }
  }

  // ------------------------------------------------------------ exactly when it is accepted

  /** The capabilities on record when member i is registered: the earlier members' are new, the later
      members' still old. */
  function GroupsAt(t: Tables, changed: seq<Candidate>, i: nat): map<string, seq<Group>>
    requires i <= |changed|
  {
    if i == 0 then t.groups else GroupsAt(t, changed, i - 1)[changed[i - 1].id.name := changed[i - 1].groups]
  }

  /** Nothing outside the batch stands against member i: no dependent that stays pins another version,
      and no capability on record at its turn claims one of its endpoints. */
  ghost predicate Unopposed(t: Tables, changed: seq<Candidate>, i: nat)
    requires i < |changed|
  {
    && !PinnedElsewhere(WithoutOutgoing(t, NamesOf(changed)), changed[i])
    && !EndpointsClash(t.(groups := GroupsAt(t, changed, i)), changed[i])
  }

  ghost predicate AllUnopposed(t: Tables, changed: seq<Candidate>, i: nat)
    requires i <= |changed|
    decreases |changed| - i
  {
    i == |changed| || (Unopposed(t, changed, i) && AllUnopposed(t, changed, i + 1))
  }

  /** A member not yet registered: its old row, and its edges dropped. */
  ghost predicate Unsaved(t: Tables, work: Tables, name: string) {
    && (name in work.packages <==> name in t.packages)
    && (name in t.packages ==> work.packages[name] == t.packages[name])
    && forall n :: (name, n) !in work.dependencies
  }

  ghost predicate Pending(t: Tables, work: Tables, changed: seq<Candidate>, i: nat)
    requires i <= |changed|
  {
    && work.groups == GroupsAt(t, changed, i)
    && forall k {:trigger Unsaved(t, work, changed[k].id.name)} ::
         i <= k < |changed| ==> Unsaved(t, work, changed[k].id.name)
  }

  ghost predicate SavedNames(batch: seq<Candidate>, b: nat, changed: seq<Candidate>, i: nat)
    requires b <= |batch| && i <= |changed|
  {
    forall k :: 0 <= k < i ==> changed[k].id.name in NamesOf(batch[..b])
  }

  /** No member names the same dependency twice. */
  ghost predicate DistinctDependencies(batch: seq<Candidate>) {
    forall i, j, k :: 0 <= i < |batch| && 0 <= j < k < |batch[i].dependencies| ==>
      batch[i].dependencies[j].id != batch[i].dependencies[k].id
  }

  lemma EdgeFromEarlier(work: Tables, batch: seq<Candidate>, b: nat, k: (string, string))
    requires b < |batch| && Ordered(batch) && AllStanding(work, batch, b)
    requires k in work.dependencies && k.0 in NamesOf(batch[..b])
    ensures k.1 in NamesOf(batch[..b])
  {
    var q :| q in batch[..b] && q.id.name == k.0;
    var j :| 0 <= j < b && batch[j] == q;
    assert Standing(work, batch[j]) && k == (k.0, k.1);
    assert NamesOne(q.dependencies, k.1);
    var n :| 0 <= n < |q.dependencies| && q.dependencies[n].id.name == k.1;
    ProvidedIsEarlier(batch, j, q.dependencies[n], b);
  }

  /** At its turn a member is pinned exactly by dependents that the batch does not write. */
  lemma PinnedByOutsiders(t: Tables, work: Tables, batch: seq<Candidate>, b: nat, changed: seq<Candidate>, i: nat)
    requires b < |batch| && i < |changed| && changed[i] == batch[b] && batch[b].id.name !in NamesOf(batch[..b])
    requires Ordered(batch) && AllStanding(work, batch, b) && SavedNames(batch, b, changed, i)
    requires Midway(t, work, changed) && Pending(t, work, changed, i)
    ensures PinnedElsewhere(work, changed[i]) <==> PinnedElsewhere(WithoutOutgoing(t, NamesOf(changed)), changed[i])
  {
    var p, base := changed[i], WithoutOutgoing(t, NamesOf(changed));
    forall k: (string, string) | k.1 == p.id.name
      ensures k in work.dependencies <==> k in base.dependencies
      ensures k in base.dependencies ==> work.dependencies[k] == base.dependencies[k]
    {
      assert k == (k.0, k.1);
      if NamedFrom(changed, 0, k.0) {
        var m :| 0 <= m < |changed| && changed[m].id.name == k.0;
        assert changed[m] in changed && k.0 in NamesOf(changed);
        if k in work.dependencies && m < i {
          EdgeFromEarlier(work, batch, b, k);
        } else if m >= i {
          assert Unsaved(t, work, changed[m].id.name);
        }
      } else {
        assert SameEdges(t, work, k.0) && k.0 !in NamesOf(changed);
      }
    }
  }

  lemma ProvidedTwice(batch: seq<Candidate>, b: nat, d: Request, e: Request)
    requires b < |batch| && Provided(batch, b, d) && Provided(batch, b, e) && d.id.name == e.id.name
    requires forall j, k :: 0 <= j < k < |batch| ==> batch[j].id.name != batch[k].id.name
    ensures d.id == e.id
  {
  }

  lemma AllLink(work: Tables, batch: seq<Candidate>, b: nat, now: int)
    requires b < |batch| && Ordered(batch) && AllStanding(work, batch, b) && DistinctDependencies(batch)
    requires forall j, k :: 0 <= j < k < |batch| ==> batch[j].id.name != batch[k].id.name
    ensures forall j :: 0 <= j < |batch[b].dependencies| ==>
      Linkable(WithoutOutgoing(Upserted(work, batch[b], now), {batch[b].id.name}), batch[b], j)
  {
    var p := batch[b];
    var u, s := WithoutOutgoing(Upserted(work, p, now), {p.id.name}), NamesOf(batch[..b]);
    EarlierIsClosed(work, batch, b, now);
    forall j | 0 <= j < |p.dependencies| ensures Linkable(u, p, j) {
      var d := p.dependencies[j];
      DependenciesStand(work, batch, b, now, d);
      if Reaches(Graph(u), d.id.name, p.id.name) {
        ClosedContainsReachable(Graph(u), s, d.id.name, p.id.name);
      }
      forall m | 0 <= m < j ensures p.dependencies[m].id.name != d.id.name {
        assert Provided(batch, b, d) && Provided(batch, b, p.dependencies[m]);
        if p.dependencies[m].id.name == d.id.name {
          ProvidedTwice(batch, b, d, p.dependencies[m]);
        }
      }
    }
  }

  lemma MemberSavesExactly(t: Tables, rt: Runtime, work: Tables, batch: seq<Candidate>, b: nat, changed: seq<Candidate>,
                           i: nat, now: int)
    requires b < |batch| && i < |changed| && changed[i] == batch[b] && VerdictAt(t, rt, batch, b) == Ok(false)
    requires Ordered(batch) && AllStanding(work, batch, b) && SavedNames(batch, b, changed, i)
    requires DistinctDependencies(batch)
    requires forall j, k :: 0 <= j < k < |batch| ==> batch[j].id.name != batch[k].id.name
    requires Midway(t, work, changed) && Pending(t, work, changed, i)
    ensures Saved(work, changed[i], now).Ok? <==> Unopposed(t, changed, i)
  {
    var p := changed[i];
    PinnedByOutsiders(t, work, batch, b, changed, i);
    AllLink(work, batch, b, now);
    SavesExactly(work, p, now);
    assert Unsaved(t, work, changed[i].id.name);
    assert NameFree(work, p.id) && OwnerHolds(work, p);
    assert EndpointsClash(work, p) <==> EndpointsClash(t.(groups := GroupsAt(t, changed, i)), p);
  }

  lemma SavedIsPending(t: Tables, work: Tables, changed: seq<Candidate>, i: nat, now: int)
    requires i < |changed| && DistinctNames(changed) && Pending(t, work, changed, i)
    requires Saved(work, changed[i], now).Ok?
    ensures Pending(t, Saved(work, changed[i], now).value, changed, i + 1)
  {
    var v := Saved(work, changed[i], now).value;
    SaveWritesItsRows(work, changed[i], now);
    SavedEdges(work, changed[i], now);
    forall k {:trigger Unsaved(t, v, changed[k].id.name)} | i + 1 <= k < |changed|
      ensures Unsaved(t, v, changed[k].id.name)
    {
      assert Unsaved(t, work, changed[k].id.name) && changed[k].id.name != changed[i].id.name;
      assert SameEdges(work, v, changed[k].id.name);
    }
  }

  ghost predicate AllExamined(t: Tables, rt: Runtime, batch: seq<Candidate>) {
    forall j {:trigger VerdictAt(t, rt, batch, j)} :: 0 <= j < |batch| ==> VerdictAt(t, rt, batch, j).Ok?
  }

  ghost predicate Ready(t: Tables, rt: Runtime, batch: seq<Candidate>, m: Manifests, changed: seq<Candidate>) {
    && Changed(t, rt, batch, 0) == Ok(changed) && DistinctNames(changed) && AllExamined(t, rt, batch)
    && Follows(t, m) && Genuine(batch, m) && Ordered(batch) && DistinctDependencies(batch)
    && forall j, k :: 0 <= j < k < |batch| ==> batch[j].id.name != batch[k].id.name
  }

  ghost predicate SavingAt(t: Tables, rt: Runtime, batch: seq<Candidate>, changed: seq<Candidate>, work: Tables,
                           b: nat, i: nat) {
    && b <= |batch| && i <= |changed| && Changed(t, rt, batch, b) == Ok(changed[i..])
    && SavedNames(batch, b, changed, i) && Midway(t, work, changed) && Pending(t, work, changed, i)
    && AllStanding(work, batch, b)
  }

  /** The loop stands before batch[b] and before changed[i]. */
  ghost predicate Saving(t: Tables, rt: Runtime, batch: seq<Candidate>, m: Manifests, work: Tables, b: nat, i: nat) {
    && Changed(t, rt, batch, 0).Ok?
    && forall changed {:trigger SavingAt(t, rt, batch, changed, work, b, i)} ::
         Changed(t, rt, batch, 0) == Ok(changed) ==>
           Ready(t, rt, batch, m, changed) && SavingAt(t, rt, batch, changed, work, b, i)
  }

  lemma SavingReused(t: Tables, rt: Runtime, batch: seq<Candidate>, m: Manifests, work: Tables, b: nat, i: nat)
    requires Saving(t, rt, batch, m, work, b, i) && b < |batch| && VerdictAt(t, rt, batch, b) == Ok(true)
    ensures Saving(t, rt, batch, m, work, b + 1, i)
  {
    assert SavingAt(t, rt, batch, Changed(t, rt, batch, 0).value, work, b, i);
    ReusedStands(t, rt, batch, b, work, m);
    NamesGrow(batch, b);
  }

  lemma SavingWritten(t: Tables, rt: Runtime, batch: seq<Candidate>, now: int, m: Manifests, work: Tables, b: nat,
                      i: nat)
    requires Saving(t, rt, batch, m, work, b, i) && b < |batch| && VerdictAt(t, rt, batch, b) == Ok(false)
    ensures i < |Changed(t, rt, batch, 0).value|
    ensures var p := Changed(t, rt, batch, 0).value[i];
      && (Saved(work, p, now).Ok? <==> Unopposed(t, Changed(t, rt, batch, 0).value, i))
      && (Saved(work, p, now).Ok? ==> Saving(t, rt, batch, m, Saved(work, p, now).value, b + 1, i + 1))
  {
    var changed := Changed(t, rt, batch, 0).value;
    assert SavingAt(t, rt, batch, changed, work, b, i);
    NextIsWritten(t, rt, batch, changed, b, i);
    MemberSavesExactly(t, rt, work, batch, b, changed, i, now);
    NamesGrow(batch, b);
    MemberSaves(work, batch, b, now);
    if Saved(work, changed[i], now).Ok? {
      SavedIsMidway(t, work, changed, i, now);
      SavedIsPending(t, work, changed, i, now);
    }
  }

  lemma SavingExamined(t: Tables, rt: Runtime, batch: seq<Candidate>, m: Manifests, work: Tables, b: nat, i: nat)
    requires Saving(t, rt, batch, m, work, b, i)
    ensures b <= |batch| && (b < |batch| ==> VerdictAt(t, rt, batch, b).Ok?)
  {
    assert SavingAt(t, rt, batch, Changed(t, rt, batch, 0).value, work, b, i);
  }

  /** From each point on the rest is registered exactly when nothing opposes it. */
  lemma {:induction false} SavesExactlyUnopposed(t: Tables, rt: Runtime, batch: seq<Candidate>, now: int, m: Manifests,
                                                 work: Tables, b: nat, i: nat)
    requires b <= |batch| && Saving(t, rt, batch, m, work, b, i)
    ensures RestIsExact(t, work, Changed(t, rt, batch, 0).value, now, i)
    decreases |batch| - b
  {
    var changed := Changed(t, rt, batch, 0).value;
    SavingExamined(t, rt, batch, m, work, b, i);
    if b == |batch| {
      NothingLeft(t, rt, batch, now, m, work, i);
    } else if VerdictAt(t, rt, batch, b).value {
      SavingReused(t, rt, batch, m, work, b, i);
      SavesExactlyUnopposed(t, rt, batch, now, m, work, b + 1, i);
    } else {
      SavingWritten(t, rt, batch, now, m, work, b, i);
      var one := Saved(work, changed[i], now);
      if one.Ok? {
        SavesExactlyUnopposed(t, rt, batch, now, m, one.value, b + 1, i + 1);
      }
      OneMoreIsExact(t, work, changed, now, i);
    }
  }

  ghost predicate RestIsExact(t: Tables, work: Tables, changed: seq<Candidate>, now: int, i: nat) {
    i <= |changed| && (SavedAll(work, changed, now, i).Ok? <==> AllUnopposed(t, changed, i))
  }

  lemma NothingLeft(t: Tables, rt: Runtime, batch: seq<Candidate>, now: int, m: Manifests, work: Tables, i: nat)
    requires Saving(t, rt, batch, m, work, |batch|, i)
    ensures RestIsExact(t, work, Changed(t, rt, batch, 0).value, now, i)
  {
    assert SavingAt(t, rt, batch, Changed(t, rt, batch, 0).value, work, |batch|, i);
    assert Changed(t, rt, batch, 0).value[i..] == [];
  }

  lemma OneMoreIsExact(t: Tables, work: Tables, changed: seq<Candidate>, now: int, i: nat)
    requires i < |changed| && (Saved(work, changed[i], now).Ok? <==> Unopposed(t, changed, i))
    requires Saved(work, changed[i], now).Ok? ==>
      RestIsExact(t, Saved(work, changed[i], now).value, changed, now, i + 1)
    ensures RestIsExact(t, work, changed, now, i)
  {
  }

  lemma SavingStarts(t: Tables, rt: Runtime, batch: seq<Candidate>)
    requires Changed(t, rt, batch, 0).Ok?
    ensures var changed := Changed(t, rt, batch, 0).value;
      SavingAt(t, rt, batch, changed, WithoutOutgoing(t, NamesOf(changed)), 0, 0)
  {
    var changed := Changed(t, rt, batch, 0).value;
    var base := WithoutOutgoing(t, NamesOf(changed));
    assert changed[0..] == changed;
    forall name {:trigger NamedFrom(changed, 0, name)} | !NamedFrom(changed, 0, name) ensures SameEdges(t, base, name) {
      assert name !in NamesOf(changed);
      DroppedEdges(t, NamesOf(changed), name);
    }
    forall k {:trigger Unsaved(t, base, changed[k].id.name)} | 0 <= k < |changed|
      ensures Unsaved(t, base, changed[k].id.name)
    {
      assert changed[k] in changed && changed[k].id.name in NamesOf(changed);
    }
  }

  lemma DistinctMembers(t: Tables, rt: Runtime, batch: seq<Candidate>, j: nat, k: nat)
    requires Changed(t, rt, batch, 0).Ok? && j < k < |batch|
    ensures batch[j].id.name != batch[k].id.name
  {
    ChangedVerdicts(t, rt, batch, 0);
    assert VerdictAt(t, rt, batch, k).Ok?;
    assert batch[j] in batch[..k];
  }

  /** An ordered genuine batch is accepted exactly when every member is examined without a refusal, and no
      pin or endpoint outside stands against one. */
  lemma OrderedInstallsExactly(t: Tables, rt: Runtime, batch: seq<Candidate>, now: int, m: Manifests)
    requires 0 < |batch| <= MAX_BATCH
    requires Follows(t, m) && Genuine(batch, m) && Ordered(batch) && DistinctDependencies(batch)
    ensures Installed(t, rt, batch, now).Ok? <==>
      Changed(t, rt, batch, 0).Ok? && AllUnopposed(t, Changed(t, rt, batch, 0).value, 0)
  {
    if Changed(t, rt, batch, 0).Ok? {
      var changed := Changed(t, rt, batch, 0).value;
      ChangedDistinct(t, rt, batch, 0);
      ChangedVerdicts(t, rt, batch, 0);
      forall j, k | 0 <= j < k < |batch| ensures batch[j].id.name != batch[k].id.name {
        DistinctMembers(t, rt, batch, j, k);
      }
      SavingStarts(t, rt, batch);
      SavesExactlyUnopposed(t, rt, batch, now, m, WithoutOutgoing(t, NamesOf(changed)), 0, 0);
    }
  }

  /** A manifest names no package twice. */
  lemma ClosureIsDistinct(store: map<Request, Store.Release>, installed: map<string, Store.Installed>,
                          closure: seq<Store.Resource>, ordered: seq<Store.Resource>, batch: seq<Candidate>)
    requires Store.FromStore(store, installed, closure) && multiset(ordered) == multiset(closure)
    requires Represents(batch, ordered)
    ensures DistinctDependencies(batch) && |batch| == |closure|
  {
    Store.SameMembersSameGraph(closure, ordered);
    assert |ordered| == |multiset(ordered)| == |multiset(closure)| == |closure|;
    forall i | 0 <= i < |batch|
      ensures forall j, k :: 0 <= j < k < |batch[i].dependencies| ==>
        batch[i].dependencies[j].id != batch[i].dependencies[k].id
    {
      assert IsRelease(batch[i], ordered[i].release) && ordered[i] in ordered && ordered[i] in closure;
      var n :| 0 <= n < |closure| && closure[n] == ordered[i];
      assert Store.MemberOfStore(store, installed, closure[n]);
    }
  }

  /** Resolve, order, install: over every run of genuine installs and removals, a closure that was
      resolved and ordered is accepted exactly when every member is examined without a refusal and no pin
      or endpoint outside stands against one, and is never refused for a missing dependency or a cycle. */
  lemma ResolvedInstalls(store: map<Request, Store.Release>, installed: map<string, Store.Installed>, root: Request,
                         closure: seq<Store.Resource>, ordered: seq<Store.Resource>, batch: seq<Candidate>,
                         ops: seq<Operation>, rt: Runtime, now: int, m: Manifests)
    requires Store.IsClosure(store, root, Store.Requests(closure)) && Store.FromStore(store, installed, closure)
    requires Store.DistinctNames(closure) && 0 < |closure| <= Store.MAX_PACKAGES
    requires multiset(ordered) == multiset(closure) && Store.DependenciesFirst(ordered)
    requires Represents(batch, ordered) && Genuine(batch, m) && GenuineRun(ops, m)
    ensures var t := Run(EMPTY, ops); var r := Installed(t, rt, batch, now);
      && (r.Ok? <==> Changed(t, rt, batch, 0).Ok? && AllUnopposed(t, Changed(t, rt, batch, 0).value, 0))
      && (r.Err? ==> !DependencyError(r.error))
  {
    RunsStayConsistent([]);
    forall name {:trigger RowFollows(EMPTY, m, name)} ensures RowFollows(EMPTY, m, name) {
    }
    RunsFollow(EMPTY, ops, m);
    ClosureIsOrdered(store, installed, root, closure, ordered, batch);
    ClosureIsDistinct(store, installed, closure, ordered, batch);
    OrderedNeverMisses(Run(EMPTY, ops), rt, batch, now, m);
    OrderedInstallsExactly(Run(EMPTY, ops), rt, batch, now, m);
  }
}
