/** The runtime maps of one identity, kept in step with its registry. */
module Sandbox {
  import opened Wrappers
  import opened Identity
  import opened Registration
  import opened Installation
  import opened Recovery
  import opened Switching
  import opened SwitchRuns
  import opened Staging

  datatype Refusal = Denied | IdentityChanged | Failed | Refused(error: Registration.Error)

  ghost predicate Registered(t: Tables, id: PackageId) {
    id.name in t.packages && RowId(id.name, t.packages[id.name]) == id
  }

  ghost predicate MirroredAt(t: Tables, rt: Runtime, id: PackageId) {
    && (id in rt.libs <==> Registered(t, id) && t.packages[id.name].hasLib)
    && (id in rt.libs ==> rt.libs[id] == t.packages[id.name].version)
    && (id in rt.apps <==> Registered(t, id) && t.packages[id.name].hasApp)
    && (id in rt.apps ==> rt.apps[id] == t.packages[id.name].version)
  }

  /** The loaded Libs and Apps are exactly the registered ones, each at its registered version. */
  ghost predicate Mirrors(t: Tables, rt: Runtime) {
    forall id :: MirroredAt(t, rt, id)
  }

  function Ids(changed: seq<Candidate>): set<PackageId> {
    set p | p in changed :: IdOf(p.id)
  }

  /** The maps after a batch: its members leave, then its loaded parts enter. */
  ghost predicate Replaced(rt: Runtime, changed: seq<Candidate>, after: Runtime) {
    && (forall id :: id !in Ids(changed) ==> SameAt(rt, after, id))
    && (forall i :: 0 <= i < |changed| ==> Loads(changed[i], after))
  }

  ghost predicate SameAt(rt: Runtime, after: Runtime, id: PackageId) {
    && (id in after.libs <==> id in rt.libs) && (id in after.libs ==> after.libs[id] == rt.libs[id])
    && (id in after.apps <==> id in rt.apps) && (id in after.apps ==> after.apps[id] == rt.apps[id])
  }

  ghost predicate Loads(p: Candidate, rt: Runtime) {
    && (IdOf(p.id) in rt.libs <==> p.hasLib) && (p.hasLib ==> rt.libs[IdOf(p.id)] == p.version)
    && (IdOf(p.id) in rt.apps <==> p.hasApp) && (p.hasApp ==> rt.apps[IdOf(p.id)] == p.version)
  }

  /** An installed batch keeps the mirror, including members it reused without loading. It relies
      on the registry never changing the author of an installed name. */
  lemma InstallKeepsMirror(t: Tables, rt: Runtime, batch: seq<Candidate>, now: int, after: Runtime)
    requires Consistent(t) && Mirrors(t, rt) && Installed(t, rt, batch, now).Ok?
    requires Replaced(rt, Installed(t, rt, batch, now).value.changed, after)
    ensures Mirrors(Installed(t, rt, batch, now).value.tables, after)
  {
    var o := Installed(t, rt, batch, now).value;
    var u := o.tables;
    InstallKeepsConsistent(t, rt, batch, now);
    forall id ensures MirroredAt(u, after, id) {
      if NamedFrom(o.changed, 0, id.name) {
        var k :| 0 <= k < |o.changed| && o.changed[k].id.name == id.name;
        MemberMirror(t, rt, batch, now, after, k, id);
      } else {
        UnwrittenMirror(t, rt, u, o.changed, after, id);
      }
    }
  }

  lemma MemberMirror(t: Tables, rt: Runtime, batch: seq<Candidate>, now: int, after: Runtime, k: nat, id: PackageId)
    requires Consistent(t) && Mirrors(t, rt) && Installed(t, rt, batch, now).Ok?
    requires Replaced(rt, Installed(t, rt, batch, now).value.changed, after)
    requires k < |Installed(t, rt, batch, now).value.changed|
      && Installed(t, rt, batch, now).value.changed[k].id.name == id.name
    ensures MirroredAt(Installed(t, rt, batch, now).value.tables, after, id)
  {
    var o := Installed(t, rt, batch, now).value;
    ChangedIsNonempty(t, rt, batch, now);
    DroppingKeepsConsistent(t, NamesOf(o.changed));
    WrittenRow(WithoutOutgoing(t, NamesOf(o.changed)), o.changed, now, 0, k);
    WrittenMirror(t, rt, batch, now, after, k, id);
  }

  lemma UnwrittenMirror(t: Tables, rt: Runtime, u: Tables, changed: seq<Candidate>, after: Runtime, id: PackageId)
    requires Mirrors(t, rt) && RewritesOnly(t, u, changed, 0) && Replaced(rt, changed, after)
    requires !NamedFrom(changed, 0, id.name)
    ensures MirroredAt(u, after, id)
  {
    assert id !in Ids(changed) by {
      forall p | p in changed ensures IdOf(p.id) != id {
        var k :| 0 <= k < |changed| && changed[k] == p;
      }
    }
    assert MirroredAt(t, rt, id) && SameAt(rt, after, id);
  }

  lemma WrittenMirror(t: Tables, rt: Runtime, batch: seq<Candidate>, now: int, after: Runtime, k: nat, id: PackageId)
    requires Consistent(t) && Mirrors(t, rt) && Installed(t, rt, batch, now).Ok?
    requires var o := Installed(t, rt, batch, now).value;
      && Replaced(rt, o.changed, after) && k < |o.changed| && o.changed[k].id.name == id.name
      && DistinctNames(o.changed)
      && id.name in o.tables.packages
      && o.tables.packages[id.name] == NewRow(WithoutOutgoing(t, NamesOf(o.changed)), o.changed[k], now)
    ensures MirroredAt(Installed(t, rt, batch, now).value.tables, after, id)
  {
    var o := Installed(t, rt, batch, now).value;
    var p := o.changed[k];
    assert Loads(p, after);
    if IdOf(p.id) != id {
      assert id !in Ids(o.changed) by {
        forall q | q in o.changed ensures IdOf(q.id) != id {
          var m :| 0 <= m < |o.changed| && o.changed[m] == q;
        }
      }
      assert MirroredAt(t, rt, id) && SameAt(rt, after, id);
      ChangedVerdicts(t, rt, batch, 0);
      assert WrittenFrom(t, rt, batch, 0, p);
      assert NameFree(t, p.id);
      assert !Registered(t, id);
    }
  }

  lemma RemoveKeepsMirror(t: Tables, rt: Runtime, id: PackageId)
    requires Mirrors(t, rt) && Registered(t, id) && Removed(t, id).Ok?
    ensures Mirrors(Removed(t, id).value, Runtime(rt.libs - {id}, rt.apps - {id}))
  {
    var u, after := Removed(t, id).value, Runtime(rt.libs - {id}, rt.apps - {id});
    forall other ensures MirroredAt(u, after, other) {
      assert MirroredAt(t, rt, other);
    }
  }

  // ------------------------------------------------------------ loading at startup

  /** What startup reads: every registered Lib with the version its file carries, every registered App
      whose directory is there. */
  ghost predicate LoadedFrom(t: Tables, disk: Disk, rt: Runtime) {
    forall id {:trigger ReadAt(t, disk, rt, id)} :: ReadAt(t, disk, rt, id)
  }

  ghost predicate ReadAt(t: Tables, disk: Disk, rt: Runtime, id: PackageId) {
    && (id in rt.libs <==> Registered(t, id) && t.packages[id.name].hasLib)
    && (id in rt.libs ==> LibFileHas(disk, id, rt.libs[id]))
    && (id in rt.apps <==> Registered(t, id) && t.packages[id.name].hasApp)
    && (id in rt.apps ==> CommitTarget(id, App) in disk && rt.apps[id] == t.packages[id.name].version)
  }

  predicate LibFileHas(disk: Disk, id: PackageId, version: string) {
    var path := CommitTarget(id, Lib);
    path in disk && disk[path].Payload? && disk[path].version == version
  }

  /** A disk that holds the registry loads into a mirror of it. */
  lemma HeldLoadsMirror(t: Tables, disk: Disk, rt: Runtime)
    requires Holds(t, disk) && LoadedFrom(t, disk, rt)
    ensures Mirrors(t, rt)
  {
    forall id ensures MirroredAt(t, rt, id) {
      assert ReadAt(t, disk, rt, id);
      if id in rt.libs {
        assert PartHeld(t, disk, id.name, Lib);
        assert PartOf(t, id.name, Lib).Some? && PartPath(t, id.name, Lib) == CommitTarget(id, Lib);
      }
    }
  }

  // ------------------------------------------------------------ one operation

  /** Registry, disk and maps agree. */
  ghost predicate Agree(db: Tables, disk: Disk, rt: Runtime) {
    Consistent(db) && ValidNames(db) && Holds(db, disk) && Mirrors(db, rt)
  }

  /** What recovery needs of a batch: some member's facts tell the registries apart. */
  ghost predicate Tells(db: Tables, rt: Runtime, batch: seq<Candidate>, now: int) {
    forall o {:trigger Told(db, o)} :: Installed(db, rt, batch, now) == Ok(o) ==> Told(db, o)
  }

  ghost predicate Told(db: Tables, o: Installation.Outcome) {
    Distinguishes(PlanOf(db, o.tables, MembersOf(o.changed)))
  }

  /** The batch is accepted, and these are the registry and the maps it leaves. */
  ghost predicate Lands(db: Tables, rt: Runtime, batch: seq<Candidate>, now: int, u: Tables, after: Runtime) {
    var o := Installed(db, rt, batch, now);
    o.Ok? && u == o.value.tables && Replaced(rt, o.value.changed, after)
  }

  lemma InstallAgrees(db: Tables, disk: Disk, rt: Runtime, batch: seq<Candidate>, now: int, d: Disk, after: Runtime)
    requires Agree(db, disk, rt) && Installed(db, rt, batch, now).Ok?
    requires Holds(Installed(db, rt, batch, now).value.tables, d)
    requires Replaced(rt, Installed(db, rt, batch, now).value.changed, after)
    ensures Agree(Installed(db, rt, batch, now).value.tables, d, after)
  {
    InstallKeepsConsistent(db, rt, batch, now);
    InstallIsPlanned(db, rt, batch, now);
    InstallKeepsMirror(db, rt, batch, now, after);
  }

  lemma InstallIsReady(db: Tables, disk: Disk, rt: Runtime, batch: seq<Candidate>, now: int)
    requires Agree(db, disk, rt) && Tells(db, rt, batch, now) && Installed(db, rt, batch, now).Ok?
    ensures var o := Installed(db, rt, batch, now).value;
      Ready(disk, PlanOf(db, o.tables, MembersOf(o.changed))) && DistinctNames(o.changed)
  {
    InstallIsPlanned(db, rt, batch, now);
    ChangedIsNonempty(db, rt, batch, now);
    assert Told(db, Installed(db, rt, batch, now).value);
  }

  lemma RemovalIsReady(db: Tables, disk: Disk, id: PackageId)
    requires ValidNames(db) && Holds(db, disk) && Registered(db, id) && Removed(db, id).Ok?
    ensures Ready(disk, PlanOf(db, Removed(db, id).value, [Member(id, "")]))
  {
    RemovalIsPlanned(db, id);
  }

  lemma RemovalAgrees(db: Tables, disk: Disk, rt: Runtime, id: PackageId, d: Disk)
    requires Agree(db, disk, rt) && Registered(db, id) && Removed(db, id).Ok? && Holds(Removed(db, id).value, d)
    ensures Agree(Removed(db, id).value, d, Runtime(rt.libs - {id}, rt.apps - {id}))
  {
    RemoveKeepsConsistent(db, id);
    RemovalIsPlanned(db, id);
    RemoveKeepsMirror(db, rt, id);
  }

  /** The transaction, the staging, which also compiles the Libs and may fail, the file switch with its
      commit, and the publication in the maps. */
  method InstallOn(db: Tables, disk: Disk, rt: Runtime, batch: seq<Candidate>, now: int, staged: bool, reliable: bool)
    returns (r: Result<Tables, Refusal>, files: Disk, after: Runtime, ghost damaged: bool)
    requires Agree(db, disk, rt) && Tells(db, rt, batch, now)
    ensures r.Ok? ==> staged && !damaged && Lands(db, rt, batch, now, r.value, after)
    ensures r.Ok? ==> Agree(r.value, files, after)
    ensures r.Err? ==> after == rt && (damaged || files == disk)
    ensures reliable ==> !damaged && (r.Ok? <==> staged && Installed(db, rt, batch, now).Ok?)
  {
    files, after, damaged := disk, rt, false;
    var o := InstallTransaction(db, rt, batch, now);
    if o.Err? {
      return Err(Refused(o.error)), files, after, false;
    }
    if !staged {
      return Err(Failed), files, after, false;
    }
    InstallIsReady(db, disk, rt, batch, now);
    var committed;
    committed, files, damaged := SwitchFiles(disk, PlanOf(db, o.value.tables, MembersOf(o.value.changed)), reliable);
    if !committed {
      return Err(Failed), files, after, damaged;
    }
    after := Publish(rt, o.value.changed);
    InstallAgrees(db, disk, rt, batch, now, files, after);
    r := Ok(o.value.tables);
  }

  /** Switch the files of a planned operation and commit it, from what the disk holds now. */
  method SwitchFiles(disk: Disk, plan: Plan, reliable: bool) returns (committed: bool, files: Disk, ghost damaged: bool)
    requires Ready(disk, plan)
    ensures committed ==> !damaged && Holds(plan.after, files)
    ensures !committed ==> damaged || files == disk
    ensures reliable ==> committed
  {
    ghost var missed;
    var o;
    o, files, missed := SwitchOnDisk(disk, plan, reliable);
    committed := o.Committed?;
    damaged := o.RollbackFailed? || (o.RolledBack? && missed != {});
  }

  /** The removal of a registered package: the transaction, the file switch with its commit, the maps. */
  method RemoveOn(db: Tables, disk: Disk, rt: Runtime, id: PackageId, reliable: bool)
    returns (r: Result<Tables, Refusal>, files: Disk, after: Runtime, ghost damaged: bool)
    requires Agree(db, disk, rt) && Registered(db, id)
    ensures r.Ok? ==> Removed(db, id) == Ok(r.value) && after == Runtime(rt.libs - {id}, rt.apps - {id}) && !damaged
    ensures r.Ok? ==> Agree(r.value, files, after)
    ensures r.Err? ==> after == rt && (damaged || files == disk)
    ensures reliable ==> !damaged && (r.Ok? <==> Removed(db, id).Ok?)
  {
    files, after, damaged := disk, rt, false;
    var o := Removed(db, id);
    if o.Err? {
      return Err(Refused(o.error)), files, after, false;
    }
    RemovalIsReady(db, disk, id);
    var committed;
    committed, files, damaged := SwitchFiles(disk, PlanOf(db, o.value, [Member(id, "")]), reliable);
    if !committed {
      return Err(Failed), files, after, damaged;
    }
    RemovalAgrees(db, disk, rt, id, files);
    after := Runtime(rt.libs - {id}, rt.apps - {id});
    r := Ok(o.value);
  }

  // ------------------------------------------------------------ the service

  class Service {
    var tables: Tables
    var libs: map<PackageId, string>
    var apps: map<PackageId, string>
    var closed: bool
    var disk: Disk
    /** Whether the last operation could not put the old files back. */
    ghost var damaged: bool

    ghost predicate Valid()
      reads this
    {
      && Consistent(tables) && ValidNames(tables)
      && (!closed ==> Mirrors(tables, Runtime(libs, apps)))
      && (!damaged ==> Holds(tables, disk))
    }

    /** Install a batch under the write lock. The disk always holds the registry afterwards, unless the
        old files could not be put back. */
    method InstallPackages(batch: seq<Candidate>, now: int, staged: bool, reliable: bool)
      returns (r: Result<(), Refusal>)
      requires Valid() && !damaged && Tells(tables, Runtime(libs, apps), batch, now)
      modifies this
      ensures Valid() && closed == old(closed)
      ensures r.Err? ==> tables == old(tables) && libs == old(libs) && apps == old(apps)
      ensures r.Err? && !damaged ==> disk == old(disk)
      ensures r.Ok? ==> !old(closed) && staged && !damaged
      ensures r.Ok? ==> Lands(old(tables), Runtime(old(libs), old(apps)), batch, now, tables, Runtime(libs, apps))
      ensures reliable ==> !damaged
      ensures reliable ==>
        (r.Ok? <==> !old(closed) && staged && Installed(old(tables), Runtime(old(libs), old(apps)), batch, now).Ok?)
    {
      if closed {
        return Err(Denied);
      }
      var o, d, after;
      ghost var lost;
      o, d, after, lost := InstallOn(tables, disk, Runtime(libs, apps), batch, now, staged, reliable);
      disk, damaged := d, lost;
      if o.Err? {
        return Err(o.error);
      }
      tables, libs, apps := o.value, after.libs, after.apps;
      r := Ok(());
    }

    /** Remove one package by its local short name. */
    method RemovePackage(name: string, expected: Option<PackageId>, reliable: bool) returns (r: Result<(), Refusal>)
      requires Valid() && !damaged
      modifies this
      ensures Valid() && closed == old(closed)
      ensures r.Err? || name !in old(tables).packages ==>
        tables == old(tables) && libs == old(libs) && apps == old(apps)
      ensures (r.Err? && !damaged) || name !in old(tables).packages ==> disk == old(disk)
      ensures name in old(tables).packages && r.Ok? ==>
        var id := RowId(name, old(tables).packages[name]);
        && (expected.Some? ==> expected == Some(id)) && !damaged
        && Removed(old(tables), id) == Ok(tables) && libs == old(libs) - {id} && apps == old(apps) - {id}
      ensures reliable && name in old(tables).packages && !old(closed) ==>
        var id := RowId(name, old(tables).packages[name]);
        (r.Ok? <==> (expected.Some? ==> expected == Some(id)) && Removed(old(tables), id).Ok?)
    {
      var registered := if name in tables.packages then Some(RowId(name, tables.packages[name])) else None;
      if expected.Some? && registered != expected {
        return Err(IdentityChanged);
      }
      if closed {
        return Err(Denied);
      }
      if registered.None? {
        return Ok(());
      }
      var o, d, after;
      ghost var lost;
      o, d, after, lost := RemoveOn(tables, disk, Runtime(libs, apps), registered.value, reliable);
      disk, damaged := d, lost;
      if o.Err? {
        return Err(o.error);
      }
      tables, libs, apps := o.value, after.libs, after.apps;
      r := Ok(());
    }

    /** Startup: select registered identities, then read each part once. Reading or compiling one may
        fail, which leaves nothing loaded. */
    method LoadLibs(reliable: bool) returns (ok: bool)
      requires Valid() && !closed
      modifies `libs, `apps
      ensures !ok ==> libs == old(libs) && apps == old(apps)
      ensures ok ==> LoadedFrom(tables, disk, Runtime(libs, apps))
      ensures ok && Holds(tables, disk) ==> Mirrors(tables, Runtime(libs, apps))
      ensures reliable && Holds(tables, disk) ==> ok
    {
      var candidates, apps' := map[], map[];
      var rest := tables.packages.Keys;
      while rest != {}
        invariant rest <= tables.packages.Keys
        invariant forall id :: id in candidates <==>
          Registered(tables, id) && id.name !in rest && tables.packages[id.name].hasLib
        invariant forall id :: id in candidates ==> LibFileHas(disk, id, candidates[id])
        invariant forall id :: id in apps' <==>
          Registered(tables, id) && id.name !in rest && tables.packages[id.name].hasApp
        invariant forall id :: id in apps' ==>
          CommitTarget(id, App) in disk && apps'[id] == tables.packages[id.name].version
        decreases rest
      {
        var name :| name in rest;
        var row := tables.packages[name];
        var id := RowId(name, row);
        assert Registered(tables, id);
        assert Holds(tables, disk) ==> PartHeld(tables, disk, name, Lib) && PartHeld(tables, disk, name, App);
        assert PartOf(tables, name, Lib).Some? <==> row.hasLib;
        assert PartOf(tables, name, App).Some? <==> row.hasApp;
        var readable := *;
        if !readable && !reliable { return false; }
        if row.hasLib {
          var path := CommitTarget(id, Lib);
          if path !in disk || !disk[path].Payload? { return false; }
          candidates := candidates[id := disk[path].version];
        }
        if row.hasApp {
          if CommitTarget(id, App) !in disk { return false; }
          apps' := apps'[id := row.version];
        }
        rest := rest - {name};
      }
      libs, apps := candidates, apps';
      ok := true;
      forall id {:trigger ReadAt(tables, disk, Runtime(libs, apps), id)}
        ensures ReadAt(tables, disk, Runtime(libs, apps), id)
      {
      }
      if Holds(tables, disk) {
        HeldLoadsMirror(tables, disk, Runtime(libs, apps));
      }
    }

    method Close()
      requires Valid()
      modifies this
      ensures Valid() && closed && libs == map[] && apps == map[] && tables == old(tables)
    {
      closed, libs, apps := true, map[], map[];
    }
  }

  /** Drop the members of a batch from the maps. */
  method DropMembers(rt: Runtime, changed: seq<Candidate>) returns (rest: Runtime)
    ensures rest == Runtime(rt.libs - Ids(changed), rt.apps - Ids(changed))
  {
    var libs, apps := rt.libs, rt.apps;
    for i := 0 to |changed|
      invariant libs == rt.libs - Ids(changed[..i]) && apps == rt.apps - Ids(changed[..i])
    {
      IdsGrow(changed, i);
      libs, apps := libs - {IdOf(changed[i].id)}, apps - {IdOf(changed[i].id)};
    }
    assert changed[..|changed|] == changed;
    rest := Runtime(libs, apps);
  }

  lemma IdsGrow(changed: seq<Candidate>, i: nat)
    requires i < |changed|
    ensures Ids(changed[..i + 1]) == Ids(changed[..i]) + {IdOf(changed[i].id)}
  {
    assert changed[..i + 1] == changed[..i] + [changed[i]];
  }

  /** The maps with the first n members' loaded parts entered. */
  ghost predicate Entered(rest: Runtime, changed: seq<Candidate>, n: nat, rt: Runtime)
    requires n <= |changed|
  {
    && (forall id {:trigger SameAt(rest, rt, id)} :: id !in Ids(changed) ==> SameAt(rest, rt, id))
    && (forall k :: 0 <= k < n ==> Loads(changed[k], rt))
    && (forall k :: n <= k < |changed| ==> IdOf(changed[k].id) !in rt.libs && IdOf(changed[k].id) !in rt.apps)
  }

  function Enter(rt: Runtime, p: Candidate): Runtime {
    Runtime(if p.hasLib then rt.libs[IdOf(p.id) := p.version] else rt.libs,
            if p.hasApp then rt.apps[IdOf(p.id) := p.version] else rt.apps)
  }

  lemma EnterOne(rest: Runtime, changed: seq<Candidate>, n: nat, rt: Runtime)
    requires DistinctNames(changed) && n < |changed| && Entered(rest, changed, n, rt)
    ensures Entered(rest, changed, n + 1, Enter(rt, changed[n]))
  {
    var p := changed[n];
    var after := Enter(rt, p);
    assert p in changed && IdOf(p.id) in Ids(changed);
    forall id {:trigger SameAt(rest, after, id)} | id !in Ids(changed) ensures SameAt(rest, after, id) {
      assert SameAt(rest, rt, id);
    }
    assert forall k :: 0 <= k < |changed| && k != n ==> IdOf(changed[k].id) != IdOf(p.id);
  }

  /** Drop the members of a batch from the maps, then extend them with what was loaded. */
  method Publish(rt: Runtime, changed: seq<Candidate>) returns (after: Runtime)
    requires DistinctNames(changed)
    ensures Replaced(rt, changed, after)
  {
    after := DropMembers(rt, changed);
    ghost var rest := after;
    assert forall k :: 0 <= k < |changed| ==> changed[k] in changed && IdOf(changed[k].id) in Ids(changed);
    for i := 0 to |changed|
      invariant Entered(rest, changed, i, after)
    {
      EnterOne(rest, changed, i, after);
      after := Enter(after, changed[i]);
    }
    forall id | id !in Ids(changed) ensures SameAt(rt, after, id) {
      assert SameAt(rest, after, id);
    }
  }
}
