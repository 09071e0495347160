/** From a registry transaction to the files it switches: the targets of a batch are the parts of its
    rows before and after, and what the disk holds follows the registry. */
module Staging {
  import opened Wrappers
  import opened Identity
  import opened Registration
  import opened Installation
  import opened Facts
  import opened Recovery
  import opened Switching
  import opened SwitchRuns

  /** The package files of one identity, by path. */
  type Disk = map<string, Payload>

  predicate HasPart(row: Row, kind: Kind) {
    if kind == Lib then row.hasLib else row.hasApp
  }

  /** What the registry says one part of a package holds. */
  function PartOf(t: Tables, name: string, kind: Kind): Option<Payload> {
    if name in t.packages && HasPart(t.packages[name], kind)
    then Some(Payload(t.packages[name].version, t.packages[name].sha))
    else None
  }

  function PartPath(t: Tables, name: string, kind: Kind): string
    requires name in t.packages
  {
    CommitTarget(RowId(name, t.packages[name]), kind)
  }

  function Lookup(disk: Disk, path: string): Option<Payload> {
    if path in disk then Some(disk[path]) else None
  }

  /** A path that a registered part stands at. */
  ghost predicate IsPartPath(t: Tables, path: string) {
    exists name, kind :: PartStandsAt(t, name, kind, path)
  }

  ghost predicate PartStandsAt(t: Tables, name: string, kind: Kind, path: string) {
    PartOf(t, name, kind).Some? && path == PartPath(t, name, kind)
  }

  /** The disk holds exactly the registered parts, each from its registered release. */
  ghost predicate Holds(t: Tables, disk: Disk) {
    && (forall name, kind {:trigger PartHeld(t, disk, name, kind)} :: PartHeld(t, disk, name, kind))
    && (forall path {:trigger PathKnown(t, disk, path)} :: PathKnown(t, disk, path))
  }

  ghost predicate PartHeld(t: Tables, disk: Disk, name: string, kind: Kind) {
    PartOf(t, name, kind).Some? ==> Lookup(disk, PartPath(t, name, kind)) == PartOf(t, name, kind)
  }

  ghost predicate PathKnown(t: Tables, disk: Disk, path: string) {
    path in disk ==> IsPartPath(t, path)
  }

  ghost predicate ValidNames(t: Tables) {
    forall name :: name in t.packages ==> ValidName(name)
  }

  /** For an identity that is registered, or whose name is free, the disk has what the registry says. */
  lemma HeldAt(t: Tables, disk: Disk, id: PackageId, kind: Kind)
    requires Holds(t, disk) && ValidNames(t) && ValidName(id.name)
    requires id.name in t.packages ==> RowId(id.name, t.packages[id.name]) == id
    ensures Lookup(disk, CommitTarget(id, kind)) == PartOf(t, id.name, kind)
  {
    var path := CommitTarget(id, kind);
    assert PartHeld(t, disk, id.name, kind) && PathKnown(t, disk, path);
    if PartOf(t, id.name, kind).None? && path in disk {
      assert IsPartPath(t, path);
      var name, k :| PartStandsAt(t, name, k, path);
      if name != id.name || k != kind {
        TargetsAreDistinct(RowId(name, t.packages[name]), k, id, kind);
      }
    }
  }

  // ------------------------------------------------------------ the plan of a batch

  function UnitOf(before: Tables, after: Tables, name: string, kind: Kind): Unit {
    Unit(PartOf(before, name, kind), PartOf(after, name, kind))
  }

  function KindAt(u: nat): Kind {
    if u % 2 == 0 then Lib else App
  }

  /** The switch a transaction asks for: for each member its two parts, before and after. */
  function PlanOf(before: Tables, after: Tables, members: seq<Member>): (plan: Plan)
    ensures plan.members == members && |plan.units| == 2 * |members| && plan.before == before && plan.after == after
    ensures forall u: nat :: u < 2 * |members| ==>
      plan.units[u] == UnitOf(before, after, members[u / 2].id.name, KindAt(u))
  {
    Plan(members,
         seq(2 * |members|, u requires 0 <= u < 2 * |members| =>
           UnitOf(before, after, members[u / 2].id.name, KindAt(u))),
         before, after)
  }

  /** The members of an installed batch, each with the staging directory named after it. */
  function MembersOf(changed: seq<Candidate>): (r: seq<Member>)
    ensures |r| == |changed|
    ensures forall i :: 0 <= i < |changed| ==> r[i] == Member(IdOf(changed[i].id), changed[i].id.name)
  {
    seq(|changed|, i requires 0 <= i < |changed| => Member(IdOf(changed[i].id), changed[i].id.name))
  }

  /** Nothing but the members' rows differs, and a member's row is always its own. */
  ghost predicate OnlyMembersChange(before: Tables, after: Tables, members: seq<Member>) {
    && (forall m {:trigger OwnRows(before, after, m)} :: m in members ==> OwnRows(before, after, m))
    && (forall name {:trigger IsMember(members, name)} :: !IsMember(members, name) ==> SameRow(before, after, name))
  }

  ghost predicate OwnRows(before: Tables, after: Tables, m: Member) {
    OwnRow(before, m) && OwnRow(after, m)
  }

  ghost predicate OwnRow(t: Tables, m: Member) {
    m.id.name in t.packages ==> RowId(m.id.name, t.packages[m.id.name]) == m.id
  }

  ghost predicate SameRow(t: Tables, u: Tables, name: string) {
    (name in t.packages <==> name in u.packages) && (name in t.packages ==> u.packages[name] == t.packages[name])
  }

  ghost predicate IsMember(members: seq<Member>, name: string) {
    exists i :: 0 <= i < |members| && members[i].id.name == name
  }

  lemma InstallIsPlanned(t: Tables, rt: Runtime, batch: seq<Candidate>, now: int)
    requires Consistent(t) && ValidNames(t) && Installed(t, rt, batch, now).Ok?
    ensures var o := Installed(t, rt, batch, now).value; var plan := PlanOf(t, o.tables, MembersOf(o.changed));
      WellFormed(plan) && OnlyMembersChange(t, o.tables, plan.members) && ValidNames(o.tables)
  {
    var o := Installed(t, rt, batch, now).value;
    var plan := PlanOf(t, o.tables, MembersOf(o.changed));
    InstallKeepsConsistent(t, rt, batch, now);
    ChangedIsNonempty(t, rt, batch, now);
    AllWritten(t, rt, batch, now);
    forall i: nat {:trigger MemberOk(plan, i)} | i < |plan.members| ensures MemberOk(plan, i) {
      WrittenIsChecked(t, rt, batch, now, o.changed[i]);
    }
    forall m {:trigger OwnRows(t, o.tables, m)} | m in plan.members ensures OwnRows(t, o.tables, m) {
      var i :| 0 <= i < |plan.members| && plan.members[i] == m;
      MemberOwnsRow(t, rt, batch, now, i);
    }
    forall name {:trigger IsMember(plan.members, name)} | !IsMember(plan.members, name)
      ensures SameRow(t, o.tables, name)
    {
      MembersAreNamed(o.changed, name);
    }
    forall name | name in o.tables.packages ensures ValidName(name) {
      if name !in t.packages {
        var k :| 0 <= k < |o.changed| && o.changed[k].id.name == name;
        WrittenIsChecked(t, rt, batch, now, o.changed[k]);
      }
    }
  }

  lemma MembersAreNamed(changed: seq<Candidate>, name: string)
    ensures IsMember(MembersOf(changed), name) <==> NamedFrom(changed, 0, name)
  {
    if NamedFrom(changed, 0, name) {
      var k :| 0 <= k < |changed| && changed[k].id.name == name;
      assert MembersOf(changed)[k].id.name == name;
    }
  }

  lemma MemberOwnsRow(t: Tables, rt: Runtime, batch: seq<Candidate>, now: int, i: nat)
    requires Consistent(t) && Installed(t, rt, batch, now).Ok? && i < |Installed(t, rt, batch, now).value.changed|
    ensures var o := Installed(t, rt, batch, now).value;
      OwnRow(t, MembersOf(o.changed)[i]) && OwnRow(o.tables, MembersOf(o.changed)[i])
  {
    var o := Installed(t, rt, batch, now).value;
    var p := o.changed[i];
    AllWritten(t, rt, batch, now);
    assert HasNewRow(o.tables, WithoutOutgoing(t, NamesOf(o.changed)), p, now);
    WrittenNameIsFree(t, rt, batch, now, p);
  }

  lemma WrittenNameIsFree(t: Tables, rt: Runtime, batch: seq<Candidate>, now: int, p: Candidate)
    requires Installed(t, rt, batch, now).Ok? && p in Installed(t, rt, batch, now).value.changed
    ensures NameFree(t, p.id)
  {
    ChangedVerdicts(t, rt, batch, 0);
    assert WrittenFrom(t, rt, batch, 0, p);
  }

  lemma RemovalIsPlanned(t: Tables, id: PackageId)
    requires ValidNames(t) && id.name in t.packages && RowId(id.name, t.packages[id.name]) == id && Removed(t, id).Ok?
    ensures var u := Removed(t, id).value; var plan := PlanOf(t, u, [Member(id, "")]);
      WellFormed(plan) && Distinguishes(plan) && OnlyMembersChange(t, u, plan.members) && ValidNames(u)
  {
    var u := Removed(t, id).value;
    var plan := PlanOf(t, u, [Member(id, "")]);
    assert MemberOk(plan, 0);
    RemovalIsVisible(t, id);
    assert FactsChange(plan, 0);
    assert plan.members[0].id.name == id.name;
    forall name {:trigger IsMember(plan.members, name)} | !IsMember(plan.members, name) ensures SameRow(t, u, name) {
    }
  }

  // ------------------------------------------------------------ what the disk holds after the switch

  /** The path of a unit's target. */
  function UnitPath(members: seq<Member>, u: nat): string
    requires u < 2 * |members|
  {
    CommitTarget(members[u / 2].id, KindAt(u))
  }

  lemma UnitPathsAreDistinct(plan: Plan, u: nat, v: nat)
    requires WellFormed(plan) && u < v < 2 * |plan.members|
    ensures UnitPath(plan.members, u) != UnitPath(plan.members, v)
  {
    assert MemberOk(plan, u / 2) && MemberOk(plan, v / 2);
    assert u / 2 == v / 2 ==> KindAt(u) != KindAt(v);
    TargetsAreDistinct(plan.members[u / 2].id, KindAt(u), plan.members[v / 2].id, KindAt(v));
  }

  function Put(disk: Disk, path: string, content: Option<Payload>): Disk {
    if content.Some? then disk[path := content.value] else disk - {path}
  }

  /** The disk with the first n targets as these slots have them. */
  function Overlaid(disk: Disk, members: seq<Member>, cells: seq<Cell>, n: nat): Disk
    requires n <= |cells| == 2 * |members|
  {
    if n == 0 then disk else Put(Overlaid(disk, members, cells, n - 1), UnitPath(members, n - 1), cells[n - 1].target)
  }

  function OnDisk(disk: Disk, plan: Plan, f: Files): Disk
    requires |f.cells| == 2 * |plan.members|
  {
    Overlaid(disk, plan.members, f.cells, |f.cells|)
  }

  lemma {:induction false} OverlaidElsewhere(disk: Disk, members: seq<Member>, cells: seq<Cell>, n: nat, path: string)
    requires n <= |cells| == 2 * |members| && forall u: nat :: u < n ==> UnitPath(members, u) != path
    ensures Lookup(Overlaid(disk, members, cells, n), path) == Lookup(disk, path)
  {
    if n > 0 {
      OverlaidElsewhere(disk, members, cells, n - 1, path);
      assert UnitPath(members, n - 1) != path;
    }
  }

  lemma {:induction false} OverlaidAt(disk: Disk, plan: Plan, cells: seq<Cell>, n: nat, u: nat)
    requires WellFormed(plan) && u < n <= |cells| == 2 * |plan.members|
    ensures Lookup(Overlaid(disk, plan.members, cells, n), UnitPath(plan.members, u)) == cells[u].target
  {
    if u < n - 1 {
      OverlaidAt(disk, plan, cells, n - 1, u);
      UnitPathsAreDistinct(plan, u, n - 1);
    }
  }

  ghost predicate IsUnitPath(members: seq<Member>, path: string) {
    exists u: nat :: u < 2 * |members| && UnitPath(members, u) == path
  }

  lemma ElsewhereOnDisk(disk: Disk, plan: Plan, f: Files, path: string)
    requires |f.cells| == 2 * |plan.members| && !IsUnitPath(plan.members, path)
    ensures Lookup(OnDisk(disk, plan, f), path) == Lookup(disk, path)
  {
    OverlaidElsewhere(disk, plan.members, f.cells, |f.cells|, path);
  }

  /** Where the parts of other packages stand no target of the batch does. */
  lemma OthersStandElsewhere(plan: Plan, t: Tables, name: string, kind: Kind)
    requires WellFormed(plan) && ValidNames(t) && name in t.packages && !IsMember(plan.members, name)
    ensures !IsUnitPath(plan.members, PartPath(t, name, kind))
  {
    forall u: nat | u < 2 * |plan.members| ensures UnitPath(plan.members, u) != PartPath(t, name, kind) {
      assert MemberOk(plan, u / 2);
      var m := plan.members[u / 2];
      assert m.id.name != name;
      TargetsAreDistinct(m.id, KindAt(u), RowId(name, t.packages[name]), kind);
    }
  }

  /** The unit of a member's part. */
  lemma MemberUnit(plan: Plan, name: string, kind: Kind) returns (u: nat)
    requires IsMember(plan.members, name)
    ensures u < 2 * |plan.members| && plan.members[u / 2].id.name == name && KindAt(u) == kind
  {
    var i :| 0 <= i < |plan.members| && plan.members[i].id.name == name;
    u := 2 * i + (if kind == Lib then 0 else 1);
  }

  /** With every target old the disk is what it was. */
  lemma OldIsHeld(disk: Disk, before: Tables, after: Tables, members: seq<Member>, f: Files)
    requires Holds(before, disk) && ValidNames(before) && OnlyMembersChange(before, after, members)
    requires WellFormed(PlanOf(before, after, members)) && AllOld(PlanOf(before, after, members), f)
    ensures OnDisk(disk, PlanOf(before, after, members), f) == disk
  {
    var plan := PlanOf(before, after, members);
    var d := OnDisk(disk, plan, f);
    forall path ensures Lookup(d, path) == Lookup(disk, path) {
      if IsUnitPath(members, path) {
        var u: nat :| u < 2 * |members| && UnitPath(members, u) == path;
        OverlaidAt(disk, plan, f.cells, |f.cells|, u);
        assert MemberOk(plan, u / 2) && OwnRows(before, after, members[u / 2]) && IsOld(plan.units[u], f.cells[u]);
        HeldAt(before, disk, members[u / 2].id, KindAt(u));
      } else {
        ElsewhereOnDisk(disk, plan, f, path);
      }
    }
    SameLookups(d, disk);
  }

  lemma SameLookups(d: Disk, e: Disk)
    requires forall path :: Lookup(d, path) == Lookup(e, path)
    ensures d == e
  {
    forall path ensures path in d <==> path in e {
      assert Lookup(d, path) == Lookup(e, path);
    }
    forall path | path in d ensures d[path] == e[path] {
      assert Lookup(d, path) == Lookup(e, path);
    }
  }

  /** With every target new the disk holds the new registry. */
  lemma NewIsHeld(disk: Disk, before: Tables, after: Tables, members: seq<Member>, f: Files)
    requires Holds(before, disk) && ValidNames(before) && ValidNames(after) && OnlyMembersChange(before, after, members)
    requires WellFormed(PlanOf(before, after, members)) && AllNew(PlanOf(before, after, members), f)
    ensures Holds(after, OnDisk(disk, PlanOf(before, after, members), f))
  {
    var plan := PlanOf(before, after, members);
    var d := OnDisk(disk, plan, f);
    forall name, kind {:trigger PartHeld(after, d, name, kind)} ensures PartHeld(after, d, name, kind) {
      if PartOf(after, name, kind).Some? {
        NewPartIsHeld(disk, plan, f, name, kind);
      }
    }
    forall path {:trigger PathKnown(after, d, path)} ensures PathKnown(after, d, path) {
      if path in d {
        NewPathIsPart(disk, plan, f, path);
      }
    }
  }

  ghost predicate Switches(disk: Disk, plan: Plan, f: Files) {
    && Holds(plan.before, disk) && ValidNames(plan.before) && ValidNames(plan.after)
    && plan == PlanOf(plan.before, plan.after, plan.members) && OnlyMembersChange(plan.before, plan.after, plan.members)
    && WellFormed(plan) && AllNew(plan, f)
  }

  lemma NewPartIsHeld(disk: Disk, plan: Plan, f: Files, name: string, kind: Kind)
    requires Switches(disk, plan, f) && PartOf(plan.after, name, kind).Some?
    ensures Lookup(OnDisk(disk, plan, f), PartPath(plan.after, name, kind)) == PartOf(plan.after, name, kind)
  {
    if IsMember(plan.members, name) {
      var u := MemberUnit(plan, name, kind);
      assert OwnRows(plan.before, plan.after, plan.members[u / 2]) && IsNew(plan.units[u], f.cells[u]);
      OverlaidAt(disk, plan, f.cells, |f.cells|, u);
    } else {
      assert SameRow(plan.before, plan.after, name) && PartHeld(plan.before, disk, name, kind);
      OthersStandElsewhere(plan, plan.after, name, kind);
      ElsewhereOnDisk(disk, plan, f, PartPath(plan.after, name, kind));
      assert PartOf(plan.before, name, kind) == PartOf(plan.after, name, kind);
    }
  }

  lemma MemberStandsAtUnit(plan: Plan, name: string, kind: Kind, path: string)
    requires OnlyMembersChange(plan.before, plan.after, plan.members) && PartStandsAt(plan.before, name, kind, path)
    ensures IsMember(plan.members, name) ==> IsUnitPath(plan.members, path)
  {
    if IsMember(plan.members, name) {
      var u := MemberUnit(plan, name, kind);
      assert OwnRows(plan.before, plan.after, plan.members[u / 2]);
      assert UnitPath(plan.members, u) == path;
    }
  }

  lemma NewPathIsPart(disk: Disk, plan: Plan, f: Files, path: string)
    requires Switches(disk, plan, f) && path in OnDisk(disk, plan, f)
    ensures IsPartPath(plan.after, path)
  {
    if IsUnitPath(plan.members, path) {
      var u: nat :| u < 2 * |plan.members| && UnitPath(plan.members, u) == path;
      OverlaidAt(disk, plan, f.cells, |f.cells|, u);
      var name := plan.members[u / 2].id.name;
      assert OwnRows(plan.before, plan.after, plan.members[u / 2]) && IsNew(plan.units[u], f.cells[u]);
      assert PartStandsAt(plan.after, name, KindAt(u), path);
    } else {
      ElsewhereOnDisk(disk, plan, f, path);
      assert Lookup(disk, path).Some? && PathKnown(plan.before, disk, path);
      assert IsPartPath(plan.before, path);
      var name, kind :| PartStandsAt(plan.before, name, kind, path);
      MemberStandsAtUnit(plan, name, kind, path);
      assert SameRow(plan.before, plan.after, name);
      assert PartStandsAt(plan.after, name, kind, path);
    }
  }

  /** Settled files always hold the registry they are settled with. */
  lemma SettledIsHeld(disk: Disk, before: Tables, after: Tables, members: seq<Member>, f: Files, db: Tables)
    requires Holds(before, disk) && ValidNames(before) && ValidNames(after) && OnlyMembersChange(before, after, members)
    requires WellFormed(PlanOf(before, after, members)) && Settled(PlanOf(before, after, members), f, db)
    ensures Holds(db, OnDisk(disk, PlanOf(before, after, members), f)) && (db == before || db == after)
  {
    var plan := PlanOf(before, after, members);
    if db == before && AllOld(plan, f) {
      OldIsHeld(disk, before, after, members, f);
    } else {
      NewIsHeld(disk, before, after, members, f);
    }
  }

  /** A staged batch: every target as the disk has it, every new part in its candidate slot. */
  function StagedFiles(disk: Disk, after: Tables, members: seq<Member>): Files {
    Files(Absent,
          seq(2 * |members|, u requires 0 <= u < 2 * |members| =>
            Cell(Lookup(disk, UnitPath(members, u)), None, PartOf(after, members[u / 2].id.name, KindAt(u)))),
          seq(|members|, i requires 0 <= i < |members| => true))
  }

  /** What the disk holds is what the plan expects to replace. */
  lemma StagedFromDisk(disk: Disk, before: Tables, after: Tables, members: seq<Member>)
    requires Holds(before, disk) && ValidNames(before) && OnlyMembersChange(before, after, members)
    requires WellFormed(PlanOf(before, after, members))
    ensures IsStaged(PlanOf(before, after, members), StagedFiles(disk, after, members))
  {
    var plan, f := PlanOf(before, after, members), StagedFiles(disk, after, members);
    forall u: nat | u < 2 * |members| ensures f.cells[u] == Staged(plan.units[u]) {
      assert MemberOk(plan, u / 2) && OwnRows(before, after, members[u / 2]);
      HeldAt(before, disk, members[u / 2].id, KindAt(u));
    }
  }

  /** Run the switch of a planned operation from what the disk holds, and say what it holds then. */
  method SwitchOnDisk(disk: Disk, plan: Plan, reliable: bool)
    returns (o: Switching.Outcome, now: Disk, ghost missed: set<nat>)
    requires Ready(disk, plan)
    ensures o.Committed? ==> Holds(plan.after, now)
    ensures o.NotStarted? || (o.RolledBack? && missed == {}) ==> now == disk
    ensures reliable ==> o == Committed(true)
  {
    var f := StagedFiles(disk, plan.after, plan.members);
    StagedFromDisk(disk, plan.before, plan.after, plan.members);
    var g;
    o, g, missed := SwitchStaged(plan, f, reliable);
    now := OnDisk(disk, plan, g);
    if o.Committed? {
      NewIsHeld(disk, plan.before, plan.after, plan.members, g);
    } else if AllOld(plan, g) {
      OldIsHeld(disk, plan.before, plan.after, plan.members, g);
    }
  }

  method SwitchStaged(plan: Plan, f: Files, reliable: bool)
    returns (o: Switching.Outcome, g: Files, ghost missed: set<nat>)
    requires WellFormed(plan) && Distinguishes(plan) && IsStaged(plan, f)
    ensures |g.cells| == |plan.units|
    ensures o.Committed? ==> AllNew(plan, g)
    ensures o.NotStarted? || (o.RolledBack? && missed == {}) ==> AllOld(plan, g)
    ensures reliable ==> o == Committed(true)
  {
    StagedWorldIsSafe(plan, f);
    var host := new Host(plan, World([f], plan.before), reliable);
    o, missed := host.CommitPackages(plan.members, plan.after);
    g := host.Current();
  }

  /** A switch planned for what the disk holds. */
  ghost predicate Planned(disk: Disk, plan: Plan) {
    && Holds(plan.before, disk) && ValidNames(plan.before) && ValidNames(plan.after)
    && plan == PlanOf(plan.before, plan.after, plan.members)
    && OnlyMembersChange(plan.before, plan.after, plan.members) && WellFormed(plan)
  }

  ghost predicate Ready(disk: Disk, plan: Plan) {
    Planned(disk, plan) && Distinguishes(plan)
  }
}
