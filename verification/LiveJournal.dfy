/** A journal that outlives its batch: the installer's inputs on which recovery goes back two versions. */
module LiveJournal {
  import opened Wrappers
  import opened Identity
  import opened Registration
  import opened Installation
  import opened Recovery
  import opened Switching
  import opened SwitchRuns
  import opened Staging
  import opened RecoveryLimits
  import opened SameSecond

  /** This release is all that is installed. */
  ghost predicate Sole(t: Tables, p: Candidate) {
    && t.packages.Keys == {p.id.name} && IsRowOf(t.packages[p.id.name], p)
    && t.dependencies == map[] && t.groups.Keys == {p.id.name}
  }

  ghost predicate IsRowOf(row: Row, p: Candidate) {
    && row.author == Some(p.id.author) && row.version == p.version && row.owner == Some(p.owner)
    && row.sha == Some(p.sha) && row.hasLib && !row.hasApp
  }

  /** Another release of the same package by the same owner. */
  ghost predicate Succeeds(p: Candidate, q: Candidate) {
    q.id == p.id && q.owner == p.owner && q.version != p.version
  }

  lemma AloneIsSole(t: Tables, rt: Runtime, p: Candidate, now: int)
    requires Plain(p) && t.packages.Keys <= {p.id.name} && t.dependencies == map[] && t.groups.Keys <= {p.id.name}
    requires Installed(t, rt, [p], now).Ok?
    ensures var o := Installed(t, rt, [p], now).value;
      && o.changed == [p] && Sole(o.tables, p)
      && (p.id.name in t.packages ==> o.tables.packages[p.id.name].upgradedAt == Some(now))
  {
    AloneIsWritten(t, rt, p, now);
    var base := WithoutOutgoing(t, {p.id.name});
    var u := Saved(base, p, now).value;
    SaveWritesItsRows(base, p, now);
    forall k ensures k !in u.dependencies {
      assert k.0 == p.id.name ==> k == (p.id.name, k.1);
    }
  }

  lemma SuccessorIsAccepted(t: Tables, rt: Runtime, p: Candidate, q: Candidate, now: int)
    requires Sole(t, p) && Plain(q) && Succeeds(p, q)
    ensures Installed(t, rt, [q], now).Ok?
  {
    assert [q][..0] == [];
    assert VerdictAt(t, rt, [q], 0) == Ok(false);
    assert Changed(t, rt, [q], 1) == Ok([]);
    AloneIsWritten(t, rt, q, now);
    SavesExactly(WithoutOutgoing(t, {q.id.name}), q, now);
  }

  lemma SoleHolds(t: Tables, p: Candidate)
    requires Plain(p) && Sole(t, p)
    ensures Holds(t, LibOnly(p))
    ensures PartOf(t, p.id.name, Lib) == Some(Payload(p.version, Some(p.sha))) && PartOf(t, p.id.name, App) == None
  {
    LibOnlyHolds(t, p);
  }

  /** The journal's one member: a Lib that was there before and after. */
  lemma SolePlan(a: Tables, b: Tables, p: Candidate, q: Candidate)
    requires Plain(p) && Plain(q) && Sole(a, p) && Sole(b, q) && Succeeds(p, q)
    ensures var plan := PlanOf(a, b, MembersOf([q]));
      && WellFormed(plan) && |plan.units| == 2 && HasMember(plan, p.id.name)
      && plan.units[0] == Unit(Some(Payload(p.version, Some(p.sha))), Some(Payload(q.version, Some(q.sha))))
      && plan.units[1] == Unit(None, None) && UnitPath(plan.members, 0) == CommitTarget(IdOf(p.id), Lib)
      && OnlyMembersChange(a, b, plan.members)
  {
    SoleHolds(a, p);
    SoleHolds(b, q);
    var plan := PlanOf(a, b, MembersOf([q]));
    assert plan.members[0] == Member(IdOf(q.id), q.id.name);
    assert plan.units[0] == UnitOf(a, b, q.id.name, Lib) && plan.units[1] == UnitOf(a, b, q.id.name, App);
    assert MemberOk(plan, 0);
    forall name {:trigger IsMember(plan.members, name)} | !IsMember(plan.members, name) ensures SameRow(a, b, name) {
      assert name != plan.members[0].id.name;
    }
  }

  /** With this content in the Lib's place the disk is that Lib alone. */
  lemma OneLibOnDisk(disk: Disk, plan: Plan, f: Files, p: Candidate)
    requires WellFormed(plan) && |plan.members| == 1 && |f.cells| == 2
    requires UnitPath(plan.members, 0) == CommitTarget(IdOf(p.id), Lib) && disk.Keys == {UnitPath(plan.members, 0)}
    requires f.cells[0].target == Some(Payload(p.version, Some(p.sha))) && f.cells[1].target == None
    ensures OnDisk(disk, plan, f) == LibOnly(p)
  {
    UnitPathsAreDistinct(plan, 0, 1);
    var one := Put(Overlaid(disk, plan.members, f.cells, 0), UnitPath(plan.members, 0), f.cells[0].target);
    assert Overlaid(disk, plan.members, f.cells, 1) == one == LibOnly(p);
    assert OnDisk(disk, plan, f) == Put(one, UnitPath(plan.members, 1), f.cells[1].target);
  }

  /** The input. A release is installed, then upgraded, and the cleanup of the upgrade fails: its journal f
      stays. The package is upgraded once more, in another second, and its Lib moves into place: g. The
      next recovery puts the Lib of the first release back under the registry of the third. */
  lemma UpgradeIsReverted(rt: Runtime, p: Candidate, q: Candidate, r: Candidate, first: int, second: int, third: int)
    returns (a: Tables, b: Tables, c: Tables, f: Files, g: Files)
    requires Plain(p) && Plain(q) && Plain(r) && Succeeds(p, q) && Succeeds(q, r) && Succeeds(p, r) && second != third
    ensures Installed(EMPTY, rt, [p], first) == Ok(Outcome(a, [p])) && Holds(a, LibOnly(p))
    ensures Installed(a, rt, [q], second) == Ok(Outcome(b, [q])) && Installed(b, rt, [r], third) == Ok(Outcome(c, [r]))
    ensures var plan := PlanOf(a, b, MembersOf([q])); var start := StagedFiles(LibOnly(p), b, plan.members);
      && |plan.units| == 2 * |plan.members| == 2
      && Arrives(plan, start, World([f], b)) && Uncleaned(plan, f) && OnDisk(LibOnly(p), plan, f) == LibOnly(q)
      && g == f.(cells := f.cells[0 := f.cells[0].(target := Some(Payload(r.version, Some(r.sha))))])
      && OnDisk(LibOnly(p), plan, g) == LibOnly(r) && Holds(c, LibOnly(r))
      && Recovered(g, c).Some? && |Recovered(g, c).value.cells| == 2
      && OnDisk(LibOnly(p), plan, Recovered(g, c).value) == LibOnly(p) && !Holds(c, LibOnly(p))
  {
    a, b, c := ThreeInstalls(rt, p, q, r, first, second, third);
    SolePlan(a, b, p, q);
    SoleHolds(a, p);
    SoleHolds(c, r);
    var plan := PlanOf(a, b, MembersOf([q]));
    f := UpgradeStays(p, q, a, b);
    g := f.(cells := f.cells[0 := f.cells[0].(target := Some(Payload(r.version, Some(r.sha))))]);
    OneLibOnDisk(LibOnly(p), plan, f, q);
    OneLibOnDisk(LibOnly(p), plan, g, r);
    LaterUpgradeIsReverted(plan, g, 0, rt, [r], third, 0);
    AppStaysOut(plan, g, c);
    OneLibOnDisk(LibOnly(p), plan, Recovered(g, c).value, p);
    assert !PartHeld(c, LibOnly(p), r.id.name, Lib);
  }

  lemma ThreeInstalls(rt: Runtime, p: Candidate, q: Candidate, r: Candidate, first: int, second: int, third: int)
    returns (a: Tables, b: Tables, c: Tables)
    requires Plain(p) && Plain(q) && Plain(r) && Succeeds(p, q) && Succeeds(q, r)
    ensures Installed(EMPTY, rt, [p], first) == Ok(Outcome(a, [p])) && Sole(a, p)
    ensures Installed(a, rt, [q], second) == Ok(Outcome(b, [q])) && Sole(b, q) && Consistent(b)
    ensures b.packages[q.id.name].upgradedAt == Some(second)
    ensures Installed(b, rt, [r], third) == Ok(Outcome(c, [r])) && Sole(c, r)
  {
    PlainIsAccepted(rt, p, first);
    AloneIsSole(EMPTY, rt, p, first);
    InstallKeepsConsistent(EMPTY, rt, [p], first);
    a := Installed(EMPTY, rt, [p], first).value.tables;
    SuccessorIsAccepted(a, rt, p, q, second);
    AloneIsSole(a, rt, q, second);
    InstallKeepsConsistent(a, rt, [q], second);
    b := Installed(a, rt, [q], second).value.tables;
    SuccessorIsAccepted(b, rt, q, r, third);
    AloneIsSole(b, rt, r, third);
    c := Installed(b, rt, [r], third).value.tables;
  }

  lemma UpgradeStays(p: Candidate, q: Candidate, a: Tables, b: Tables) returns (f: Files)
    requires Plain(p) && Plain(q) && Sole(a, p) && Sole(b, q) && Succeeds(p, q)
    ensures var plan := PlanOf(a, b, MembersOf([q]));
      |plan.units| == 2 * |plan.members| == 2 && Uncleaned(plan, f)
      && Arrives(plan, StagedFiles(LibOnly(p), b, plan.members), World([f], b))
  {
    var plan := PlanOf(a, b, MembersOf([q]));
    SolePlan(a, b, p, q);
    SoleHolds(a, p);
    StagedFromDisk(LibOnly(p), a, b, plan.members);
    f := UncleanedIsReached(plan, StagedFiles(LibOnly(p), b, plan.members));
  }

  lemma AppStaysOut(plan: Plan, g: Files, db: Tables)
    requires WellFormed(plan) && |plan.units| == 2 && |g.cells| == 2 && g.marker == Whole(JournalOf(plan))
    requires plan.units[1] == Unit(None, None) && g.cells[1] == Cell(None, None, None)
    requires Recovered(g, db).Some?
    ensures |Recovered(g, db).value.cells| == 2 && Recovered(g, db).value.cells[1].target == None
  {
    JournalIsAccepted(plan);
    RestoredUnit(plan, g.cells, 1);
  }
}
