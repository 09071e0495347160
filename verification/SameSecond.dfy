/** When the facts of an installation tell it from its absence: the clock has whole seconds, and a
    reinstallation in the same second repeats the rows that are there. */
module SameSecond {
  import opened Wrappers
  import opened Identity
  import opened Digraph
  import opened Registration
  import opened Installation
  import opened Facts
  import opened Recovery
  import opened Switching
  import opened SwitchRuns
  import opened Staging
  import opened Resolution
  import opened RecoveryLimits

  /** Registering this member now writes the rows that are there already. */
  ghost predicate Repeats(t: Tables, p: Candidate, now: int): (r: bool)
    ensures r ==> p.id.name in t.packages && t.packages[p.id.name].upgradedAt == Some(now)
  {
    && p.id.name in t.packages && t.packages[p.id.name] == NewRow(t, p, now)
    && EdgesAre(t, p.id.name, p.dependencies)
    && GroupsOf(t, p.id.name) == if p.groups == [] then None else Some(p.groups)
  }

  lemma {:induction false} OtherGroups(t: Tables, changed: seq<Candidate>, now: int, i: nat, name: string)
    requires i <= |changed| && SavedAll(t, changed, now, i).Ok? && !NamedFrom(changed, i, name)
    ensures GroupsOf(SavedAll(t, changed, now, i).value, name) == GroupsOf(t, name)
    decreases |changed| - i
  {
    if i < |changed| {
      SaveWritesItsRows(t, changed[i], now);
      assert changed[i].id.name != name;
      OtherGroups(Saved(t, changed[i], now).value, changed, now, i + 1, name);
    }
  }

  lemma {:induction false} WrittenGroups(t: Tables, changed: seq<Candidate>, now: int, i: nat, k: nat)
    requires i <= k < |changed| && SavedAll(t, changed, now, i).Ok? && DistinctNames(changed)
    ensures GroupsOf(SavedAll(t, changed, now, i).value, changed[k].id.name) ==
      if changed[k].groups == [] then None else Some(changed[k].groups)
    decreases |changed| - i
  {
    var one := Saved(t, changed[i], now).value;
    if i < k {
      WrittenGroups(one, changed, now, i + 1, k);
    } else {
      SaveWritesItsRows(t, changed[k], now);
      OtherGroups(one, changed, now, k + 1, changed[k].id.name);
    }
  }

  lemma RequirementsAre(t: Tables, u: Tables, name: string, deps: seq<Request>)
    requires EdgesAre(u, name, deps)
    ensures Requirements(t, name) == Requirements(u, name) <==> EdgesAre(t, name, deps)
  {
    if Requirements(t, name) == Requirements(u, name) {
      forall n: string ensures (name, n) in t.dependencies <==> (name, n) in u.dependencies {
        assert (name, n) in Requirements(t, name) <==> (name, n) in Requirements(u, name);
      }
      forall n: string | (name, n) in u.dependencies ensures t.dependencies[(name, n)] == u.dependencies[(name, n)] {
        assert Requirements(t, name)[(name, n)] == Requirements(u, name)[(name, n)];
      }
      EdgesKept(u, t, name, deps);
    } else if EdgesAre(t, name, deps) {
      SameRequirements(t, u, name, deps);
    }
  }

  lemma SameRequirements(t: Tables, u: Tables, name: string, deps: seq<Request>)
    requires EdgesAre(u, name, deps) && EdgesAre(t, name, deps)
    ensures Requirements(t, name) == Requirements(u, name)
  {
    forall n: string | (name, n) in t.dependencies
      ensures (name, n) in u.dependencies && u.dependencies[(name, n)] == t.dependencies[(name, n)]
    {
      assert NamesOne(deps, n);
      var j :| 0 <= j < |deps| && deps[j].id.name == n;
      assert LinkedTo(t, name, deps[j]) && LinkedTo(u, name, deps[j]);
    }
    forall n: string | (name, n) in u.dependencies ensures (name, n) in t.dependencies {
      assert NamesOne(deps, n);
    }
    forall k | k in Requirements(t, name)
      ensures k in Requirements(u, name) && Requirements(u, name)[k] == Requirements(t, name)[k]
    {
      assert k == (name, k.1);
    }
    forall k | k in Requirements(u, name) ensures k in Requirements(t, name) {
      assert k == (name, k.1);
    }
  }

  lemma MemberIsToldExactly(t: Tables, rt: Runtime, batch: seq<Candidate>, now: int, k: nat)
    requires Consistent(t) && Installed(t, rt, batch, now).Ok?
    requires k < |Installed(t, rt, batch, now).value.changed|
    ensures var o := Installed(t, rt, batch, now).value; var n := o.changed[k].id.name;
      FactsV4(t, n) == FactsV4(o.tables, n) <==> Repeats(t, o.changed[k], now)
  {
    var o := Installed(t, rt, batch, now).value;
    var base, p := WithoutOutgoing(t, NamesOf(o.changed)), o.changed[k];
    ChangedIsNonempty(t, rt, batch, now);
    FactsOfWrittenMember(t, rt, batch, now, k);
    DroppingKeepsConsistent(t, NamesOf(o.changed));
    WrittenRow(base, o.changed, now, 0, k);
    WrittenEdges(base, o.changed, now, 0, k);
    WrittenGroups(base, o.changed, now, 0, k);
    RequirementsAre(t, o.tables, p.id.name, p.dependencies);
  }

  ghost predicate AllRepeat(t: Tables, changed: seq<Candidate>, now: int) {
    forall k {:trigger Repeats(t, changed[k], now)} :: 0 <= k < |changed| ==> Repeats(t, changed[k], now)
  }

  /** The hypothesis of crash atomicity, for the batches that an installation switches: it fails exactly
      when every written member repeats its rows, and each of those was written in this same second. */
  lemma InstallationIsToldExactly(t: Tables, rt: Runtime, batch: seq<Candidate>, now: int)
    requires Consistent(t) && Installed(t, rt, batch, now).Ok?
    ensures var o := Installed(t, rt, batch, now).value;
      Distinguishes(PlanOf(t, o.tables, MembersOf(o.changed))) <==> !AllRepeat(t, o.changed, now)
  {
    var o := Installed(t, rt, batch, now).value;
    var plan := PlanOf(t, o.tables, MembersOf(o.changed));
    forall k: nat | k < |o.changed| ensures FactsChange(plan, k) <==> !Repeats(t, o.changed[k], now) {
      MemberIsToldExactly(t, rt, batch, now, k);
    }
    if Distinguishes(plan) {
      var k :| 0 <= k < |plan.members| && FactsChange(plan, k);
      assert !Repeats(t, o.changed[k], now);
    } else {
      forall k {:trigger Repeats(t, o.changed[k], now)} | 0 <= k < |o.changed| ensures Repeats(t, o.changed[k], now) {
        assert !FactsChange(plan, k);
      }
    }
  }

  // ------------------------------------------------------------ an input that fails it

  /** A batch of one is its own root: it is always written. */
  lemma AloneIsWritten(t: Tables, rt: Runtime, p: Candidate, now: int)
    requires Changed(t, rt, [p], 0).Ok?
    ensures Changed(t, rt, [p], 0).value == [p] && VerdictAt(t, rt, [p], 0) == Ok(false)
    ensures Installed(t, rt, [p], now).Ok? <==> Saved(WithoutOutgoing(t, {p.id.name}), p, now).Ok?
    ensures Installed(t, rt, [p], now).Ok? ==>
      Installed(t, rt, [p], now).value == Outcome(Saved(WithoutOutgoing(t, {p.id.name}), p, now).value, [p])
  {
    assert Changed(t, rt, [p], 1) == Ok([]);
    assert NamesOf([p]) == {p.id.name};
    var base := WithoutOutgoing(t, {p.id.name});
    if Saved(base, p, now).Ok? {
      assert SavedAll(Saved(base, p, now).value, [p], now, 1).Ok?;
    }
  }

  /** What was installed alone can be installed again. */
  lemma Reinstallable(t: Tables, rt: Runtime, p: Candidate, earlier: int, now: int)
    requires Consistent(t) && Installed(t, rt, [p], earlier).Ok?
    ensures var u := Installed(t, rt, [p], earlier).value.tables; Consistent(u) && Installed(u, rt, [p], now).Ok?
  {
    AloneIsWritten(t, rt, p, earlier);
    InstallKeepsConsistent(t, rt, [p], earlier);
    var base := WithoutOutgoing(t, {p.id.name});
    var u := Saved(base, p, earlier).value;
    SaveWritesItsRows(base, p, earlier);
    assert [p][..0] == [];
    assert VerdictAt(u, rt, [p], 0) == Ok(false);
    assert Changed(u, rt, [p], 1) == Ok([]);
    AloneIsWritten(u, rt, p, now);
    SavesAgain(base, p, earlier, now);
  }

  lemma SavesAgain(t: Tables, p: Candidate, earlier: int, now: int)
    requires Saved(t, p, earlier).Ok? && Consistent(Saved(t, p, earlier).value)
    ensures Saved(WithoutOutgoing(Saved(t, p, earlier).value, {p.id.name}), p, now).Ok?
  {
    var v := WithoutOutgoing(Saved(t, p, earlier).value, {p.id.name});
    NothingElseMoved(t, p, earlier);
    SameGraphAgain(t, p, earlier, now);
    NotPinned(t, p, earlier);
    SavesExactly(t, p, earlier);
    SavesExactly(v, p, now);
    var a, b := WithoutOutgoing(Upserted(t, p, earlier), {p.id.name}),
      WithoutOutgoing(Upserted(v, p, now), {p.id.name});
    forall j | 0 <= j < |p.dependencies| ensures Linkable(b, p, j) {
      assert Linkable(a, p, j);
      LinkableAgain(a, b, p, j);
    }
  }

  lemma LinkableAgain(a: Tables, b: Tables, p: Candidate, j: nat)
    requires j < |p.dependencies| && Linkable(a, p, j) && Graph(a) == Graph(b)
    requires forall name :: name in a.packages && name != p.id.name ==>
      name in b.packages && b.packages[name] == a.packages[name]
    ensures Linkable(b, p, j)
  {
    if p.dependencies[j].id.name == p.id.name {
      ReachesSelf(Graph(a), p.id.name);
    }
  }

  lemma NotPinned(t: Tables, p: Candidate, earlier: int)
    requires Saved(t, p, earlier).Ok? && Consistent(Saved(t, p, earlier).value)
    ensures !PinnedElsewhere(WithoutOutgoing(Saved(t, p, earlier).value, {p.id.name}), p)
  {
    var u := Saved(t, p, earlier).value;
    var v := WithoutOutgoing(u, {p.id.name});
    SaveWritesItsRows(t, p, earlier);
    forall k | k in v.dependencies && k.1 == p.id.name ensures v.dependencies[k] == p.version {
      assert ExactRow(u, k);
    }
  }

  lemma SameGraphAgain(t: Tables, p: Candidate, earlier: int, now: int)
    requires Saved(t, p, earlier).Ok?
    ensures var v := WithoutOutgoing(Saved(t, p, earlier).value, {p.id.name});
      Graph(WithoutOutgoing(Upserted(t, p, earlier), {p.id.name})) ==
        Graph(WithoutOutgoing(Upserted(v, p, now), {p.id.name}))
  {
    var v := WithoutOutgoing(Saved(t, p, earlier).value, {p.id.name});
    SaveWritesItsRows(t, p, earlier);
    var a, b := WithoutOutgoing(Upserted(t, p, earlier), {p.id.name}),
      WithoutOutgoing(Upserted(v, p, now), {p.id.name});
    assert a.dependencies == b.dependencies;
  }

  lemma NothingElseMoved(t: Tables, p: Candidate, earlier: int)
    requires Saved(t, p, earlier).Ok?
    ensures var v := WithoutOutgoing(Saved(t, p, earlier).value, {p.id.name});
      && NameFree(v, p.id) && OwnerHolds(v, p) && (EndpointsClash(v, p) ==> EndpointsClash(t, p))
      && (forall name :: name in t.packages && name != p.id.name ==>
            name in v.packages && v.packages[name] == t.packages[name])
  {
    var v := WithoutOutgoing(Saved(t, p, earlier).value, {p.id.name});
    SaveWritesItsRows(t, p, earlier);
    if EndpointsClash(v, p) {
      var name, g, e :| name in v.groups && name != p.id.name && g in v.groups[name] && e in g.endpoints
        && Claims(p.groups, e);
      assert name in t.groups && g in t.groups[name];
    }
  }

  /** Installing one release three times, the last two in one second, writes the same rows twice. Every
      accepted release does. */
  lemma SameSecondReinstall(t: Tables, rt: Runtime, p: Candidate, earlier: int, now: int)
    requires Consistent(t) && Installed(t, rt, [p], earlier).Ok?
    ensures var u := Installed(t, rt, [p], earlier).value.tables;
      && Installed(u, rt, [p], now).Ok?
      && var v := Installed(u, rt, [p], now).value.tables;
         && Consistent(v) && Repeats(v, p, now)
         && Installed(v, rt, [p], now).Ok? && Installed(v, rt, [p], now).value.changed == [p]
  {
    Reinstallable(t, rt, p, earlier, now);
    var u := Installed(t, rt, [p], earlier).value.tables;
    var v := Installed(u, rt, [p], now).value.tables;
    Reinstallable(u, rt, p, now, now);
    AloneIsWritten(t, rt, p, earlier);
    AloneIsWritten(u, rt, p, now);
    AloneIsWritten(v, rt, p, now);
    SaveWritesItsRows(WithoutOutgoing(t, {p.id.name}), p, earlier);
    SaveWritesItsRows(WithoutOutgoing(u, {p.id.name}), p, now);
    SavedEdges(WithoutOutgoing(u, {p.id.name}), p, now);
  }

  /** A release with a Lib alone that the installer takes on an empty registry. */
  ghost predicate Plain(p: Candidate) {
    && ValidName(p.id.name) && p.id.name != "std" && p.evidence && p.routesClear
    && p.dependencies == [] && p.groups == [] && p.hasLib && !p.hasApp
  }

  lemma PlainIsAccepted(rt: Runtime, p: Candidate, now: int)
    requires Plain(p)
    ensures Consistent(EMPTY) && Installed(EMPTY, rt, [p], now).Ok?
    ensures Installed(EMPTY, rt, [p], now).value.tables.packages.Keys == {p.id.name}
  {
    RunsStayConsistent([]);
    assert [p][..0] == [];
    assert VerdictAt(EMPTY, rt, [p], 0) == Ok(false);
    assert Changed(EMPTY, rt, [p], 1) == Ok([]);
    AloneIsWritten(EMPTY, rt, p, now);
    SavesExactly(WithoutOutgoing(EMPTY, {p.id.name}), p, now);
    SaveWritesItsRows(WithoutOutgoing(EMPTY, {p.id.name}), p, now);
  }

  function LibOnly(p: Candidate): Disk {
    map[CommitTarget(IdOf(p.id), Lib) := Payload(p.version, Some(p.sha))]
  }

  lemma LibOnlyHolds(v: Tables, p: Candidate)
    requires Plain(p) && v.packages.Keys == {p.id.name} && v.packages[p.id.name].author == Some(p.id.author)
    requires PartOf(v, p.id.name, Lib) == Some(Payload(p.version, Some(p.sha))) && PartOf(v, p.id.name, App).None?
    ensures Holds(v, LibOnly(p))
  {
    var disk, path := LibOnly(p), CommitTarget(IdOf(p.id), Lib);
    forall name, kind {:trigger PartHeld(v, disk, name, kind)} ensures PartHeld(v, disk, name, kind) {
      if PartOf(v, name, kind).Some? {
        assert name == p.id.name && kind == Lib;
        assert PartPath(v, name, kind) == path;
      }
    }
    forall other {:trigger PathKnown(v, disk, other)} ensures PathKnown(v, disk, other) {
      assert PartStandsAt(v, p.id.name, Lib, path);
    }
  }

  /** The loss, from the installer's own inputs: a release installed on an empty registry, and installed
      again twice in a later second. The last switch, stopped when the Lib has left its place, is taken
      for committed, and recovery leaves a registered Lib without its file. */
  lemma ReinstallLosesLib(rt: Runtime, p: Candidate, earlier: int, now: int)
    returns (u: Tables, v: Tables, w: Tables, f: Files)
    requires Plain(p)
    ensures Installed(EMPTY, rt, [p], earlier) == Ok(Outcome(u, [p]))
    ensures Installed(u, rt, [p], now) == Ok(Outcome(v, [p])) && Installed(v, rt, [p], now) == Ok(Outcome(w, [p]))
    ensures Holds(v, LibOnly(p))
    ensures Loses(LibOnly(p), PlanOf(v, w, MembersOf([p])), f)
  {
    PlainIsAccepted(rt, p, earlier);
    SameSecondReinstall(EMPTY, rt, p, earlier, now);
    u := Installed(EMPTY, rt, [p], earlier).value.tables;
    v := Installed(u, rt, [p], now).value.tables;
    w := Installed(v, rt, [p], now).value.tables;
    AloneIsWritten(EMPTY, rt, p, earlier);
    AloneIsWritten(u, rt, p, now);
    SaveWritesItsRows(WithoutOutgoing(u, {p.id.name}), p, now);
    LibOnlyHolds(v, p);
    f := LosesLib(rt, p, now, v, w);
  }

  lemma LosesLib(rt: Runtime, p: Candidate, now: int, v: Tables, w: Tables) returns (f: Files)
    requires Plain(p) && Consistent(v) && v.packages.Keys == {p.id.name} && Holds(v, LibOnly(p))
    requires Repeats(v, p, now) && Installed(v, rt, [p], now) == Ok(Outcome(w, [p]))
    ensures Loses(LibOnly(p), PlanOf(v, w, MembersOf([p])), f)
  {
    var plan := PlanOf(v, w, MembersOf([p]));
    InstallIsPlanned(v, rt, [p], now);
    InstallationIsToldExactly(v, rt, [p], now);
    assert AllRepeat(v, [p], now);
    assert plan.units[0] == UnitOf(v, w, p.id.name, Lib);
    f := UntoldSwitchLosesPart(LibOnly(p), plan, 0);
  }

  /** Interrupted in this state, the switch is taken for committed, and the disk loses what the registry
      still promises. */
  ghost predicate Loses(disk: Disk, plan: Plan, f: Files) {
    && |plan.units| == 2 * |plan.members| && Interrupted(plan, StagedFiles(disk, plan.after, plan.members), f)
    && !Blocked(plan, f, plan.before)
    && Recovered(f, plan.before).Some? && |Recovered(f, plan.before).value.cells| == 2 * |plan.members|
    && !Holds(plan.before, OnDisk(disk, plan, Recovered(f, plan.before).value))
  }

  /** Any planned switch of a registered part can lose it when the facts do not tell its commit. */
  lemma UntoldSwitchLosesPart(disk: Disk, plan: Plan, u: nat) returns (f: Files)
    requires Planned(disk, plan) && !Distinguishes(plan) && u < |plan.units| && plan.units[u].before.Some?
    ensures Loses(disk, plan, f)
  {
    StagedFromDisk(disk, plan.before, plan.after, plan.members);
    f := InvisibleCommitLosesFiles(plan, StagedFiles(disk, plan.after, plan.members), u);
    PartIsMissing(disk, plan, Recovered(f, plan.before).value, u);
  }

  lemma PartIsMissing(disk: Disk, plan: Plan, g: Files, u: nat)
    requires Planned(disk, plan) && u < |plan.units| && plan.units[u].before.Some?
    requires |g.cells| == 2 * |plan.members| && g.cells[u].target == None
    ensures !Holds(plan.before, OnDisk(disk, plan, g))
  {
    var m := plan.members[u / 2];
    OverlaidAt(disk, plan, g.cells, |g.cells|, u);
    assert OwnRows(plan.before, plan.after, m)
      && plan.units[u] == UnitOf(plan.before, plan.after, m.id.name, KindAt(u));
    assert PartPath(plan.before, m.id.name, KindAt(u)) == UnitPath(plan.members, u);
    assert !PartHeld(plan.before, OnDisk(disk, plan, g), m.id.name, KindAt(u));
  }
}
