/** How far crash recovery reaches: the two hypotheses of crash atomicity are needed. */
module RecoveryLimits {
  import opened Wrappers
  import opened Identity
  import opened Registration
  import Installation
  import opened Facts
  import opened Recovery
  import opened Switching
  import opened SwitchRuns

  ghost predicate RecoversOld(plan: Plan, f: Files) {
    Recovered(f, plan.before).Some? && AllOld(plan, Recovered(f, plan.before).value)
  }

  /** Every crash before the commit that recovery is not blocked from is undone, exactly when the facts
      tell the registries apart. They fail to when each member was already written in the same clock
      second. */
  lemma VisibleFactsAreNeeded(plan: Plan, start: Files, u: nat)
    requires WellFormed(plan) && IsStaged(plan, start) && u < |plan.units|
    requires plan.units[u].before.Some? || plan.units[u].after.Some?
    ensures Distinguishes(plan) <==>
      forall f: Files :: Interrupted(plan, start, f) && !Blocked(plan, f, plan.before) ==> RecoversOld(plan, f)
  {
    if Distinguishes(plan) {
      forall f: Files | Interrupted(plan, start, f) && !Blocked(plan, f, plan.before) ensures RecoversOld(plan, f) {
        InterruptedIsUndone(plan, start, f);
      }
    } else {
      var f := InvisibleCommitLosesFiles(plan, start, u);
    }
  }

  lemma InterruptedIsUndone(plan: Plan, start: Files, f: Files)
    requires WellFormed(plan) && Distinguishes(plan) && IsStaged(plan, start)
    requires Interrupted(plan, start, f) && !Blocked(plan, f, plan.before)
    ensures RecoversOld(plan, f)
  {
    var ws: seq<World>, n: nat, i: nat :| CrashLeaves(plan, start, f, ws, n, i);
    StagedWorldIsSafe(plan, start);
    CrashAtomicity(plan, ws, n, i);
    FactsDecide(plan);
  }

  /** The concrete loss: the switch was stopped with the target out of its place, or with new content in
      a place that held nothing, and recovery takes that for the committed state. */
  lemma InvisibleCommitLosesFiles(plan: Plan, start: Files, u: nat) returns (f: Files)
    requires WellFormed(plan) && IsStaged(plan, start) && !Distinguishes(plan) && u < |plan.units|
    requires plan.units[u].before.Some? || plan.units[u].after.Some?
    ensures Interrupted(plan, start, f) && !Blocked(plan, f, plan.before) && !RecoversOld(plan, f)
    ensures Recovered(f, plan.before).Some? && |Recovered(f, plan.before).value.cells| == |plan.units|
    ensures Recovered(f, plan.before).value.cells[u] ==
      Cell(if plan.units[u].before.Some? then None else plan.units[u].after, None, None)
  {
    f := TargetLooseIsReached(plan, start, u);
    JournalIsAccepted(plan);
    NothingTold(plan);
    assert Recovered(f, plan.before) == Some(CleanedUp(f.cells, |plan.members|));
    var g := Recovered(f, plan.before).value;
    assert !IsOld(plan.units[u], g.cells[u]);
  }

  lemma NothingTold(plan: Plan)
    requires |plan.units| == 2 * |plan.members| && !Distinguishes(plan)
    ensures AllMatch(JournalOf(plan), plan.before)
  {
    var j := JournalOf(plan);
    forall i | 0 <= i < |j| ensures Matches(j[i].facts, plan.before, j[i].id.name) {
      JournalAt(plan, i);
      assert !FactsChange(plan, i);
    }
  }

  /** A backup that cannot be seen during the rollback is lost. The switch was stopped with the target
      out of its place; the rollback skips it and reports success; the cleanup removes the journal and
      the backup, and no later recovery has anything to do. */
  lemma MissedBackupIsLost(plan: Plan, start: Files, u: nat) returns (f: Files, g: Files)
    requires WellFormed(plan) && IsStaged(plan, start) && u < |plan.units| && plan.units[u].before.Some?
    ensures Interrupted(plan, start, f) && RestoredBut(plan, f, g, |plan.units|, {u})
    ensures var h := CleanedUp(g.cells, |plan.members|);
      && h.cells[u] == Cell(None, None, None) && !AllOld(plan, h)
      && Recovered(h, plan.before) == Some(h)
  {
    f := TargetLooseIsReached(plan, start, u);
    var cells := seq(|plan.units|, i requires 0 <= i < |plan.units| =>
      RestoredUnless(plan.units[i], f.cells[i], i == u));
    g := f.(cells := cells);
    var h := CleanedUp(g.cells, |plan.members|);
    assert !IsOld(plan.units[u], h.cells[u]);
  }

  /** The other blocked state. The journal was written but not synced, the batch was given up, and the
      host stopped when a member's directory was removed and the journal not yet: every later recovery
      is refused although nothing was switched. Only a batch with directories of its own gets there. */
  lemma AbandonedStageBlocks(plan: Plan, start: Files, i: nat) returns (f: Files)
    requires WellFormed(plan) && Distinguishes(plan) && IsStaged(plan, start)
    requires i < |plan.members| && plan.members[i].directory != ""
    ensures Interrupted(plan, start, f) && f.marker == Whole(JournalOf(plan))
    ensures Blocked(plan, f, plan.before) && Recovered(f, plan.before) == None && AllOld(plan, f)
  {
    var w := World([start], plan.before);
    JournalRuns(plan, start);
    var v := Ran(w, JournalOps(plan));
    var gone := [Discard(2 * i)] + [Discard(2 * i + 1)] + [DropDirectory(i)];
    DirectoryGoes(plan, v, i);
    ThenRun(plan, w, JournalOps(plan), gone);
    RunCanCrash(plan, start, JournalOps(plan) + gone);
    f := Last(Ran(v, gone));
    FactsDecide(plan);
  }

  lemma DirectoryGoes(plan: Plan, v: World, i: nat)
    requires WellFormed(plan) && SwitchingAt(plan, v, 0) && i < |plan.members| && plan.members[i].directory != ""
    ensures var gone := [Discard(2 * i)] + [Discard(2 * i + 1)] + [DropDirectory(i)];
      && Allowed(plan, v, gone) && Ran(v, gone).db == plan.before
      && Last(Ran(v, gone)).marker == Whole(JournalOf(plan)) && !Present(Last(Ran(v, gone)))
      && AllOld(plan, Last(Ran(v, gone)))
  {
    var a, b, c := [Discard(2 * i)], [Discard(2 * i + 1)], [DropDirectory(i)];
    OneOp(plan, v, Discard(2 * i));
    var x := Ran(v, a);
    OneOp(plan, x, Discard(2 * i + 1));
    ThenRun(plan, v, a, b);
    var y := Ran(x, b);
    assert Untouched(plan, Last(y));
    OneOp(plan, y, DropDirectory(i));
    ThenRun(plan, v, a + b, c);
    assert !Last(Ran(y, c)).dirs[i];
  }

  /** Every file switched, the old content still in its backup: a batch whose cleanup failed. */
  ghost predicate Uncleaned(plan: Plan, f: Files)
    requires |plan.units| == 2 * |plan.members|
  {
    && f.marker == Whole(JournalOf(plan)) && |f.cells| == |plan.units|
    && |f.dirs| == |plan.members| && Present(f)
    && forall i :: 0 <= i < |f.cells| ==> f.cells[i] == Cell(plan.units[i].after, plan.units[i].before, None)
  }

  /** A run gets there: the whole switch, the commit, and no cleanup. */
  lemma UncleanedIsReached(plan: Plan, start: Files) returns (f: Files)
    requires |plan.units| == 2 * |plan.members| > 0 && IsStaged(plan, start)
    ensures Arrives(plan, start, World([f], plan.after)) && Uncleaned(plan, f)
  {
    f := CommitIsReached(plan, start);
  }

  /** While such a journal lives, recovery keeps the committed files exactly as long as the
      registry still holds every member's facts. */
  lemma LiveJournalDecides(plan: Plan, f: Files, db: Tables, u: nat)
    requires WellFormed(plan) && Uncleaned(plan, f)
    requires u < |plan.units| && plan.units[u].before.Some? && plan.units[u].before != plan.units[u].after
    ensures Recovered(f, db).Some?
    ensures AllNew(plan, Recovered(f, db).value) <==> AllMatch(JournalOf(plan), db)
    ensures !AllMatch(JournalOf(plan), db) ==> Recovered(f, db).value.cells[u].target == plan.units[u].before
  {
    var j := JournalOf(plan);
    JournalIsAccepted(plan);
    if AllMatch(j, db) {
      assert Recovered(f, db) == Some(CleanedUp(f.cells, |j|));
    } else {
      var g := CleanedUp(AllRestored(j, f.cells), |j|);
      assert Recovered(f, db) == Some(g);
      RestoredUnit(plan, f.cells, u);
      assert !IsNew(plan.units[u], g.cells[u]);
    }
  }

  ghost predicate HasMember(plan: Plan, name: string) {
    exists i :: 0 <= i < |plan.members| && plan.members[i].id.name == name
  }

  /** When the facts no longer match, a target with a backup gets it back. */
  lemma MismatchRestores(plan: Plan, f: Files, db: Tables, u: nat)
    requires WellFormed(plan) && f.marker == Whole(JournalOf(plan)) && |f.cells| == |plan.units|
    requires |f.dirs| == |plan.members| && Present(f)
    requires u < |plan.units| && plan.units[u].before.Some? && f.cells[u].backup == plan.units[u].before
    requires !AllMatch(JournalOf(plan), db)
    ensures Recovered(f, db).Some? && u < |Recovered(f, db).value.cells|
    ensures Recovered(f, db).value.cells[u].target == plan.units[u].before
  {
    JournalIsAccepted(plan);
    RecoversByRestoring(JournalOf(plan), f, db);
    RestoredUnit(plan, f.cells, u);
  }

  lemma UpgradeMismatches(plan: Plan, rt: Runtime, batch: seq<Candidate>, now: int, k: nat)
    requires WellFormed(plan) && Consistent(plan.after)
    requires Installation.Installed(plan.after, rt, batch, now).Ok?
    requires k < |Installation.Installed(plan.after, rt, batch, now).value.changed|
    requires HasMember(plan, Installation.Installed(plan.after, rt, batch, now).value.changed[k].id.name)
    requires var n := Installation.Installed(plan.after, rt, batch, now).value.changed[k].id.name;
      n in plan.after.packages ==> plan.after.packages[n].upgradedAt != Some(now)
    ensures !AllMatch(JournalOf(plan), Installation.Installed(plan.after, rt, batch, now).value.tables)
  {
    var o := Installation.Installed(plan.after, rt, batch, now).value;
    var n := o.changed[k].id.name;
    CommitIsVisible(plan.after, rt, batch, now, k);
    OlderProjectionIsHarmless(plan.after, o.tables, n);
    var i :| 0 <= i < |plan.members| && plan.members[i].id.name == n;
    MemberMismatches(plan, o.tables, i);
  }

  /** A registration made while the journal of an earlier batch is still live: upgrading one of its
      members in a later second makes the next recovery put back files of two versions ago, under
      the newest registry. So no registration may start before the journal is gone. */
  lemma LaterUpgradeIsReverted(plan: Plan, f: Files, u: nat, rt: Runtime, batch: seq<Candidate>, now: int, k: nat)
    requires WellFormed(plan) && f.marker == Whole(JournalOf(plan)) && |f.cells| == |plan.units|
    requires |f.dirs| == |plan.members| && Present(f) && Consistent(plan.after)
    requires u < |plan.units| && plan.units[u].before.Some? && f.cells[u].backup == plan.units[u].before
    requires Installation.Installed(plan.after, rt, batch, now).Ok?
    requires k < |Installation.Installed(plan.after, rt, batch, now).value.changed|
    requires HasMember(plan, Installation.Installed(plan.after, rt, batch, now).value.changed[k].id.name)
    requires var n := Installation.Installed(plan.after, rt, batch, now).value.changed[k].id.name;
      n in plan.after.packages ==> plan.after.packages[n].upgradedAt != Some(now)
    ensures var db := Installation.Installed(plan.after, rt, batch, now).value.tables;
      Recovered(f, db).Some? && u < |Recovered(f, db).value.cells|
        && Recovered(f, db).value.cells[u].target == plan.units[u].before
  {
    UpgradeMismatches(plan, rt, batch, now, k);
    MismatchRestores(plan, f, Installation.Installed(plan.after, rt, batch, now).value.tables, u);
  }

  /** A crash while the journal is being written leaves it torn; every later recovery refuses it,
      although nothing was switched. */
  lemma TornJournalBlocks(plan: Plan, w: World)
    requires WellFormed(plan) && w.images != [] && SafeWorld(plan, w)
    requires Last(w).marker == Absent && w.db == plan.before && AllOld(plan, Last(w))
    ensures Permitted(plan, w, BeginMarker)
    ensures var f := Last(Apply(w, BeginMarker));
      f.marker == Torn && AllOld(plan, f) && Recovered(f, plan.before) == None
  {
  }
}
