/** The imperative switch, rollback, cleanup and startup recovery of one batch, each made of
    single disk operations and looks at the disk that can fail. Every state they pass through
    is recorded. */
module Switching {
  import opened Wrappers
  import opened Identity
  import opened Registration
  import opened Facts
  import opened Recovery

  datatype Outcome =
    | Committed(cleaned: bool)
    | RolledBack(cleaned: bool)
    | RollbackFailed
    | NotStarted

  datatype RecoveryError = BrokenJournal | Io

  /** How restoring the targets of a journal ended: a staging directory may be missing, or an
      operation or a look may fail. */
  datatype Restoring = Done | Missing | Stopped

  ghost predicate AllSafe(plan: Plan, ws: seq<World>)
    requires |plan.units| == 2 * |plan.members|
  {
    forall i :: 0 <= i < |ws| ==> SafeWorld(plan, ws[i])
  }

  lemma OneSafe(plan: Plan, w: World)
    requires |plan.units| == 2 * |plan.members| && SafeWorld(plan, w)
    ensures AllSafe(plan, [w])
  {
  }

  lemma OneMoreSafe(plan: Plan, ws: seq<World>, w: World)
    requires |plan.units| == 2 * |plan.members| && AllSafe(plan, ws) && SafeWorld(plan, w)
    ensures AllSafe(plan, ws + [w])
  {
  }

  function Below(n: nat): (r: set<nat>)
    ensures forall k: nat :: k in r <==> k < n
  {
    if n == 0 then {} else Below(n - 1) + {n - 1}
  }

  class Host {
    ghost const plan: Plan
    var world: World
    ghost var history: seq<World>
    /** Whether no disk operation and no look ever fails here. */
    const reliable: bool

    ghost predicate Valid()
      reads this
    {
      && WellFormed(plan) && Distinguishes(plan)
      && SafeWorld(plan, world)
      && AllSafe(plan, history)
    }

    function Current(): Files
      reads this
      requires world.images != []
    {
      Last(world)
    }

    /** The journal stands, the registry is old, and every target can be restored. */
    ghost predicate Live()
      reads this
      requires Valid()
    {
      Current().marker == Whole(JournalOf(plan)) && world.db == plan.before && AllRestorable(plan, Current())
    }

    constructor (ghost plan: Plan, world: World, reliable: bool)
      requires WellFormed(plan) && Distinguishes(plan) && SafeWorld(plan, world)
      ensures Valid() && this.plan == plan && this.world == world && history == [world]
      ensures this.reliable == reliable
    {
      this.plan, this.reliable := plan, reliable;
      this.world := world;
      this.history := [world];
      OneSafe(plan, world);
    }

    /** One operation. It takes place and is recorded, or fails and changes nothing. A sound one keeps
        every crash state safe. */
    method Act(op: Op, ghost sound: bool) returns (ok: bool)
      requires world.images != [] && (sound ==> Valid() && Permitted(plan, world, op))
      modifies this
      ensures world.images != [] && (sound ==> Valid())
      ensures ok ==> world == Apply(old(world), op) && history == old(history) + [world]
      ensures !ok ==> world == old(world) && history == old(history)
      ensures reliable ==> ok
    {
      if sound {
        FactsDecide(plan);
        StepIsSafe(plan, world, op);
        OneMoreSafe(plan, history, Apply(world, op));
      }
      ok := *;
      ok := ok || reliable;
      if ok {
        world := Apply(world, op);
        history := history + [world];
      }
    }

    method Perform(op: Op) returns (ok: bool)
      requires Valid() && Permitted(plan, world, op)
      modifies this
      ensures Valid()
      ensures ok ==> world == Apply(old(world), op) && history == old(history) + [world]
      ensures !ok ==> world == old(world) && history == old(history)
      ensures reliable ==> ok
    {
      ok := Act(op, true);
    }

    /** Ask whether something is there, taking a failed look for absence. */
    method SeenThere(there: bool) returns (seen: bool)
      ensures seen ==> there
      ensures reliable ==> seen == there
    {
      seen := *;
      seen := there && (seen || reliable);
    }

    /** Ask whether something is there; a failed look is an error. */
    method LookThere(there: bool) returns (r: Option<bool>)
      ensures r.Some? ==> r.value == there
      ensures reliable ==> r.Some?
    {
      var ok := *;
      r := if ok || reliable then Some(there) else None;
    }

    /** An operation on one target while the journal is live. */
    method PerformLive(op: Op, u: nat) returns (ok: bool)
      requires Valid() && Live() && Permitted(plan, world, op) && u < |plan.units|
      requires op in {MoveAside(u), MoveIn(u), Spoil(u), RemoveTarget(u), MoveBack(u)}
      modifies this
      ensures Valid() && Live() && old(history) <= history
      ensures OthersUnchanged(old(Current()), Current(), u)
      ensures ok ==> Current() == Effect(old(Current()), op)
      ensures !ok ==> Current() == old(Current())
      ensures reliable ==> ok
    {
      FactsDecide(plan);
      ok := Perform(op);
      LastIsSafe(plan, world);
      AllRestorableNow();
    }

    /** With a whole journal and the old registry the last image can be restored. */
    lemma AllRestorableNow()
      requires Valid() && Current().marker == Whole(JournalOf(plan)) && world.db == plan.before
      ensures Live() && (Present(Current()) || Untouched(plan, Current()))
    {
      FactsDecide(plan);
      LastIsSafe(plan, world);
    }

    /** Remove one target, if there is one. Removing a directory can stop half way. */
    method RemoveIfPresent(u: nat) returns (ok: bool)
      requires Valid() && Live() && u < |plan.units|
      requires Current().cells[u].target.Some? ==>
        Present(Current()) && Removable(plan.units[u], Current().cells[u])
      modifies this
      ensures Valid() && Live() && old(history) <= history
      ensures OthersUnchanged(old(Current()), Current(), u)
      ensures ok ==> Current().cells[u] == old(Current()).cells[u].(target := None)
      ensures reliable ==> ok
    {
      if Current().cells[u].target.None? {
        return true;
      }
      if u % 2 == 1 {
        ok := PerformLive(Spoil(u), u);
        if !ok { return; }
      }
      ok := PerformLive(RemoveTarget(u), u);
    }

    /** Put one backup back. */
    method PutBack(u: nat) returns (ok: bool)
      requires Valid() && Live() && u < |plan.units| && Present(Current())
      requires plan.units[u].before.Some? && Current().cells[u].backup == plan.units[u].before
      requires Current().cells[u].target.None?
      modifies this
      ensures Valid() && Live() && old(history) <= history
      ensures OthersUnchanged(old(Current()), Current(), u)
      ensures ok ==> Current().cells[u] == Restored(true, plan.units[u].after.Some?, old(Current()).cells[u])
      ensures reliable ==> ok
    {
      ok := PerformLive(MoveBack(u), u);
    }

    method Flush() returns (ok: bool)
      requires Valid()
      modifies this
      ensures Valid() && Current() == old(Current()) && world.db == old(world.db)
      ensures old(history) <= history
      ensures ok ==> world.images == [Current()]
      ensures reliable ==> ok
    {
      ok := Perform(Sync);
    }

    // ---------------------------------------------------------- forward switch

    /** Move every old target aside and every candidate in, syncing after each target. */
    method MoveAll(flags: seq<(bool, bool)>) returns (ok: bool)
      requires Valid() && Live() && Present(Current())
      requires SwitchedUpTo(plan, Current(), 0) && FlagsOf(plan, flags)
      modifies this
      ensures Valid() && Live() && Present(Current()) && old(history) <= history
      ensures ok ==> SwitchedUpTo(plan, Current(), |plan.units|) && |world.images| == 1
      ensures reliable ==> ok
    {
      FactsDecide(plan);
      for u := 0 to |flags|
        invariant Valid() && Live() && Present(Current()) && old(history) <= history
        invariant SwitchedUpTo(plan, Current(), u) && (u > 0 ==> |world.images| == 1)
      {
        ok := MoveOne(u, flags[u]);
        if !ok { return; }
        ok := Flush();
        if !ok { return; }
        ok := Flush();
        if !ok { return; }
      }
      ok := true;
    }

    method MoveOne(u: nat, flags: (bool, bool)) returns (ok: bool)
      requires Valid() && Live() && Present(Current()) && u < |plan.units|
      requires SwitchedUpTo(plan, Current(), u) && flags == FlagOf(plan.units[u])
      modifies this
      ensures Valid() && Live() && Present(Current()) && old(history) <= history
      ensures ok ==> SwitchedUpTo(plan, Current(), u + 1)
      ensures reliable ==> ok
    {
      if flags.0 {
        ok := PerformLive(MoveAside(u), u);
        if !ok { return; }
      }
      if flags.1 {
        ok := PerformLive(MoveIn(u), u);
        if !ok { return; }
      }
      ok := true;
    }

    // ---------------------------------------------------------- in-process rollback

    /** Undo the switch while the process still runs. Every target is restored by recovery's rule, except
        the missed ones: their backup is there but the look at it failed, and they stay as they were. */
    method Rollback(flags: seq<(bool, bool)>) returns (ok: bool, ghost missed: set<nat>)
      requires Valid() && Live() && Present(Current()) && FlagsOf(plan, flags)
      modifies this
      ensures Valid() && Live() && Present(Current()) && old(history) <= history
      ensures ok ==> RestoredBut(plan, old(Current()), Current(), |plan.units|, missed)
      ensures reliable ==> ok && missed == {}
    {
      FactsDecide(plan);
      ghost var start := Current();
      missed := {};
      for u := 0 to |flags|
        invariant Valid() && Live() && Present(Current()) && old(history) <= history
        invariant RestoredBut(plan, start, Current(), u, missed) && (reliable ==> missed == {})
      {
        ok, missed := RollbackNext(u, flags[u], start, missed);
        if !ok { return; }
      }
      ok := true;
    }

    method RollbackNext(u: nat, flag: (bool, bool), ghost start: Files, ghost missed: set<nat>)
      returns (ok: bool, ghost after: set<nat>)
      requires Valid() && Live() && Present(Current()) && u < |plan.units| && flag == FlagOf(plan.units[u])
      requires AllRestorable(plan, start) && RestoredBut(plan, start, Current(), u, missed)
      modifies this
      ensures Valid() && Live() && Present(Current()) && old(history) <= history
      ensures ok ==> RestoredBut(plan, start, Current(), u + 1, after)
      ensures reliable ==> ok && after == missed
    {
      ghost var before := Current();
      NextIsRestorable(plan, start, before, u, missed);
      ghost var skipped;
      ok, skipped := RollbackOne(u, flag.0, flag.1);
      after := if skipped then missed + {u} else missed;
      if !ok { return; }
      RestoredStep(plan, start, before, Current(), u, missed, skipped);
      ok := Flush();
      if !ok { return; }
      ok := Flush();
    }

    method RollbackOne(u: nat, wasOld: bool, wasNew: bool) returns (ok: bool, ghost skipped: bool)
      requires Valid() && Live() && Present(Current()) && u < |plan.units|
      requires Restorable(plan.units[u], Current().cells[u]) && (wasOld, wasNew) == FlagOf(plan.units[u])
      modifies this
      ensures Valid() && Live() && old(history) <= history
      ensures OthersUnchanged(old(Current()), Current(), u)
      ensures skipped ==> old(Current()).cells[u].backup.Some? && Current().cells[u] == old(Current()).cells[u]
      ensures ok && !skipped ==> Current().cells[u] == Restored(wasOld, wasNew, old(Current()).cells[u])
      ensures reliable ==> ok && !skipped
    {
      var c := Current().cells[u];
      var hasBackup := SeenThere(c.backup.Some?);
      var sourceExists := SeenThere(c.candidate.Some?);
      skipped := c.backup.Some? && !hasBackup;
      if hasBackup || (!wasOld && wasNew && !sourceExists) {
        ok := RemoveIfPresent(u);
        if !ok { return; }
      }
      if hasBackup {
        ok := PutBack(u);
        if !ok { return; }
      }
      ok := true;
    }

    // ---------------------------------------------------------- cleanup

    /** Invalidate the journal first, then drop the staging directory. It does so whether or not the
        targets are as they should be; sound says that they are. */
    method Cleanup(ghost sound: bool) returns (ok: bool)
      requires world.images != [] && (sound ==> Valid() && Settled(plan, Current(), world.db))
      modifies this
      ensures world.images != [] && (sound ==> Valid())
      ensures old(history) <= history && world.db == old(world.db)
      ensures SameTargets(old(Current()), Current())
      ensures Current().marker == Absent || Current().marker == old(Current()).marker
      ensures ok ==> Current() == CleanedUp(old(Current()).cells, |old(Current()).dirs|)
      ensures ok ==> world.images == [Current()]
      ensures reliable ==> ok
    {
      ghost var start := Current();
      ok := Act(Unlink, sound);
      if !ok { return; }
      ok := Act(Sync, sound);
      if !ok { return; }
      ok := DiscardAll(sound);
      if !ok { return; }
      ok := Act(Sync, sound);
      assert ok ==> Current().cells == Cleared(start.cells);
    }

    method DiscardAll(ghost sound: bool) returns (ok: bool)
      requires world.images != [] && Current().marker == Absent && (sound ==> Valid())
      modifies this
      ensures world.images != [] && (sound ==> Valid())
      ensures old(history) <= history && world.db == old(world.db)
      ensures SameTargets(old(Current()), Current()) && Current().marker == Absent
      ensures ok ==> Current() == CleanedUp(old(Current()).cells, |old(Current()).dirs|)
      ensures reliable ==> ok
    {
      ok := DiscardCells(sound);
      if !ok { return; }
      ghost var start := Current();
      for i := 0 to |Current().dirs|
        invariant world.images != [] && (sound ==> Valid())
        invariant old(history) <= history && world.db == old(world.db)
        invariant Current() == Files(Absent, start.cells, Current().dirs) && |Current().dirs| == |start.dirs|
        invariant forall k :: 0 <= k < i && k < |start.dirs| ==> !Current().dirs[k]
      {
        if sound {
          LastIsSafe(plan, world);
        }
        ok := Act(DropDirectory(i), sound);
        if !ok { return; }
      }
      ok := true;
    }

    method DiscardCells(ghost sound: bool) returns (ok: bool)
      requires world.images != [] && Current().marker == Absent && (sound ==> Valid())
      modifies this
      ensures world.images != [] && (sound ==> Valid())
      ensures old(history) <= history && world.db == old(world.db)
      ensures SameTargets(old(Current()), Current()) && Current().marker == Absent
      ensures Current().dirs == old(Current()).dirs
      ensures ok ==> Current().cells == Cleared(old(Current()).cells)
      ensures reliable ==> ok
    {
      ghost var start := Current();
      for u := 0 to |Current().cells|
        invariant world.images != [] && (sound ==> Valid())
        invariant old(history) <= history && world.db == old(world.db)
        invariant Current().marker == Absent && Current().dirs == start.dirs && SameTargets(start, Current())
        invariant forall i :: 0 <= i < u && i < |Current().cells| ==>
          Current().cells[i] == Cell(start.cells[i].target, None, None)
      {
        if sound {
          LastIsSafe(plan, world);
        }
        ok := Act(Discard(u), sound);
        if !ok { return; }
      }
      assert Current().cells == Cleared(start.cells);
      ok := true;
    }

    /** The registry is old and nothing was moved. */
    ghost predicate Abandoning()
      reads this
    {
      Valid() && world.db == plan.before && Untouched(plan, Current())
    }

    /** The slots outside these units are emptied. */
    ghost predicate EmptiedBut(units: set<nat>)
      reads this
      requires Abandoning()
    {
      forall u: nat :: u < |plan.units| && u !in units ==> Emptied(CellAt(Current(), u))
    }

    method AbandonJournal() returns (ok: bool)
      requires Abandoning()
      modifies this
      ensures Abandoning() && old(history) <= history && Current().cells == old(Current()).cells
      ensures ok ==> Current().marker == Absent
      ensures reliable ==> ok
    {
      ok := Perform(Unlink);
    }

    method AbandonUnit(u: nat, ghost rest: set<nat>) returns (ok: bool)
      requires Abandoning() && u < |plan.units| && EmptiedBut(rest)
      modifies this
      ensures Abandoning() && old(history) <= history && Current().marker == old(Current()).marker
      ensures EmptiedBut(if ok then rest - {u} else rest)
      ensures reliable ==> ok
    {
      ok := Perform(Discard(u));
    }

    method AbandonDirectory(i: nat) returns (ok: bool)
      requires Abandoning() && i < |plan.members|
      requires Emptied(CellAt(Current(), 2 * i)) && Emptied(CellAt(Current(), 2 * i + 1))
      requires Current().marker == Absent || plan.members[i].directory != ""
      modifies this
      ensures Abandoning() && old(history) <= history && Current().marker == old(Current()).marker
      ensures Current().cells == old(Current()).cells
      ensures reliable ==> ok
    {
      ok := Perform(DropDirectory(i));
    }

    /** Give up a batch whose switch never began: remove the staging directory, in whatever order its
        entries are listed. The journal may outlive the directories it names. */
    method AbandonStage(members: seq<Member>) returns (ok: bool)
      requires Abandoning() && members == plan.members
      modifies this
      ensures Abandoning() && old(history) <= history
      ensures ok ==> Current().marker == Absent
      ensures reliable ==> ok
    {
      LastIsSafe(plan, world);
      var marked := Current().marker != Absent;
      var units: set<nat> := Below(2 * |members|);
      var dirs: set<nat> := Below(|members|);
      while marked || units != {} || dirs != {}
        invariant Abandoning() && old(history) <= history && (marked <==> Current().marker != Absent)
        invariant units <= Below(2 * |members|) && dirs <= Below(|members|) && EmptiedBut(units)
        decreases marked, units, dirs
      {
        ok, marked, units, dirs := AbandonNext(members, marked, units, dirs);
        if !ok { return; }
      }
      ok := true;
    }

    /** Remove one entry that can be removed now. */
    method AbandonNext(members: seq<Member>, marked: bool, units: set<nat>, dirs: set<nat>)
      returns (ok: bool, stays: bool, us: set<nat>, ds: set<nat>)
      requires Abandoning() && members == plan.members && (marked <==> Current().marker != Absent)
      requires units <= Below(2 * |members|) && dirs <= Below(|members|) && EmptiedBut(units)
      requires marked || units != {} || dirs != {}
      modifies this
      ensures Abandoning() && old(history) <= history
      ensures ok ==> (stays <==> Current().marker != Absent) && EmptiedBut(us)
      ensures ok ==> us <= units && ds <= dirs && (stays ==> marked)
      ensures ok ==> (marked && !stays) || us < units || ds < dirs
      ensures reliable ==> ok
    {
      stays, us, ds := marked, units, dirs;
      if {
        case marked =>
          ok := AbandonJournal();
          stays := false;
        case units != {} =>
          var u: nat :| u in units;
          ok := AbandonUnit(u, units);
          us := units - {u};
        case exists i :: i in dirs && Removes(members, marked, units, i) =>
          var i: nat :| i in dirs && Removes(members, marked, units, i);
          ok := AbandonDirectory(i);
          ds := dirs - {i};
        case !marked && units == {} && dirs != {} =>
          var i: nat :| i in dirs;
          ok := AbandonDirectory(i);
          ds := dirs - {i};
      }
    }

    /** An empty directory of its own can go before the journal does; the one that holds the journal cannot. */
    static predicate Removes(members: seq<Member>, marked: bool, units: set<nat>, i: nat) {
      && i < |members| && 2 * i !in units && 2 * i + 1 !in units
      && (marked ==> members[i].directory != "")
    }

    // ---------------------------------------------------------- the whole commit

    /** Journal, switch, commit; on any failure undo. Committed means new files and the new registry.
        Rolled back means the old registry and every target old but the missed ones, whose backup could
        not be seen: those stay as they were and lose their backup to the cleanup. Only a missed target
        can break safety. */
    method CommitPackages(members: seq<Member>, tx: Tables) returns (o: Outcome, ghost missed: set<nat>)
      requires Valid() && members == plan.members && tx == plan.after && Present(Current())
      requires world.db == plan.before && Current().marker == Absent && SwitchedUpTo(plan, Current(), 0)
      modifies this
      ensures old(history) <= history && world.images != []
      ensures missed == {} ==> Valid()
      ensures forall u :: u in missed ==> u < |plan.units| && plan.units[u].before.Some?
      ensures o.Committed? ==> Valid() && world.db == plan.after && AllNew(plan, Current())
      ensures o.NotStarted? ==> Valid() && world.db == plan.before && AllOld(plan, Current())
      ensures o.RollbackFailed? ==> Valid() && world.db == plan.before && Live()
      ensures o.RolledBack? ==> world.db == plan.before && OldBut(plan, Current(), missed)
      ensures o.RolledBack? && o.cleaned ==> forall u :: u in missed ==> Current().cells[u].backup.None?
      ensures (o.Committed? || o.RolledBack?) && o.cleaned ==> Current().marker == Absent
      ensures reliable ==> o == Committed(true)
    {
      missed := {};
      var journal, flags, ok := BuildJournal(this, Current().cells, members, tx);
      StagedIsOld(plan, Current());
      if ok {
        ok := Publish(journal);
      }
      if !ok {
        ok := AbandonStage(members);
        return NotStarted, {};
      }
      ok := SwitchAndCommit(flags, tx);
      if !ok {
        o, missed := Undo(flags);
        return;
      }
      ok := CleanNewSide();
      o := Committed(ok);
    }

    method CleanNewSide() returns (ok: bool)
      requires Valid() && world.db == plan.after && AllNew(plan, Current())
      modifies this
      ensures Valid() && old(history) <= history && world.db == plan.after && AllNew(plan, Current())
      ensures ok ==> Current().marker == Absent
      ensures reliable ==> ok
    {
      ok := Cleanup(true);
    }

    method SwitchAndCommit(flags: seq<(bool, bool)>, tx: Tables) returns (ok: bool)
      requires Valid() && Live() && Present(Current())
      requires SwitchedUpTo(plan, Current(), 0) && FlagsOf(plan, flags) && tx == plan.after
      modifies this
      ensures Valid() && old(history) <= history
      ensures ok ==> world.db == plan.after && AllNew(plan, Current())
      ensures !ok ==> Live() && Present(Current())
      ensures reliable ==> ok
    {
      ok := MoveAll(flags);
      if ok {
        SwitchedIsNew(plan, Current());
        ok := Perform(Commit(tx));
      }
    }

    method Undo(flags: seq<(bool, bool)>) returns (o: Outcome, ghost missed: set<nat>)
      requires Valid() && Live() && Present(Current()) && FlagsOf(plan, flags)
      modifies this
      ensures old(history) <= history && world.images != [] && world.db == plan.before
      ensures missed == {} ==> Valid()
      ensures forall u :: u in missed ==> u < |plan.units| && plan.units[u].before.Some?
      ensures o.RolledBack? || o.RollbackFailed?
      ensures o.RolledBack? ==> OldBut(plan, Current(), missed) && (o.cleaned ==> Current().marker == Absent)
      ensures o.RolledBack? && o.cleaned ==> forall u :: u in missed ==> Current().cells[u].backup.None?
      ensures o.RollbackFailed? ==> Valid() && Live() && missed == {}
    {
      ghost var start := Current();
      var ok;
      ok, missed := Rollback(flags);
      if !ok {
        return RollbackFailed, {};
      }
      RestoredButExactly(plan, start, Current(), missed);
      ghost var restored := Current();
      ok := Cleanup(missed == {});
      OldButKept(plan, restored, Current(), missed);
      o := RolledBack(ok);
    }

    /** Write and sync the journal before the first rename. */
    method Publish(journal: seq<Entry>) returns (ok: bool)
      requires Valid() && journal == JournalOf(plan) && Present(Current())
      requires world.db == plan.before && Current().marker == Absent && SwitchedUpTo(plan, Current(), 0)
      modifies this
      ensures Valid() && old(history) <= history && world.db == plan.before
      ensures Current().cells == old(Current()).cells && Current().dirs == old(Current()).dirs
      ensures ok ==> Current().marker == Whole(journal) && Live()
      ensures reliable ==> ok
    {
      StagedIsOld(plan, Current());
      ok := Perform(BeginMarker);
      if !ok { return; }
      StagedIsOld(plan, Current());
      ok := Perform(WriteMarker(journal));
      if !ok { return; }
      AllRestorableNow();
      ok := Flush();
      if !ok { return; }
      ok := Flush();
    }

    // ---------------------------------------------------------- startup recovery

    /** Restore every target of the journal, member by member; each needs its staging directory. */
    method RestoreAll(journal: seq<Entry>) returns (r: Restoring)
      requires Valid() && Live() && Current().marker == Whole(journal) && ValidJournal(journal)
      modifies this
      ensures Valid() && Live() && old(history) <= history && Current().dirs == old(Current()).dirs
      ensures r.Done? ==> Present(Current()) && AllOld(plan, Current())
      ensures r.Done? ==> Current().cells == AllRestored(journal, old(Current()).cells)
      ensures r.Missing? ==> !Present(Current())
      ensures reliable ==> !r.Stopped?
    {
      FactsDecide(plan);
      LastIsSafe(plan, world);
      ghost var start := Current();
      for i := 0 to |journal|
        invariant Valid() && Live() && old(history) <= history
        invariant RestoredBut(plan, start, Current(), 2 * i, {})
        invariant forall k :: 0 <= k < i ==> start.dirs[k]
      {
        if !Current().dirs[i] {
          return Missing;
        }
        var ok := RestoreMember(i, journal[i], start);
        if !ok { return Stopped; }
      }
      AllAreRestored(plan, start, Current());
      r := Done;
    }

    method RestoreMember(i: nat, e: Entry, ghost start: Files) returns (ok: bool)
      requires Valid() && Live() && i < |plan.members| && e == EntryOf(plan, i)
      requires RestoredBut(plan, start, Current(), 2 * i, {}) && AllRestorable(plan, start)
      modifies this
      ensures Valid() && Live() && old(history) <= history
      ensures ok ==> RestoredBut(plan, start, Current(), 2 * i + 2, {})
      ensures Current().dirs == old(Current()).dirs
      ensures reliable ==> ok
    {
      for k := 0 to 2
        invariant Valid() && Live() && old(history) <= history
        invariant RestoredBut(plan, start, Current(), 2 * i + k, {})
      {
        var u := 2 * i + k;
        ghost var before := Current();
        NextIsRestorable(plan, start, before, u, {});
        ok := RestoreOne(u, e.resources[k].hadOld, e.resources[k].hasNew);
        if !ok { return; }
        RestoredStep(plan, start, before, Current(), u, {}, false);
        ok := Flush();
        if !ok { return; }
      }
      ok := Flush();
    }

    method RestoreOne(u: nat, hadOld: bool, hasNew: bool) returns (ok: bool)
      requires Valid() && Live() && u < |plan.units| && Restorable(plan.units[u], Current().cells[u])
      requires (hadOld, hasNew) == FlagOf(plan.units[u])
      modifies this
      ensures Valid() && Live() && old(history) <= history
      ensures OthersUnchanged(old(Current()), Current(), u)
      ensures ok ==> Current().cells[u] == Restored(hadOld, hasNew, old(Current()).cells[u])
      ensures reliable ==> ok
    {
      AllRestorableNow();
      var c := Current().cells[u];
      var backup := LookThere(c.backup.Some?);
      if backup.None? { return false; }
      if backup.value {
        ok := RemoveIfPresent(u);
        if !ok { return; }
        ok := PutBack(u);
      } else if !hadOld && hasNew {
        var candidate := LookThere(c.candidate.Some?);
        if candidate.None? { return false; }
        ok := true;
        if !candidate.value {
          ok := RemoveIfPresent(u);
        }
      } else {
        ok := true;
      }
    }

    /** Startup recovery. When it ends well nothing is left to recover, the files are those a complete
        recovery computes, and they are on the side the registry is on. A blocked state stays blocked, at
        this start and every later one. */
    method Recover() returns (r: Result<bool, RecoveryError>)
      requires Valid()
      modifies this
      ensures Valid() && old(history) <= history && world.db == old(world.db)
      ensures r.Ok? ==>
        && Some(Current()) == Recovered(old(Current()), world.db) && Current().marker == Absent
        && Settled(plan, Current(), world.db)
        && (r.value <==> old(Current()).marker.Whole? && world.db == plan.before)
      ensures r == Err(BrokenJournal) ==> Blocked(plan, old(Current()), world.db)
      ensures Blocked(plan, old(Current()), world.db) ==> r.Err? && Blocked(plan, Current(), world.db)
      ensures reliable ==> r != Err(Io)
    {
      ghost var start := Current();
      LastIsSafe(plan, world);
      RecoverySettles(plan, start, world.db);
      match Current().marker {
        case Absent => return Ok(false);
        case Torn => return Err(BrokenJournal);
        case Whole(journal) =>
          JournalIsAccepted(plan);
          FactsDecide(plan);
          var decision := DecideCommitted(journal, world.db);
          if decision.None? { return Err(BrokenJournal); }
          var committed := decision.value;
          if !committed {
            AllRestorableNow();
            var restored := RestoreAll(journal);
            if restored.Missing? { return Err(BrokenJournal); }
            if restored.Stopped? { return Err(Io); }
          }
          var ok := Cleanup(true);
          if !ok { return Err(Io); }
          r := Ok(!committed);
      }
    }
  }

  /** Look at every target and write down what a restart would need; any look can fail. */
  method BuildJournal(host: Host, cells: seq<Cell>, members: seq<Member>, tx: Tables)
    returns (journal: seq<Entry>, flags: seq<(bool, bool)>, ok: bool)
    requires |host.plan.units| == 2 * |host.plan.members| && members == host.plan.members && tx == host.plan.after
    requires |cells| == |host.plan.units|
    requires forall i :: 0 <= i < |cells| ==> cells[i] == Staged(host.plan.units[i])
    ensures ok ==> journal == JournalOf(host.plan) && FlagsOf(host.plan, flags)
    ensures host.reliable ==> ok
  {
    ghost var plan := host.plan;
    journal, flags := [], [];
    for i := 0 to |members|
      invariant JournalUpTo(plan, journal, i) && FlagsUpTo(plan, flags, 2 * i)
    {
      assert cells[2 * i] == Staged(plan.units[2 * i]) && cells[2 * i + 1] == Staged(plan.units[2 * i + 1]);
      var entry, both;
      entry, both, ok := Observe(host, cells[2 * i], cells[2 * i + 1], members[i], i, tx);
      if !ok { return; }
      JournalGrows(plan, journal, i, entry);
      FlagsGrow(plan, flags, 2 * i, both);
      journal := journal + [entry];
      flags := flags + both;
    }
    JournalIsWhole(plan, journal);
    ok := true;
  }

  ghost predicate JournalUpTo(plan: Plan, journal: seq<Entry>, i: nat)
    requires |plan.units| == 2 * |plan.members|
  {
    && i <= |plan.members| && |journal| == i
    && forall k {:trigger journal[k]} :: 0 <= k < i ==> journal[k] == EntryOf(plan, k)
  }

  ghost predicate FlagsUpTo(plan: Plan, flags: seq<(bool, bool)>, n: nat) {
    && n <= |plan.units| && |flags| == n
    && forall k {:trigger flags[k]} :: 0 <= k < n ==> flags[k] == FlagOf(plan.units[k])
  }

  lemma JournalGrows(plan: Plan, journal: seq<Entry>, i: nat, entry: Entry)
    requires |plan.units| == 2 * |plan.members| && JournalUpTo(plan, journal, i)
    requires i < |plan.members| && entry == EntryOf(plan, i)
    ensures JournalUpTo(plan, journal + [entry], i + 1)
  {
  }

  lemma FlagsGrow(plan: Plan, flags: seq<(bool, bool)>, n: nat, both: seq<(bool, bool)>)
    requires FlagsUpTo(plan, flags, n) && n + 2 <= |plan.units|
    requires both == [FlagOf(plan.units[n]), FlagOf(plan.units[n + 1])]
    ensures FlagsUpTo(plan, flags + both, n + 2)
  {
  }

  lemma JournalIsWhole(plan: Plan, journal: seq<Entry>)
    requires |plan.units| == 2 * |plan.members| && JournalUpTo(plan, journal, |plan.members|)
    ensures journal == JournalOf(plan)
  {
    forall k | 0 <= k < |journal| ensures journal[k] == JournalOf(plan)[k] {
      JournalAt(plan, k);
    }
  }

  method Observe(host: Host, lib: Cell, app: Cell, member: Member, i: nat, tx: Tables)
    returns (entry: Entry, flags: seq<(bool, bool)>, ok: bool)
    requires |host.plan.units| == 2 * |host.plan.members| && i < |host.plan.members|
    requires member == host.plan.members[i] && tx == host.plan.after
    requires lib == Staged(host.plan.units[2 * i]) && app == Staged(host.plan.units[2 * i + 1])
    ensures ok ==> entry == EntryOf(host.plan, i)
    ensures ok ==> flags == [FlagOf(host.plan.units[2 * i]), FlagOf(host.plan.units[2 * i + 1])]
    ensures host.reliable ==> ok
  {
    entry, flags, ok := Entry(member.id, member.directory, [], FactsV4(tx, member.id.name)), [], false;
    var oldLib := host.LookThere(lib.target.Some?);
    var newLib := host.LookThere(lib.candidate.Some?);
    var oldApp := host.LookThere(app.target.Some?);
    var newApp := host.LookThere(app.candidate.Some?);
    if oldLib.None? || newLib.None? || oldApp.None? || newApp.None? {
      return;
    }
    entry := entry.(resources := [Resource(Lib, oldLib.value, newLib.value),
      Resource(App, oldApp.value, newApp.value)]);
    flags := [(oldLib.value, newLib.value), (oldApp.value, newApp.value)];
    ok := true;
  }

  lemma StagedIsOld(plan: Plan, f: Files)
    requires SwitchedUpTo(plan, f, 0)
    ensures AllOld(plan, f) && Untouched(plan, f) && AllRestorable(plan, f)
  {
  }

  /** A staged batch with no journal yet is a safe start, so every crash result applies from here. */
  lemma StagedWorldIsSafe(plan: Plan, f: Files)
    requires |plan.units| == 2 * |plan.members| && |f.dirs| == |plan.members|
    requires f.marker == Absent && SwitchedUpTo(plan, f, 0)
    ensures SafeWorld(plan, World([f], plan.before))
  {
    var w := World([f], plan.before);
    StagedIsOld(plan, f);
    forall i: nat {:trigger SafeAt(plan, w, i)} | i < |w.images| ensures SafeAt(plan, w, i) {
      assert w.images[i] == f;
    }
  }

  /** Validate every entry before anything is restored, and compare its facts. */
  method DecideCommitted(journal: seq<Entry>, db: Tables) returns (decision: Option<bool>)
    ensures decision.Some? <==> ValidJournal(journal)
    ensures decision.Some? ==> (decision.value <==> AllMatch(journal, db))
  {
    if |journal| == 0 || |journal| > MAX_ENTRIES {
      return None;
    }
    var committed := true;
    var names: set<string> := {};
    for i := 0 to |journal|
      invariant forall n :: n in names <==> NamedBefore(journal, i, n)
      invariant ValidUpTo(journal, i)
      invariant committed <==> MatchUpTo(journal, db, i)
    {
      var e := journal[i];
      if !ValidName(e.id.name) || e.id.name in names
         || !(e.directory == e.id.name || (e.directory == "" && |journal| == 1))
         || |e.resources| != 2 || e.resources[0].kind != Lib || e.resources[1].kind != App {
        RefusedEntry(journal, i);
        return None;
      }
      names := names + {e.id.name};
      AcceptedEntry(journal, i);
      MatchStep(journal, db, i);
      committed := committed && Matches(e.facts, db, e.id.name);
    }
    decision := Some(committed);
  }

  ghost predicate NamedBefore(journal: seq<Entry>, i: nat, n: string)
    requires i <= |journal|
  {
    exists j :: 0 <= j < i && journal[j].id.name == n
  }

  ghost predicate ValidUpTo(journal: seq<Entry>, i: nat) {
    i <= |journal| && forall j :: 0 <= j < i ==> ValidEntry(journal, j)
  }

  ghost predicate MatchUpTo(journal: seq<Entry>, db: Tables, i: nat) {
    i <= |journal| && forall j :: 0 <= j < i ==> Matches(journal[j].facts, db, journal[j].id.name)
  }

  lemma MatchStep(journal: seq<Entry>, db: Tables, i: nat)
    requires i < |journal|
    ensures MatchUpTo(journal, db, i + 1) <==>
      MatchUpTo(journal, db, i) && Matches(journal[i].facts, db, journal[i].id.name)
  {
  }

  ghost predicate Shaped(journal: seq<Entry>, i: nat)
    requires i < |journal|
  {
    var e := journal[i];
    && ValidName(e.id.name) && !NamedBefore(journal, i, e.id.name)
    && (e.directory == e.id.name || (e.directory == "" && |journal| == 1))
    && |e.resources| == 2 && e.resources[0].kind == Lib && e.resources[1].kind == App
  }

  lemma RefusedEntry(journal: seq<Entry>, i: nat)
    requires i < |journal| && !Shaped(journal, i)
    ensures !ValidJournal(journal)
  {
    assert !ValidEntry(journal, i);
  }

  lemma AcceptedEntry(journal: seq<Entry>, i: nat)
    requires i < |journal| && Shaped(journal, i) && ValidUpTo(journal, i)
    ensures ValidUpTo(journal, i + 1)
    ensures forall n :: NamedBefore(journal, i + 1, n) <==> NamedBefore(journal, i, n) || n == journal[i].id.name
  {
  }

  ghost function FlagOf(u: Unit): (bool, bool) {
    (u.before.Some?, u.after.Some?)
  }

  ghost predicate FlagsOf(plan: Plan, flags: seq<(bool, bool)>) {
    |flags| == |plan.units| && forall i :: 0 <= i < |flags| ==> flags[i] == FlagOf(plan.units[i])
  }

  ghost predicate SameTargets(f: Files, g: Files) {
    |g.cells| == |f.cells| && forall i :: 0 <= i < |f.cells| ==> g.cells[i].target == f.cells[i].target
  }

  /** The targets below n are restored, but for the missed ones whose backup is still there, and the
      others are untouched. */
  ghost predicate RestoredBut(plan: Plan, f: Files, g: Files, n: int, missed: set<nat>) {
    && g.marker == f.marker && g.dirs == f.dirs && |g.cells| == |f.cells| == |plan.units|
    && (forall u :: u in missed ==> u < n && u < |f.cells| && f.cells[u].backup.Some?)
    && (forall i :: 0 <= i < n && i < |f.cells| ==>
      g.cells[i] == RestoredUnless(plan.units[i], f.cells[i], i in missed))
    && (forall i :: n <= i < |f.cells| && 0 <= i ==> g.cells[i] == f.cells[i])
  }

  function RestoredUnless(u: Unit, c: Cell, missed: bool): Cell {
    if missed then c else Restored(u.before.Some?, u.after.Some?, c)
  }

  /** Every target is old except the missed ones, and all are old exactly when those happen to be. */
  ghost predicate OldBut(plan: Plan, f: Files, missed: set<nat>) {
    && |f.cells| == |plan.units|
    && (forall u :: u in missed ==> u < |f.cells|)
    && (forall u: nat :: u < |f.cells| && u !in missed ==> IsOld(plan.units[u], f.cells[u]))
    && (AllOld(plan, f) <==> forall u :: u in missed ==> IsOld(plan.units[u], f.cells[u]))
  }

  lemma NextIsRestorable(plan: Plan, f: Files, g: Files, u: nat, missed: set<nat>)
    requires RestoredBut(plan, f, g, u, missed) && AllRestorable(plan, f) && u < |plan.units|
    ensures Restorable(plan.units[u], g.cells[u])
  {
  }

  lemma RestoredStep(plan: Plan, f: Files, g: Files, h: Files, u: nat, missed: set<nat>, skipped: bool)
    requires RestoredBut(plan, f, g, u, missed) && u < |plan.units| && OthersUnchanged(g, h, u)
    requires h.cells[u] == RestoredUnless(plan.units[u], g.cells[u], skipped)
    requires skipped ==> g.cells[u].backup.Some?
    ensures RestoredBut(plan, f, h, u + 1, if skipped then missed + {u} else missed)
  {
  }

  /** What a rollback restores: with nothing missed every target is old. */
  lemma RestoredButExactly(plan: Plan, f: Files, g: Files, missed: set<nat>)
    requires RestoredBut(plan, f, g, |plan.units|, missed) && AllRestorable(plan, f)
    ensures OldBut(plan, g, missed) && (missed == {} ==> AllOld(plan, g))
    ensures forall u :: u in missed ==> plan.units[u].before.Some? && g.cells[u] == f.cells[u]
  {
    forall u: nat | u < |g.cells| ensures u !in missed ==> IsOld(plan.units[u], g.cells[u]) {
      assert Restorable(plan.units[u], f.cells[u]);
      RestoringGivesOld(plan.units[u], f.cells[u]);
    }
    forall u | u in missed ensures plan.units[u].before.Some? {
      assert Restorable(plan.units[u], f.cells[u]);
    }
  }

  lemma AllAreRestored(plan: Plan, f: Files, g: Files)
    requires WellFormed(plan) && AllRestorable(plan, f) && RestoredBut(plan, f, g, |plan.units|, {})
    ensures AllOld(plan, g) && ValidJournal(JournalOf(plan)) && g.cells == AllRestored(JournalOf(plan), f.cells)
  {
    JournalIsAccepted(plan);
    RestoredButExactly(plan, f, g, {});
    RollbackAgreesExactly(plan, f, g, {});
  }

  lemma OldButKept(plan: Plan, f: Files, g: Files, missed: set<nat>)
    requires OldBut(plan, f, missed) && SameTargets(f, g)
    ensures OldBut(plan, g, missed)
  {
    forall u: nat | u < |f.cells| ensures IsOld(plan.units[u], g.cells[u]) <==> IsOld(plan.units[u], f.cells[u]) {
    }
  }

  /** In-process rollback and startup recovery restore the same files exactly when every present backup
      was seen. */
  lemma RollbackAgreesExactly(plan: Plan, f: Files, g: Files, missed: set<nat>)
    requires WellFormed(plan) && ValidJournal(JournalOf(plan)) && RestoredBut(plan, f, g, |plan.units|, missed)
    ensures g.cells == AllRestored(JournalOf(plan), f.cells) <==> missed == {}
  {
    var all := AllRestored(JournalOf(plan), f.cells);
    forall i | 0 <= i < |g.cells| ensures g.cells[i] == all[i] <==> i !in missed {
      RestoredUnit(plan, f.cells, i);
    }
    if missed != {} {
      var u :| u in missed;
      assert g.cells[u] != all[u];
    } else {
      assert forall i :: 0 <= i < |g.cells| ==> g.cells[i] == all[i];
    }
  }

  lemma SwitchedIsNew(plan: Plan, f: Files)
    requires SwitchedUpTo(plan, f, |plan.units|)
    ensures AllNew(plan, f)
  {
  }

  ghost predicate OthersUnchanged(f: Files, g: Files, u: nat) {
    && g.marker == f.marker && g.dirs == f.dirs && |g.cells| == |f.cells|
    && forall i :: 0 <= i < |f.cells| && i != u ==> g.cells[i] == f.cells[i]
  }

  function Switched(u: Unit): Cell {
    Cell(u.after, u.before, None)
  }

  function Staged(u: Unit): Cell {
    Cell(u.before, None, u.after)
  }

  /** The switch of the targets below n is done and the rest is as staged. */
  ghost predicate SwitchedUpTo(plan: Plan, f: Files, n: int) {
    && |f.cells| == |plan.units|
    && (forall i :: 0 <= i < n && i < |f.cells| ==> f.cells[i] == Switched(plan.units[i]))
    && (forall i :: n <= i < |f.cells| && 0 <= i ==> f.cells[i] == Staged(plan.units[i]))
  }
}
