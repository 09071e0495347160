/** Explicit runs of single disk operations: how far the switch of a batch gets before a crash. */
module SwitchRuns {
  import opened Wrappers
  import opened Recovery
  import opened Switching

  ghost function Ran(w: World, ops: seq<Op>): (r: World)
    requires w.images != []
    ensures r.images != []
    decreases |ops|
  {
    if ops == [] then w else Ran(Apply(w, ops[0]), ops[1..])
  }

  ghost predicate Allowed(plan: Plan, w: World, ops: seq<Op>)
    requires |plan.units| == 2 * |plan.members| && w.images != []
    decreases |ops|
  {
    ops == [] || (Permitted(plan, w, ops[0]) && Allowed(plan, Apply(w, ops[0]), ops[1..]))
  }

  /** The states of a run, one after each operation. */
  ghost function Trace(w: World, ops: seq<Op>): (r: seq<World>)
    requires w.images != []
    ensures r != [] && r[0] == w && r[|r| - 1] == Ran(w, ops)
    decreases |ops|
  {
    if ops == [] then [w] else [w] + Trace(Apply(w, ops[0]), ops[1..])
  }

  lemma {:induction false} TraceIsBehaviour(plan: Plan, w: World, ops: seq<Op>)
    requires |plan.units| == 2 * |plan.members| && w.images != [] && Allowed(plan, w, ops)
    ensures Behaviour(plan, Trace(w, ops))
    decreases |ops|
  {
    var ws := Trace(w, ops);
    if ops != [] {
      var v := Apply(w, ops[0]);
      var rest := Trace(v, ops[1..]);
      TraceIsBehaviour(plan, v, ops[1..]);
      assert ws == [w] + rest;
      assert Next(plan, w, v);
      forall i {:trigger NextAt(plan, ws, i)} | 0 <= i < |ws| - 1 ensures ws[i].images != [] && NextAt(plan, ws, i) {
        if i > 0 {
          assert NextAt(plan, rest, i - 1);
        }
      }
      assert forall i :: 0 <= i < |ws| ==> ws[i] == if i == 0 then w else rest[i - 1];
    }
  }

  lemma {:induction false} ThenRun(plan: Plan, w: World, a: seq<Op>, b: seq<Op>)
    requires |plan.units| == 2 * |plan.members| && w.images != []
    ensures Ran(w, a + b) == Ran(Ran(w, a), b)
    ensures Allowed(plan, w, a + b) <==> Allowed(plan, w, a) && Allowed(plan, Ran(w, a), b)
    decreases |a|
  {
    if a == [] {
      assert a + b == b;
    } else {
      assert (a + b)[0] == a[0] && (a + b)[1..] == a[1..] + b;
      ThenRun(plan, Apply(w, a[0]), a[1..], b);
    }
  }

  lemma OneOp(plan: Plan, w: World, op: Op)
    requires |plan.units| == 2 * |plan.members| && w.images != []
    ensures Ran(w, [op]) == Apply(w, op) && (Allowed(plan, w, [op]) <==> Permitted(plan, w, op))
  {
    assert [op][1..] == [];
    assert Ran(Apply(w, op), []) == Apply(w, op);
  }

  /** A freshly staged batch: nothing moved, every candidate in its directory, no journal. */
  ghost predicate IsStaged(plan: Plan, f: Files) {
    && f.marker == Absent && |f.dirs| == |plan.members| && Present(f) && SwitchedUpTo(plan, f, 0)
  }

  /** The journal stands over a batch whose first n targets are switched. */
  ghost predicate SwitchingAt(plan: Plan, w: World, n: nat)
    requires |plan.units| == 2 * |plan.members|
  {
    && w.images != [] && w.db == plan.before && Last(w).marker == Whole(JournalOf(plan))
    && |Last(w).dirs| == |plan.members| && Present(Last(w)) && SwitchedUpTo(plan, Last(w), n)
  }

  function JournalOps(plan: Plan): seq<Op>
    requires |plan.units| == 2 * |plan.members|
  {
    [BeginMarker] + [WriteMarker(JournalOf(plan))]
  }

  const SYNCS: seq<Op> := [Sync, Sync]

  lemma SyncsRun(plan: Plan, w: World)
    requires |plan.units| == 2 * |plan.members| && w.images != []
    ensures Allowed(plan, w, SYNCS) && Ran(w, SYNCS) == World([Last(w)], w.db)
  {
    OneOp(plan, w, Sync);
    OneOp(plan, Apply(w, Sync), Sync);
    ThenRun(plan, w, [Sync], [Sync]);
    assert [Sync] + [Sync] == SYNCS;
  }

  function PublishOps(plan: Plan): seq<Op>
    requires |plan.units| == 2 * |plan.members|
  {
    JournalOps(plan) + SYNCS
  }

  lemma PublishRuns(plan: Plan, f: Files)
    requires |plan.units| == 2 * |plan.members| && IsStaged(plan, f)
    ensures Allowed(plan, World([f], plan.before), PublishOps(plan))
    ensures SwitchingAt(plan, Ran(World([f], plan.before), PublishOps(plan)), 0)
  {
    var w := World([f], plan.before);
    JournalRuns(plan, f);
    SyncsRun(plan, Ran(w, JournalOps(plan)));
    ThenRun(plan, w, JournalOps(plan), SYNCS);
  }

  lemma JournalRuns(plan: Plan, f: Files)
    requires |plan.units| == 2 * |plan.members| && IsStaged(plan, f)
    ensures Allowed(plan, World([f], plan.before), JournalOps(plan))
    ensures SwitchingAt(plan, Ran(World([f], plan.before), JournalOps(plan)), 0)
    ensures Last(Ran(World([f], plan.before), JournalOps(plan))) == f.(marker := Whole(JournalOf(plan)))
  {
    var w := World([f], plan.before);
    StagedIsOld(plan, f);
    OneOp(plan, w, BeginMarker);
    var v := Apply(w, BeginMarker);
    StagedIsOld(plan, Last(v));
    OneOp(plan, v, WriteMarker(JournalOf(plan)));
    ThenRun(plan, w, [BeginMarker], [WriteMarker(JournalOf(plan))]);
  }

  function UnitOps(plan: Plan, u: nat): seq<Op>
    requires u < |plan.units|
  {
    (if plan.units[u].before.Some? then [MoveAside(u)] else []) +
      (if plan.units[u].after.Some? then [MoveIn(u)] else [])
  }

  function MoveOps(plan: Plan, n: nat): seq<Op>
    requires n <= |plan.units|
  {
    if n == 0 then [] else MoveOps(plan, n - 1) + (UnitOps(plan, n - 1) + SYNCS)
  }

  lemma UnitRuns(plan: Plan, w: World, u: nat)
    requires |plan.units| == 2 * |plan.members| && u < |plan.units| && SwitchingAt(plan, w, u)
    ensures Allowed(plan, w, UnitOps(plan, u)) && SwitchingAt(plan, Ran(w, UnitOps(plan, u)), u + 1)
  {
    var a := if plan.units[u].before.Some? then [MoveAside(u)] else [];
    var b := if plan.units[u].after.Some? then [MoveIn(u)] else [];
    OneOp(plan, w, MoveAside(u));
    var v := Ran(w, a);
    assert Last(v).cells[u] == Cell(None, plan.units[u].before, plan.units[u].after);
    OneOp(plan, v, MoveIn(u));
    ThenRun(plan, w, a, b);
  }

  lemma TargetRuns(plan: Plan, w: World, u: nat)
    requires |plan.units| == 2 * |plan.members| && u < |plan.units| && SwitchingAt(plan, w, u)
    ensures Allowed(plan, w, UnitOps(plan, u) + SYNCS)
    ensures SwitchingAt(plan, Ran(w, UnitOps(plan, u) + SYNCS), u + 1)
    ensures |Ran(w, UnitOps(plan, u) + SYNCS).images| == 1
  {
    UnitRuns(plan, w, u);
    SyncsRun(plan, Ran(w, UnitOps(plan, u)));
    ThenRun(plan, w, UnitOps(plan, u), SYNCS);
  }

  /** The move loop gets as far as any target. */
  lemma {:induction false} MovesRun(plan: Plan, w: World, n: nat)
    requires |plan.units| == 2 * |plan.members| && n <= |plan.units| && SwitchingAt(plan, w, 0)
    ensures Allowed(plan, w, MoveOps(plan, n)) && SwitchingAt(plan, Ran(w, MoveOps(plan, n)), n)
    ensures n > 0 ==> |Ran(w, MoveOps(plan, n)).images| == 1
  {
    if n == 0 {
      NothingMoves(plan, w);
    } else {
      MovesRun(plan, w, n - 1);
      NextTargetRuns(plan, w, n - 1);
    }
  }

  lemma NothingMoves(plan: Plan, w: World)
    requires |plan.units| == 2 * |plan.members| && w.images != []
    ensures Allowed(plan, w, MoveOps(plan, 0)) && Ran(w, MoveOps(plan, 0)) == w
  {
  }

  lemma NextTargetRuns(plan: Plan, w: World, n: nat)
    requires |plan.units| == 2 * |plan.members| && n < |plan.units| && w.images != []
    requires Allowed(plan, w, MoveOps(plan, n)) && SwitchingAt(plan, Ran(w, MoveOps(plan, n)), n)
    ensures Allowed(plan, w, MoveOps(plan, n + 1)) && SwitchingAt(plan, Ran(w, MoveOps(plan, n + 1)), n + 1)
    ensures |Ran(w, MoveOps(plan, n + 1)).images| == 1
  {
    TargetRuns(plan, Ran(w, MoveOps(plan, n)), n);
    ThenRun(plan, w, MoveOps(plan, n), UnitOps(plan, n) + SYNCS);
  }

  /** What a crash before the commit can leave of a staged batch. */
  ghost predicate Interrupted(plan: Plan, start: Files, f: Files)
    requires |plan.units| == 2 * |plan.members|
  {
    exists ws: seq<World>, n: nat, i: nat :: CrashLeaves(plan, start, f, ws, n, i)
  }

  ghost predicate CrashLeaves(plan: Plan, start: Files, f: Files, ws: seq<World>, n: nat, i: nat)
    requires |plan.units| == 2 * |plan.members|
  {
    && Behaviour(plan, ws) && ws[0] == World([start], plan.before) && n < |ws|
    && i < |ws[n].images| && ws[n].images[i] == f && ws[n].db == plan.before
  }

  lemma RunCanCrash(plan: Plan, start: Files, ops: seq<Op>)
    requires |plan.units| == 2 * |plan.members| && Allowed(plan, World([start], plan.before), ops)
    requires Ran(World([start], plan.before), ops).db == plan.before
    ensures Interrupted(plan, start, Last(Ran(World([start], plan.before), ops)))
  {
    var w := World([start], plan.before);
    var ws := Trace(w, ops);
    TraceIsBehaviour(plan, w, ops);
    var v := ws[|ws| - 1];
    assert CrashLeaves(plan, start, Last(v), ws, |ws| - 1, |v.images| - 1);
  }

  /** The journal is written and the first n targets are switched. */
  lemma SwitchingRuns(plan: Plan, start: Files, n: nat)
    requires |plan.units| == 2 * |plan.members| && IsStaged(plan, start) && n <= |plan.units|
    ensures var w, ops := World([start], plan.before), PublishOps(plan) + MoveOps(plan, n);
      && Allowed(plan, w, ops) && SwitchingAt(plan, Ran(w, ops), n)
      && (n > 0 ==> |Ran(w, ops).images| == 1)
  {
    var w := World([start], plan.before);
    PublishRuns(plan, start);
    MovesRun(plan, Ran(w, PublishOps(plan)), n);
    ThenRun(plan, w, PublishOps(plan), MoveOps(plan, n));
  }

  /** The loop can be stopped right after the target u left its place, or right after new content came
      to a place that held nothing. */
  lemma TargetLooseIsReached(plan: Plan, start: Files, u: nat) returns (f: Files)
    requires |plan.units| == 2 * |plan.members| && IsStaged(plan, start) && u < |plan.units|
    requires plan.units[u].before.Some? || plan.units[u].after.Some?
    ensures Interrupted(plan, start, f) && f.marker == Whole(JournalOf(plan))
    ensures |f.dirs| == |plan.members| && Present(f) && |f.cells| == |plan.units|
    ensures f.cells[u] == if plan.units[u].before.Some? then Cell(None, plan.units[u].before, plan.units[u].after)
                          else Cell(plan.units[u].after, None, None)
    ensures AllRestorable(plan, f)
  {
    var w, ops := World([start], plan.before), PublishOps(plan) + MoveOps(plan, u);
    SwitchingRuns(plan, start, u);
    var x := Ran(w, ops);
    var op := if plan.units[u].before.Some? then MoveAside(u) else MoveIn(u);
    OneOp(plan, x, op);
    ThenRun(plan, w, ops, [op]);
    RunCanCrash(plan, start, ops + [op]);
    f := Last(Apply(x, op));
  }

  /** Some behaviour from the staged batch arrives at this state. */
  ghost predicate Arrives(plan: Plan, start: Files, w: World)
    requires |plan.units| == 2 * |plan.members|
  {
    exists ws: seq<World>, n: nat :: ArrivesBy(plan, start, w, ws, n)
  }

  ghost predicate ArrivesBy(plan: Plan, start: Files, w: World, ws: seq<World>, n: nat)
    requires |plan.units| == 2 * |plan.members|
  {
    Behaviour(plan, ws) && ws[0] == World([start], plan.before) && n < |ws| && ws[n] == w
  }

  /** Every target is switched and the batch committed; the cleanup has not begun. */
  lemma CommitIsReached(plan: Plan, start: Files) returns (f: Files)
    requires |plan.units| == 2 * |plan.members| > 0 && IsStaged(plan, start)
    ensures Arrives(plan, start, World([f], plan.after)) && f.marker == Whole(JournalOf(plan))
    ensures |f.dirs| == |plan.members| && Present(f) && SwitchedUpTo(plan, f, |plan.units|)
  {
    var w, ops := World([start], plan.before), PublishOps(plan) + MoveOps(plan, |plan.units|);
    SwitchingRuns(plan, start, |plan.units|);
    var x := Ran(w, ops);
    f := Last(x);
    SwitchedIsNew(plan, f);
    OneOp(plan, x, Commit(plan.after));
    ThenRun(plan, w, ops, [Commit(plan.after)]);
    TraceIsBehaviour(plan, w, ops + [Commit(plan.after)]);
    var ws := Trace(w, ops + [Commit(plan.after)]);
    assert ArrivesBy(plan, start, World([f], plan.after), ws, |ws| - 1);
  }
}
