/** The queue as an interleaved system: every run of claims, bindings, finishes, expiries,
    submissions, cancellations and their compensations under a clock that never goes back. */
module ContactRuns {
  import opened Sets
  import opened Wrappers
  import opened Contact

  /** `issued` remembers the last lease given for each row, `held` the snapshots of
      cancellations whose deletion has not ended yet. */
  datatype State = State(rows: Rows, top: nat, clock: int, issued: map<nat, int>, held: map<nat, Snapshot>)

  datatype Event =
    | Claim(t0: int, t1: int, t2: int)
    | Bind(id: nat, lease: int, binding: (int, string))
    | Finish(id: nat, lease: int, review: Option<Review>, outcome: Outcome, checked: int, from: int)
    | Expire(at: int)
    | Submit(target: string, validBefore: int, at: int, pinned: Option<(int, string)>)
    | Cancel(tested: Readings, written: Readings, until: int)
    | Restore(ids: set<nat>)
    | Delete(ids: set<nat>)

  predicate ReceiptStatus(s: Status) {
    s == Pending || s == Active || s == Status.Denied || s == Expired || s == Revoked
  }

  /** Events happen at the clock or later, and workers report a checked receipt. */
  ghost predicate Timely(s: State, e: Event) {
    match e
    case Claim(t0, t1, t2) => s.clock <= t0 <= t1 <= t2
    case Bind(_, _, _) => true
    case Finish(id, _, _, outcome, checked, from) =>
      && s.clock <= checked && s.clock <= from
      && (outcome.Receipt? ==> ReceiptStatus(outcome.status))
    case Expire(at) => s.clock <= at
    case Submit(_, _, at, _) => s.clock <= at
    case Cancel(tested, written, until) =>
      && tested.Keys == written.Keys && s.clock <= until
      && forall n :: n in tested ==> s.clock <= tested[n] <= written[n] <= until
    case Restore(ids) => ids <= s.held.Keys
    case Delete(ids) => ids <= s.held.Keys
  }

  function Max(a: int, b: int): int { if a >= b then a else b }

  function Restrict(m: map<nat, Snapshot>, ids: set<nat>): map<nat, Snapshot> {
    map i | i in m && i in ids :: m[i]
  }

  ghost function Step(s: State, e: Event): State {
    match e
    case Claim(t0, t1, t2) =>
      var p := Pick(ExpireAll(s.rows, t0), t1);
      s.(rows := Claimed(s.rows, t0, t1, t2), clock := t2,
         issued := if p.Some? then s.issued[p.value := t2 + LEASE] else s.issued)
    case Bind(id, lease, binding) => s.(rows := Bound(s.rows, id, lease, binding))
    case Finish(id, lease, review, outcome, checked, from) =>
      s.(rows := Finished(s.rows, id, lease, review, outcome, checked, from), clock := Max(checked, from))
    case Expire(at) => s.(rows := ExpireAll(s.rows, at), clock := at)
    case Submit(target, validBefore, at, pinned) =>
      if Waits(s.rows, target) then s.(clock := at)
      else s.(rows := s.rows[s.top + 1 := NewRow(target, validBefore, at, pinned)], top := s.top + 1, clock := at)
    case Cancel(tested, written, until) =>
      if exists n :: n in tested && Busy(s.rows, n, tested[n]) then s.(clock := until)
      else s.(rows := RevokeAll(s.rows, written), clock := until, held := s.held + Snapshots(s.rows, written.Keys))
    case Restore(ids) =>
      s.(rows := Undone(s.rows, Restrict(s.held, ids)), held := s.held - ids)
    case Delete(ids) => s.(held := s.held - ids)
  }

  // ------------------------------------------------------------ invariant

  /** What a row counts as: while its cancellation can still be undone, the status before it. */
  function Standing(s: State, i: nat): Status
    requires i in s.rows
  {
    if i in s.held then s.held[i].status else s.rows[i].status
  }

  ghost predicate RowOk(s: State, i: nat)
    requires i in s.rows
  {
    var r := s.rows[i];
    && i <= s.top
    && r.expiredAfter <= r.deadline
    && (r.lease.Some? ==> Open(r.status) && i in s.issued && s.issued[i] == r.lease.value)
    && (i in s.issued ==> s.issued[i] <= s.clock + LEASE)
    && (r.lease.None? && i in s.issued && Open(Standing(s, i)) ==> s.issued[i] < Max(r.next, s.clock) + LEASE)
    && (i in s.held ==> r.status == Revoked && s.held[i].status != Revoked)
  }

  ghost predicate Inv(s: State) {
    && IndexHolds(s.rows)
    && (forall i :: i in s.rows ==> RowOk(s, i))
    && (forall i :: i in s.held || i in s.issued ==> i in s.rows)
  }

  /** How one existing row can change in one step. */
  ghost predicate RowMoves(s: State, e: Event, i: nat, r: Row)
    requires i in s.rows
  {
    var was := s.rows[i];
    match e
    case Claim(t0, t1, t2) =>
      var open := ExpiredRow(was, t0);
      if Pick(ExpireAll(s.rows, t0), t1) == Some(i)
      then Eligible(open, t1) && r == open.(lease := Some(t2 + LEASE))
      else r == open
    case Bind(id, lease, binding) =>
      r == was || (id == i && was.lease == Some(lease) && was.binding.None? && r == was.(binding := Some(binding)))
    case Finish(id, lease, review, outcome, checked, from) =>
      r == was || (id == i && was.lease == Some(lease) && r == FinishedRow(was, review, outcome, checked, from))
    case Expire(at) => r == ExpiredRow(was, at)
    case Submit(_, _, _, _) => r == was
    case Cancel(tested, written, _) =>
      r == was || (was.target in written && was.target in tested && !Busy(s.rows, was.target, tested[was.target])
                   && r == RevokedRow(was, written))
    case Restore(ids) => r == was || (i in ids && r == UndoneRow(was, Held(s.held, i)))
    case Delete(_) => r == was
  }

  lemma ClaimRowStep(s: State, t0: int, t1: int, t2: int, i: nat)
    requires i in s.rows
    ensures var e := Claim(t0, t1, t2); i in Step(s, e).rows && RowMoves(s, e, i, Step(s, e).rows[i])
  {
    var open := ExpireAll(s.rows, t0);
    var p := Pick(open, t1);
    assert open[i] == ExpiredRow(s.rows[i], t0);
    if p == Some(i) {
      assert IsPick(open, t1, i);
    }
  }

  lemma CancelRowStep(s: State, e: Event, i: nat)
    requires i in s.rows && e.Cancel? && Timely(s, e)
    ensures i in Step(s, e).rows && RowMoves(s, e, i, Step(s, e).rows[i])
  {
    if !(exists n :: n in e.tested && Busy(s.rows, n, e.tested[n])) && s.rows[i].target in e.written {
      assert !Busy(s.rows, s.rows[i].target, e.tested[s.rows[i].target]);
    }
  }

  lemma WorkerRowStep(s: State, e: Event, i: nat)
    requires i in s.rows && (e.Bind? || e.Finish?)
    ensures i in Step(s, e).rows && RowMoves(s, e, i, Step(s, e).rows[i])
  {
  }

  lemma SubmitRowStep(s: State, e: Event, i: nat)
    requires i in s.rows && i <= s.top && e.Submit?
    ensures i in Step(s, e).rows && RowMoves(s, e, i, Step(s, e).rows[i])
  {
  }

  lemma RestoreRowStep(s: State, ids: set<nat>, i: nat)
    requires i in s.rows
    ensures var e := Restore(ids); i in Step(s, e).rows && RowMoves(s, e, i, Step(s, e).rows[i])
  {
  }

  lemma RowStep(s: State, e: Event, i: nat)
    requires Inv(s) && Timely(s, e) && i in s.rows
    ensures i in Step(s, e).rows && RowMoves(s, e, i, Step(s, e).rows[i])
  {
    match e
    case Claim(t0, t1, t2) => ClaimRowStep(s, t0, t1, t2, i);
    case Bind(_, _, _) => WorkerRowStep(s, e, i);
    case Finish(_, _, _, _, _, _) => WorkerRowStep(s, e, i);
    case Submit(_, _, _, _) => assert RowOk(s, i); SubmitRowStep(s, e, i);
    case Cancel(_, _, _) => CancelRowStep(s, e, i);
    case Restore(ids) => RestoreRowStep(s, ids, i);
    case Expire(_) =>
    case Delete(_) =>
  }

  /** How time, the next identity and the record of leases change in one step. */
  ghost predicate LeaseMoves(s: State, e: Event, u: State, i: nat) {
    && u.clock >= s.clock && u.top >= s.top
    && (e.Claim? ==> u.clock == e.t2)
    && (e.Finish? ==> u.clock >= e.checked && u.clock >= e.from)
    && (e.Cancel? ==> u.clock == e.until)
    && (if e.Claim? && Pick(ExpireAll(s.rows, e.t0), e.t1) == Some(i) then i in u.issued && u.issued[i] == e.t2 + LEASE
        else (i in u.issued <==> i in s.issued) && (i in s.issued ==> u.issued[i] == s.issued[i]))
  }

  /** Which snapshots are held after a step. */
  ghost predicate HeldMoves(s: State, e: Event, u: State, i: nat)
    requires i in s.rows && i in u.rows
  {
    if e.Cancel? && u.rows[i] != s.rows[i] && s.rows[i].status != Revoked
    then i in u.held && u.held[i] == Snapshot(s.rows[i].status, s.rows[i].updatedAt)
    else if (e.Restore? || e.Delete?) && i in e.ids then i !in u.held
    else (i in u.held ==> i in s.held && u.held[i] == s.held[i]) && (i in s.held ==> i in u.held)
  }

  ghost predicate BookMoves(s: State, e: Event, u: State, i: nat)
    requires i in s.rows && i in u.rows
  {
    LeaseMoves(s, e, u, i) && HeldMoves(s, e, u, i)
  }

  lemma LeaseStep(s: State, e: Event, i: nat)
    requires Timely(s, e) && i in s.rows
    ensures LeaseMoves(s, e, Step(s, e), i)
  {
  }

  lemma CancelHeldStep(s: State, e: Event, i: nat)
    requires e.Cancel? && i in s.rows && i in Step(s, e).rows
    requires i in s.held ==> s.rows[i].status == Revoked
    ensures HeldMoves(s, e, Step(s, e), i)
  {
  }

  lemma BookStep(s: State, e: Event, i: nat)
    requires Inv(s) && Timely(s, e) && i in s.rows
    ensures i in Step(s, e).rows && BookMoves(s, e, Step(s, e), i)
  {
    RowStep(s, e, i);
    LeaseStep(s, e, i);
    if e.Cancel? {
      assert RowOk(s, i);
      CancelHeldStep(s, e, i);
    }
  }

  lemma MovesKeepRow(s: State, e: Event, u: State, i: nat)
    requires i in s.rows && RowOk(s, i) && Timely(s, e)
    requires i in u.rows && RowMoves(s, e, i, u.rows[i]) && BookMoves(s, e, u, i)
    ensures RowOk(u, i)
  {
  }

  lemma StepKeepsRow(s: State, e: Event, i: nat)
    requires Inv(s) && Timely(s, e) && i in Step(s, e).rows
    ensures RowOk(Step(s, e), i)
  {
    if i in s.rows {
      assert RowOk(s, i);
      RowStep(s, e, i);
      BookStep(s, e, i);
      MovesKeepRow(s, e, Step(s, e), i);
    } else {
      NewRowIsOk(s, e, i);
    }
  }

  /** Only a submission adds a row, under the next identity. */
  lemma NewRowIsOk(s: State, e: Event, i: nat)
    requires Inv(s) && Timely(s, e) && i in Step(s, e).rows && i !in s.rows
    ensures e.Submit? && i == s.top + 1 && Step(s, e).rows[i] == NewRow(e.target, e.validBefore, e.at, e.pinned)
    ensures RowOk(Step(s, e), i)
  {
  }

  lemma StepKeepsInv(s: State, e: Event)
    requires Inv(s) && Timely(s, e)
    ensures Inv(Step(s, e)) && Step(s, e).clock >= s.clock
  {
    var u := Step(s, e);
    forall i | i in u.rows ensures RowOk(u, i) {
      StepKeepsRow(s, e, i);
    }
    StepKeepsIndex(s, e);
    forall i | i in u.held || i in u.issued ensures i in u.rows {
      StepKeepsBooks(s, e, i);
    }
  }

  lemma ClaimKeepsIndex(rows: Rows, t0: int, t1: int, t2: int)
    requires IndexHolds(rows)
    ensures IndexHolds(Claimed(rows, t0, t1, t2))
  {
    var open := ExpireAll(rows, t0);
    ExpiryKeepsIndex(rows, t0);
    var p := Pick(open, t1);
    if p.Some? {
      var r := open[p.value].(lease := Some(t2 + LEASE));
      UpdateKeepsIndex(open, p.value, r);
    }
  }

  lemma BindKeepsIndex(rows: Rows, id: nat, lease: int, binding: (int, string))
    requires IndexHolds(rows)
    ensures IndexHolds(Bound(rows, id, lease, binding))
  {
    if Holds(rows, id, lease) {
      UpdateKeepsIndex(rows, id, rows[id].(binding := Some(binding)));
    }
  }

  lemma NewRowKeepsIndex(rows: Rows, id: nat, r: Row)
    requires IndexHolds(rows) && id !in rows && !Waits(rows, r.target)
    ensures IndexHolds(rows[id := r])
  {
    forall i | i in rows && Unfinished(rows[i].status) ensures rows[i].target != r.target {
    }
  }

  lemma SubmitKeepsIndex(s: State, target: string, validBefore: int, at: int, pinned: Option<(int, string)>)
    requires IndexHolds(s.rows) && forall i :: i in s.rows ==> i <= s.top
    ensures IndexHolds(Step(s, Submit(target, validBefore, at, pinned)).rows)
  {
    if !Waits(s.rows, target) {
      NewRowKeepsIndex(s.rows, s.top + 1, NewRow(target, validBefore, at, pinned));
    }
  }

  lemma StepKeepsIndex(s: State, e: Event)
    requires Inv(s) && Timely(s, e)
    ensures IndexHolds(Step(s, e).rows)
  {
    match e
    case Claim(t0, t1, t2) => ClaimKeepsIndex(s.rows, t0, t1, t2);
    case Bind(id, lease, binding) => BindKeepsIndex(s.rows, id, lease, binding);
    case Finish(_, _, _, _, _, _) =>
    case Expire(at) => ExpiryKeepsIndex(s.rows, at);
    case Submit(target, validBefore, at, pinned) =>
      forall i | i in s.rows ensures i <= s.top {
        assert RowOk(s, i);
      }
      SubmitKeepsIndex(s, target, validBefore, at, pinned);
    case Cancel(_, written, _) => RevokingKeepsIndex(s.rows, written);
    case Restore(_) =>
    case Delete(_) =>
  }

  /** Snapshots and lease records are only of existing rows. */
  lemma StepKeepsBooks(s: State, e: Event, i: nat)
    requires Inv(s) && Timely(s, e) && (i in Step(s, e).held || i in Step(s, e).issued)
    ensures i in Step(s, e).rows
  {
    if i in s.rows {
      RowStep(s, e, i);
    }
  }

  ghost predicate IsRun(ss: seq<State>, es: seq<Event>) {
    && |ss| == |es| + 1 && Inv(ss[0])
    && forall i :: 0 <= i < |es| ==> StepsAt(ss, es, i)
  }

  ghost predicate StepsAt(ss: seq<State>, es: seq<Event>, i: int)
    requires |ss| == |es| + 1 && 0 <= i < |es|
  {
    Timely(ss[i], es[i]) && ss[i + 1] == Step(ss[i], es[i])
  }

  const START := State(map[], 0, 0, map[], map[])

  lemma StartIsFine()
    ensures Inv(START)
  {
  }

  lemma {:induction false} RunKeepsInv(ss: seq<State>, es: seq<Event>, n: nat)
    requires IsRun(ss, es) && n < |ss|
    ensures Inv(ss[n])
  {
    if n > 0 {
      RunKeepsInv(ss, es, n - 1);
      assert StepsAt(ss, es, n - 1);
      StepKeepsInv(ss[n - 1], es[n - 1]);
    }
  }

  // ------------------------------------------------------------ lease fencing

  /** A claim gives its row a strictly later lease than any before. */
  lemma LeasesIncrease(s: State, t0: int, t1: int, t2: int)
    requires Inv(s) && s.clock <= t0 <= t1 <= t2
    ensures var p := Pick(ExpireAll(s.rows, t0), t1); var u := Step(s, Claim(t0, t1, t2));
      p.Some? ==>
        && p.value in s.rows && u.rows[p.value].lease == Some(t2 + LEASE) && u.issued[p.value] == t2 + LEASE
        && (p.value in s.issued ==> s.issued[p.value] < t2 + LEASE)
  {
    var p := Pick(ExpireAll(s.rows, t0), t1);
    if p.Some? {
      assert RowOk(s, p.value);
    }
  }

  /** A lease is live only on an open row, and only as the last one issued for it. */
  lemma LeaseMeansOpen(s: State, i: nat)
    requires Inv(s) && i in s.rows && s.rows[i].lease.Some?
    ensures Open(s.rows[i].status) && i in s.issued && s.rows[i].lease.value == s.issued[i] && i !in s.held
  {
    assert RowOk(s, i);
  }

  /** The lease was given out for this row and the row no longer carries it. */
  ghost predicate Stale(s: State, i: nat, lease: int) {
    i in s.issued && lease <= s.issued[i] && !Holds(s.rows, i, lease)
  }

  lemma StaleStaysStaleOnce(s: State, e: Event, i: nat, lease: int)
    requires Inv(s) && Timely(s, e) && Stale(s, i, lease)
    ensures Stale(Step(s, e), i, lease)
  {
    assert i in s.rows && RowOk(s, i);
    RowStep(s, e, i);
    LeaseStep(s, e, i);
    MovesKeepStale(s, e, Step(s, e), i, lease);
  }

  lemma MovesKeepStale(s: State, e: Event, u: State, i: nat, lease: int)
    requires i in s.rows && RowOk(s, i) && Timely(s, e) && Stale(s, i, lease)
    requires i in u.rows && RowMoves(s, e, i, u.rows[i]) && LeaseMoves(s, e, u, i)
    ensures Stale(u, i, lease)
  {
  }

  /** Once a worker has lost its lease it has lost it for good, through expiry, cancellation,
      restoration and new claims; so none of its late writes has any effect. */
  lemma {:induction false} StaleWorkersChangeNothing(ss: seq<State>, es: seq<Event>, m: nat, n: nat, i: nat, lease: int)
    requires IsRun(ss, es) && m <= n < |ss| && Stale(ss[m], i, lease)
    ensures Stale(ss[n], i, lease)
    ensures forall b :: Step(ss[n], Bind(i, lease, b)) == ss[n]
    ensures forall v, o, a, b :: Finished(ss[n].rows, i, lease, v, o, a, b) == ss[n].rows
  {
    if m < n {
      StaleWorkersChangeNothing(ss, es, m, n - 1, i, lease);
      RunKeepsInv(ss, es, n - 1);
      assert StepsAt(ss, es, n - 1);
      StaleStaysStaleOnce(ss[n - 1], es[n - 1], i, lease);
    }
  }

  // ------------------------------------------------------------ statuses over whole runs

  /** What never changes, or changes once. */
  ghost predicate Carries(s: State, u: State, i: nat)
    requires i in s.rows
  {
    && i in u.rows && u.rows[i].target == s.rows[i].target
    && u.rows[i].deadline == s.rows[i].deadline && u.rows[i].createdAt == s.rows[i].createdAt
    && (s.rows[i].binding.Some? ==> u.rows[i].binding == s.rows[i].binding)
    && (!Open(Standing(s, i)) ==> !Open(Standing(u, i)) && !Open(u.rows[i].status))
  }

  lemma MovesCarry(s: State, e: Event, u: State, i: nat)
    requires i in s.rows && RowOk(s, i) && Timely(s, e)
    requires i in u.rows && RowMoves(s, e, i, u.rows[i]) && BookMoves(s, e, u, i)
    ensures Carries(s, u, i)
  {
  }

  lemma StepCarries(s: State, e: Event, i: nat)
    requires Inv(s) && Timely(s, e) && i in s.rows
    ensures Carries(s, Step(s, e), i)
  {
    assert RowOk(s, i);
    RowStep(s, e, i);
    BookStep(s, e, i);
    MovesCarry(s, e, Step(s, e), i);
  }

  /** Over every run a failed, denied, expired or deleted request never becomes open again, its
      binding is set at most once, and its delivery deadline bounds its expiry. */
  lemma {:induction false} RequestsEndOnce(ss: seq<State>, es: seq<Event>, m: nat, n: nat, i: nat)
    requires IsRun(ss, es) && m <= n < |ss| && i in ss[m].rows
    ensures Carries(ss[m], ss[n], i)
    ensures ss[n].rows[i].expiredAfter <= ss[n].rows[i].deadline == ss[m].rows[i].deadline
    decreases n - m
  {
    if m == n {
      CarriesItself(ss, es, m, i);
    } else {
      RequestsEndOnce(ss, es, m, n - 1, i);
      CarriesOn(ss, es, n - 1, i);
      CarriesTwice(ss[m], ss[n - 1], ss[n], i);
    }
  }

  lemma CarriesItself(ss: seq<State>, es: seq<Event>, m: nat, i: nat)
    requires IsRun(ss, es) && m < |ss| && i in ss[m].rows
    ensures Carries(ss[m], ss[m], i) && ss[m].rows[i].expiredAfter <= ss[m].rows[i].deadline
  {
    RunKeepsInv(ss, es, m);
    assert RowOk(ss[m], i);
  }

  lemma CarriesOn(ss: seq<State>, es: seq<Event>, n: nat, i: nat)
    requires IsRun(ss, es) && n < |es| && i in ss[n].rows
    ensures Carries(ss[n], ss[n + 1], i) && ss[n + 1].rows[i].expiredAfter <= ss[n + 1].rows[i].deadline
  {
    RunKeepsInv(ss, es, n);
    assert StepsAt(ss, es, n);
    StepCarries(ss[n], es[n], i);
    CarriesItself(ss, es, n + 1, i);
  }

  lemma CarriesTwice(s: State, u: State, v: State, i: nat)
    requires i in s.rows && Carries(s, u, i) && Carries(u, v, i)
    ensures Carries(s, v, i)
  {
  }

  /** A cancellation captures only rows no other cancellation holds, and undoing it gives each row
      exactly the status it had; any other step leaves a revoked row revoked. */
  lemma RevokedReturnsExactly(s: State, e: Event, i: nat)
    requires Inv(s) && Timely(s, e) && i in s.rows
    ensures var u := Step(s, e);
      && (s.rows[i].status == Revoked && u.rows[i].status != Revoked ==>
            e.Restore? && i in s.held && i in e.ids && u.rows[i].status == s.held[i].status && i !in u.held)
      && (i !in s.held && i in u.held ==>
            e.Cancel? && s.rows[i].status != Revoked && u.held[i] == Snapshot(s.rows[i].status, s.rows[i].updatedAt))
      && (i in s.held && i in u.held ==> u.held[i] == s.held[i])
  {
    assert RowOk(s, i);
    RowStep(s, e, i);
    BookStep(s, e, i);
  }

  /** A closing transaction under the right lease is dropped exactly when an active request falls
      back to pending while another request to its target waits; the lease is then not released. */
  lemma FinishIsRefusedExactly(s: State, id: nat, lease: int, review: Option<Review>, outcome: Outcome, checked: int,
                               from: int)
    requires Inv(s) && Holds(s.rows, id, lease) && (outcome.Receipt? ==> ReceiptStatus(outcome.status))
    ensures Finished(s.rows, id, lease, review, outcome, checked, from) == s.rows <==>
      && outcome.Receipt? && outcome.status == Pending && s.rows[id].status == Active
      && exists j :: j in s.rows && j != id && Unfinished(s.rows[j].status) && s.rows[j].target == s.rows[id].target
  {
    var after := FinishedRow(s.rows[id], review, outcome, checked, from);
    assert RowOk(s, id);
    UpdateKeepsIndex(s.rows, id, after);
    assert after != s.rows[id] by { assert after.lease != s.rows[id].lease; }
    assert s.rows[id := after] != s.rows by { assert s.rows[id := after][id] != s.rows[id]; }
  }

  lemma RunGoesOn(ss: seq<State>, es: seq<Event>, e: Event, u: State)
    requires IsRun(ss, es) && Timely(ss[|es|], e) && u == Step(ss[|es|], e)
    ensures IsRun(ss + [u], es + [e])
  {
    var ts, fs := ss + [u], es + [e];
    forall i | 0 <= i < |fs| ensures StepsAt(ts, fs, i) {
      if i < |es| {
        assert StepsAt(ss, es, i);
      }
    }
  }

  function Active1(): Row {
    FinishedRow(NewRow("b", 1000, 0, None).(lease := Some(120)), None, Receipt(Active, 1000), 1, 1)
  }

  function Queued2(): Row {
    NewRow("b", 1000, 2, None)
  }

  /** A request is entered, claimed, and becomes active. */
  lemma OneBecomesActive() returns (ss: seq<State>, es: seq<Event>)
    ensures IsRun(ss, es) && ss[0] == START
    ensures ss[|es|] == State(map[1 := Active1()], 1, 1, map[1 := 120], map[])
  {
    var a := NewRow("b", 1000, 0, None);
    var s1 := State(map[1 := a], 1, 0, map[], map[]);
    var s2 := State(map[1 := a.(lease := Some(120))], 1, 0, map[1 := 120], map[]);
    var s3 := State(map[1 := Active1()], 1, 1, map[1 := 120], map[]);
    StartIsFine();
    ss, es := [START], [];
    RunGoesOn(ss, es, Submit("b", 1000, 0, None), s1);
    ss, es := ss + [s1], es + [Submit("b", 1000, 0, None)];
    ClaimsRow(s1, 0, 1, s2);
    RunGoesOn(ss, es, Claim(0, 0, 0), s2);
    ss, es := ss + [s2], es + [Claim(0, 0, 0)];
    var finish := Finish(1, 120, None, Receipt(Active, 1000), 1, 1);
    assert s2.rows[1 := Active1()] == s3.rows;
    RunGoesOn(ss, es, finish, s3);
    ss, es := ss + [s3], es + [finish];
  }

  /** Of two due rows the one with the earlier attempt is claimed first. */
  lemma ClaimsEarlier(x: Row, y: Row, t: int, s: State, u: State)
    requires x.status == Active && x.next == t && x.lease.None?
    requires y.status == Queued && y.next < t < y.expiredAfter && y.lease.None?
    requires s.rows == map[1 := x, 2 := y]
    requires u == State(s.rows[2 := y.(lease := Some(t + LEASE))], s.top, t, s.issued[2 := t + LEASE], s.held)
    ensures Step(s, Claim(t, t, t)) == u
  {
    assert IsPick(s.rows, t, 2);
    ClaimsRow(s, t, 2, u);
  }

  /** Then the other, while the first is leased. */
  lemma ClaimsOther(x: Row, y: Row, t: int, s: State, u: State)
    requires x.status == Active && x.next == t && x.lease.None?
    requires y.status == Queued && t < y.expiredAfter && y.lease == Some(t + LEASE)
    requires s.rows == map[1 := x, 2 := y]
    requires u == State(s.rows[1 := x.(lease := Some(t + LEASE))], s.top, t, s.issued[1 := t + LEASE], s.held)
    ensures Step(s, Claim(t, t, t)) == u
  {
    assert IsPick(s.rows, t, 1);
    ClaimsRow(s, t, 1, u);
  }

  lemma SecondIsEntered(ss: seq<State>, es: seq<Event>) returns (ts: seq<State>, fs: seq<Event>)
    requires IsRun(ss, es) && ss[|es|] == State(map[1 := Active1()], 1, 1, map[1 := 120], map[])
    ensures IsRun(ts, fs) && ts[0] == ss[0]
    ensures ts[|fs|] == State(map[1 := Active1(), 2 := Queued2()], 2, 2, map[1 := 120], map[])
  {
    var s := ss[|es|];
    var u := State(map[1 := Active1(), 2 := Queued2()], 2, 2, map[1 := 120], map[]);
    assert !Waits(s.rows, "b");
    assert s.rows[2 := Queued2()] == u.rows;
    RunGoesOn(ss, es, Submit("b", 1000, 2, None), u);
    ts, fs := ss + [u], es + [Submit("b", 1000, 2, None)];
  }

  lemma BothAreClaimed(ss: seq<State>, es: seq<Event>) returns (ts: seq<State>, fs: seq<Event>)
    requires IsRun(ss, es)
    requires ss[|es|] == State(map[1 := Active1(), 2 := Queued2()], 2, 2, map[1 := 120], map[])
    ensures IsRun(ts, fs) && ts[0] == ss[0]
    ensures var s := ts[|fs|];
      && 1 in s.rows && s.rows[1] == Active1().(lease := Some(151))
      && 2 in s.rows && s.rows[2] == Queued2().(lease := Some(151)) && s.clock == 31
  {
    var s, y := ss[|es|], Queued2().(lease := Some(151));
    var u := State(s.rows[2 := y], 2, 31, s.issued[2 := 151], map[]);
    var v := State(u.rows[1 := Active1().(lease := Some(151))], 2, 31, u.issued[1 := 151], map[]);
    ClaimsEarlier(Active1(), Queued2(), 31, s, u);
    assert u.rows == map[1 := Active1(), 2 := y];
    ClaimsOther(Active1(), y, 31, u, v);
    RunGoesOn(ss, es, Claim(31, 31, 31), u);
    ts, fs := ss + [u], es + [Claim(31, 31, 31)];
    RunGoesOn(ts, fs, Claim(31, 31, 31), v);
    ts, fs := ts + [v], fs + [Claim(31, 31, 31)];
  }

  /** The input: a request becomes active, another to the same target is entered, and the check of the
      first one, under its own lease, brings a pending receipt. */
  lemma RefusedFinishIsReached() returns (ss: seq<State>, es: seq<Event>, e: Event)
    ensures IsRun(ss, es) && ss[0] == START && e.Finish? && Timely(ss[|es|], e)
    ensures Holds(ss[|es|].rows, e.id, e.lease) && Step(ss[|es|], e).rows == ss[|es|].rows
  {
    ss, es := OneBecomesActive();
    ss, es := SecondIsEntered(ss, es);
    ss, es := BothAreClaimed(ss, es);
    RunKeepsInv(ss, es, |es|);
    e := Finish(1, 151, None, Receipt(Pending, 1000), 32, 32);
    SecondWaits(ss[|es|]);
  }

  lemma SecondWaits(s: State)
    requires Inv(s) && 1 in s.rows && s.rows[1] == Active1().(lease := Some(151))
    requires 2 in s.rows && s.rows[2] == Queued2().(lease := Some(151))
    ensures var e := Finish(1, 151, None, Receipt(Pending, 1000), 32, 32);
      Holds(s.rows, 1, 151) && Step(s, e).rows == s.rows
  {
    assert s.rows[2].target == s.rows[1].target;
    FinishIsRefusedExactly(s, 1, 151, None, Receipt(Pending, 1000), 32, 32);
  }

  /** A claim at one moment, when nothing expires and i is the first eligible row. */
  lemma ClaimsRow(s: State, t: int, i: nat, u: State)
    requires i in s.rows && IsPick(s.rows, t, i) && forall k :: k in s.rows ==> ExpiredRow(s.rows[k], t) == s.rows[k]
    requires u == State(s.rows[i := s.rows[i].(lease := Some(t + LEASE))], s.top, t, s.issued[i := t + LEASE], s.held)
    ensures Step(s, Claim(t, t, t)) == u
  {
    assert ExpireAll(s.rows, t) == s.rows;
    assert Pick(s.rows, t) == Some(i);
  }

  // ------------------------------------------------------------ no starvation

  /** The open rows served before w. */
  function Earlier(rows: Rows, w: nat): set<nat>
    requires w in rows
  {
    set i | i in rows && Open(rows[i].status) && Precedes(rows, i, w)
  }

  /** Those among them that a claim up to the given time could still take. */
  function Ahead(rows: Rows, w: nat, until: int): set<nat>
    requires w in rows
  {
    set i | i in Earlier(rows, w) && (rows[i].lease.None? || rows[i].lease.value <= until)
  }

  /** w waits: open, due by now, not being delivered. */
  predicate Waiting(s: State, w: nat) {
    w in s.rows && Open(s.rows[w].status) && s.rows[w].next <= s.clock && s.rows[w].lease.None?
  }

  /** The rows that undoing a cancellation can put ahead of w: they were open before it, and come first
      by attempt and identity. */
  ghost function Overtaking(s: State, e: Event, w: nat): set<nat>
    requires w in s.rows
  {
    if !e.Restore? then {}
    else set i | i in e.ids && i in s.held && i in s.rows && Open(s.held[i].status) && Precedes(s.rows, i, w)
  }

  /** A compensation puts a row ahead of a due waiting one exactly when the row was open before the
      cancellation, comes first, and the index does not drop the compensation. */
  lemma RestoreOvertakesExactly(s: State, ids: set<nat>, w: nat, i: nat)
    requires Inv(s) && Timely(s, Restore(ids)) && Waiting(s, w) && i in s.rows
    ensures var u := Step(s, Restore(ids));
      && w in u.rows && u.rows[w] == s.rows[w] && i in u.rows
      && (i in Earlier(u.rows, w) <==>
            (i in Earlier(s.rows, w)
             || (i in Overtaking(s, Restore(ids), w) && IndexHolds(UndoAll(s.rows, Restrict(s.held, ids))))))
      && (i in Earlier(s.rows, w) ==> u.rows[i] == s.rows[i])
  {
    assert RowOk(s, w) && RowOk(s, i);
    var after := UndoAll(s.rows, Restrict(s.held, ids));
    assert after[w] == UndoneRow(s.rows[w], Held(Restrict(s.held, ids), w));
    assert after[i] == UndoneRow(s.rows[i], Held(Restrict(s.held, ids), i));
  }

  /** No step moves any row ahead of a due waiting row, but for what a compensation gives back. */
  lemma NobodyOvertakes(s: State, e: Event, w: nat, until: int)
    requires Inv(s) && Timely(s, e)
    requires Waiting(s, w) && Waiting(Step(s, e), w)
    ensures Step(s, e).rows[w].next == s.rows[w].next
    ensures Earlier(Step(s, e).rows, w) <= Earlier(s.rows, w) + Overtaking(s, e, w)
    ensures Step(s, e).clock <= until ==>
      Ahead(Step(s, e).rows, w, until) <= Ahead(s.rows, w, until) + Overtaking(s, e, w)
  {
    if e.Restore? {
      RestoreOvertakes(s, e, w, until);
    } else {
      OthersStayBehind(s, e, w, until);
    }
  }

  lemma RestoreOvertakes(s: State, e: Event, w: nat, until: int)
    requires Inv(s) && Timely(s, e) && e.Restore? && Waiting(s, w)
    ensures var u := Step(s, e);
      && w in u.rows && u.rows[w].next == s.rows[w].next
      && Earlier(u.rows, w) <= Earlier(s.rows, w) + Overtaking(s, e, w)
      && Ahead(u.rows, w, until) <= Ahead(s.rows, w, until) + Overtaking(s, e, w)
  {
    var u := Step(s, e);
    RestoreOvertakesExactly(s, e.ids, w, w);
    forall i | i in Earlier(u.rows, w)
      ensures i in Earlier(s.rows, w) + Overtaking(s, e, w)
      ensures i in Ahead(u.rows, w, until) ==> i in Ahead(s.rows, w, until) + Overtaking(s, e, w)
    {
      RestoreOvertakesExactly(s, e.ids, w, i);
    }
  }

  lemma OthersStayBehind(s: State, e: Event, w: nat, until: int)
    requires Inv(s) && Timely(s, e) && !e.Restore?
    requires Waiting(s, w) && Waiting(Step(s, e), w)
    ensures Step(s, e).rows[w].next == s.rows[w].next
    ensures Earlier(Step(s, e).rows, w) <= Earlier(s.rows, w)
    ensures Step(s, e).clock <= until ==> Ahead(Step(s, e).rows, w, until) <= Ahead(s.rows, w, until)
  {
    var u := Step(s, e);
    assert RowOk(s, w);
    RowStep(s, e, w);
    BookStep(s, e, w);
    forall i | i in Earlier(u.rows, w)
      ensures i in Earlier(s.rows, w)
        && (i in Ahead(u.rows, w, until) && u.clock <= until ==> i in Ahead(s.rows, w, until))
    {
      if i in s.rows {
        assert RowOk(s, i);
        RowStep(s, e, i);
        BookStep(s, e, i);
        MovesStayBehind(s, e, u, w, i, until);
      } else {
        NewRowIsOk(s, e, i);
      }
    }
  }

  lemma MovesStayBehind(s: State, e: Event, u: State, w: nat, i: nat, until: int)
    requires w in s.rows && RowOk(s, w) && Waiting(s, w) && w in u.rows && Waiting(u, w) && RowMoves(s, e, w, u.rows[w])
    requires i in s.rows && RowOk(s, i) && i in u.rows && RowMoves(s, e, i, u.rows[i]) && BookMoves(s, e, u, i)
    requires Timely(s, e) && !e.Restore? && i in Earlier(u.rows, w)
    ensures u.rows[w].next == s.rows[w].next && i in Earlier(s.rows, w)
    ensures i in Ahead(u.rows, w, until) && u.clock <= until ==> i in Ahead(s.rows, w, until)
  {
  }

  /** Finishing an earlier request, under its own lease and not refused, puts it behind w. */
  lemma FinishLowersRank(s: State, w: nat, id: nat, lease: int, review: Option<Review>, outcome: Outcome, checked: int,
                         from: int)
    requires var e := Finish(id, lease, review, outcome, checked, from);
      Inv(s) && Timely(s, e) && Waiting(s, w) && id != w && Step(s, e).rows != s.rows
    requires id in Earlier(s.rows, w)
    ensures var u := Step(s, Finish(id, lease, review, outcome, checked, from));
      w in u.rows && id !in Earlier(u.rows, w) && Earlier(u.rows, w) <= Earlier(s.rows, w)
        && |Earlier(u.rows, w)| < |Earlier(s.rows, w)|
  {
    var e := Finish(id, lease, review, outcome, checked, from);
    var u := Step(s, e);
    OthersStayBehind(s, e, w, 0);
    assert u.rows[id].next > s.rows[w].next;
    SmallerSubset(Earlier(u.rows, w), Earlier(s.rows, w), id);
  }

  lemma SmallerSubset(a: set<nat>, b: set<nat>, x: nat)
    requires a <= b && x in b && x !in a
    ensures |a| < |b|
  {
    SubsetSize(a, b - {x});
  }

  /** A new request is served before a waiting one exactly when that one is not due yet. */
  lemma SubmitOvertakesExactly(s: State, target: string, validBefore: int, at: int, pinned: Option<(int, string)>,
                               w: nat)
    requires var e := Submit(target, validBefore, at, pinned);
      Inv(s) && Timely(s, e) && w in s.rows && Step(s, e).top == s.top + 1
    ensures var u := Step(s, Submit(target, validBefore, at, pinned));
      s.top + 1 in Earlier(u.rows, w) <==> at < s.rows[w].next
  {
    assert RowOk(s, w);
  }

  /** A run that gets there: the first request has its next attempt later, and the one entered in the
      meantime is served before it. */
  lemma OvertakenRowIsReached() returns (ss: seq<State>, es: seq<Event>, e: Event)
    ensures IsRun(ss, es) && ss[0] == START && e.Submit? && Timely(ss[|es|], e)
    ensures var s := ss[|es|]; var u := Step(s, e);
      && 1 in s.rows && Open(s.rows[1].status) && s.clock < s.rows[1].next && Earlier(s.rows, 1) == {}
      && 1 in u.rows && 2 in Earlier(u.rows, 1)
  {
    ss, es := OneBecomesActive();
    e := Submit("b", 1000, 2, None);
    var s := ss[|es|];
    assert !Waits(s.rows, "b");
    assert s.rows[2 := Queued2()] == Step(s, e).rows;
  }

  /** w can still be delivered at every moment of the window. */
  predicate Deliverable(s: State, w: nat, until: int) {
    Waiting(s, w) && (s.rows[w].status == Active || s.rows[w].expiredAfter > until)
  }

  /** While w waits every claim takes somebody, and if not w then a row ahead of it, which stays
      leased past the window. */
  lemma ClaimsServeInOrder(s: State, t0: int, t1: int, t2: int, w: nat, until: int)
    requires Inv(s) && s.clock <= t0 <= t1 <= t2 <= until < t2 + LEASE
    requires Deliverable(s, w, until) && Waiting(Step(s, Claim(t0, t1, t2)), w)
    ensures var u := Step(s, Claim(t0, t1, t2));
      |Ahead(u.rows, w, until)| < |Ahead(s.rows, w, until)|
  {
    var e := Claim(t0, t1, t2);
    var u := Step(s, e);
    var open := ExpireAll(s.rows, t0);
    OthersStayBehind(s, e, w, until);
    assert Eligible(open[w], t1);
    var p := Pick(open, t1);
    assert p.Some?;
    var i := p.value;
    assert i != w && IsPick(open, t1, i);
    PickedIsAhead(s, t0, t1, i, w, until);
    assert u.rows[i].lease == Some(t2 + LEASE);
    SmallerSubset(Ahead(u.rows, w, until), Ahead(s.rows, w, until), i);
  }

  lemma PickedIsAhead(s: State, t0: int, t1: int, i: nat, w: nat, until: int)
    requires w in s.rows && i != w && t1 <= until
    requires Eligible(ExpireAll(s.rows, t0)[w], t1) && IsPick(ExpireAll(s.rows, t0), t1, i)
    ensures i in Ahead(s.rows, w, until)
  {
    var open := ExpireAll(s.rows, t0);
    assert !Precedes(open, w, i);
    assert Precedes(open, i, w);
  }

  function Claims(es: seq<Event>): nat {
    if es == [] then 0 else Claims(es[..|es| - 1]) + (if es[|es| - 1].Claim? then 1 else 0)
  }

  /** How many rows the compensations of a run can have put ahead of w. */
  ghost function Overtakings(ss: seq<State>, es: seq<Event>, w: nat): nat
    requires |ss| == |es| + 1 && forall i :: 0 <= i < |ss| ==> w in ss[i].rows
  {
    if es == [] then 0
    else
      var n := |es| - 1;
      Overtakings(ss[..n + 1], es[..n], w) + |Overtaking(ss[n], es[n], w)|
  }

  /** No starvation: within one lease period a due request is passed over by at most as many claims as
      there were claimable requests ahead of it, and requests that compensations gave back ahead of it. */
  lemma {:induction false} NoStarvation(ss: seq<State>, es: seq<Event>, w: nat, until: int)
    requires IsRun(ss, es) && until < ss[0].clock + LEASE
    requires forall i :: 0 <= i < |ss| ==> Deliverable(ss[i], w, until) && ss[i].clock <= until
    ensures forall i :: 0 <= i < |ss| ==> w in ss[i].rows
    ensures |Ahead(ss[|es|].rows, w, until)| + Claims(es) <=
      |Ahead(ss[0].rows, w, until)| + Overtakings(ss, es, w)
    decreases |es|
  {
    assert forall i :: 0 <= i < |ss| ==> Deliverable(ss[i], w, until);
    if es != [] {
      var n := |es| - 1;
      assert es[..n] == es[..|es| - 1];
      PrefixIsRun(ss, es, n);
      NoStarvation(ss[..n + 1], es[..n], w, until);
      RunKeepsInv(ss, es, n);
      ClockAdvances(ss, es, n);
      assert StepsAt(ss, es, n);
      assert Deliverable(ss[n], w, until) && Deliverable(ss[n + 1], w, until);
      WaitingStep(ss[n], es[n], w, until);
    }
  }

  /** One step of waiting: only a compensation lets rows get ahead, and a claim uses one up. */
  lemma WaitingStep(s: State, e: Event, w: nat, until: int)
    requires Inv(s) && Timely(s, e) && until < s.clock + LEASE && Step(s, e).clock <= until
    requires Deliverable(s, w, until) && Deliverable(Step(s, e), w, until)
    ensures |Ahead(Step(s, e).rows, w, until)| + (if e.Claim? then 1 else 0) <=
      |Ahead(s.rows, w, until)| + |Overtaking(s, e, w)|
  {
    if e.Claim? {
      ClaimsServeInOrder(s, e.t0, e.t1, e.t2, w, until);
    } else {
      NobodyOvertakes(s, e, w, until);
      UnionSize(Ahead(Step(s, e).rows, w, until), Ahead(s.rows, w, until), Overtaking(s, e, w));
    }
  }

  lemma UnionSize(a: set<nat>, b: set<nat>, c: set<nat>)
    requires a <= b + c
    ensures |a| <= |b| + |c|
  {
    SubsetSize(a, b + c);
    assert b + c == b + (c - b);
    SubsetSize(c - b, c);
  }

  /** An attempt on a request served before w ends, under its own lease. */
  ghost predicate EndsEarlier(s: State, e: Event, w: nat) {
    e.Finish? && w in s.rows && e.id != w && e.id in Earlier(s.rows, w) && Step(s, e).rows != s.rows
  }

  ghost function Ends(ss: seq<State>, es: seq<Event>, w: nat): nat
    requires |ss| == |es| + 1
  {
    if es == [] then 0
    else
      var n := |es| - 1;
      Ends(ss[..n + 1], es[..n], w) + (if EndsEarlier(ss[n], es[n], w) then 1 else 0)
  }

  /** With no limit on time: while w waits, at most as many earlier attempts end as there were earlier
      requests, and requests that compensations gave back before it: each one moves behind w. */
  lemma {:induction false} EarlierEndingsAreBounded(ss: seq<State>, es: seq<Event>, w: nat)
    requires IsRun(ss, es)
    requires forall i :: 0 <= i < |ss| ==> Waiting(ss[i], w)
    ensures forall i :: 0 <= i < |ss| ==> w in ss[i].rows
    ensures |Earlier(ss[|es|].rows, w)| + Ends(ss, es, w) <= |Earlier(ss[0].rows, w)| + Overtakings(ss, es, w)
    decreases |es|
  {
    assert forall i :: 0 <= i < |ss| ==> Waiting(ss[i], w);
    if es != [] {
      var n := |es| - 1;
      PrefixIsRun(ss, es, n);
      EarlierEndingsAreBounded(ss[..n + 1], es[..n], w);
      RunKeepsInv(ss, es, n);
      assert StepsAt(ss, es, n);
      assert Waiting(ss[n], w) && Waiting(ss[n + 1], w);
      EndingStep(ss[n], es[n], w);
    }
  }

  lemma EndingStep(s: State, e: Event, w: nat)
    requires Inv(s) && Timely(s, e) && Waiting(s, w) && Waiting(Step(s, e), w)
    ensures |Earlier(Step(s, e).rows, w)| + (if EndsEarlier(s, e, w) then 1 else 0) <=
      |Earlier(s.rows, w)| + |Overtaking(s, e, w)|
  {
    if EndsEarlier(s, e, w) {
      FinishLowersRank(s, w, e.id, e.lease, e.review, e.outcome, e.checked, e.from);
    } else {
      NobodyOvertakes(s, e, w, 0);
      UnionSize(Earlier(Step(s, e).rows, w), Earlier(s.rows, w), Overtaking(s, e, w));
    }
  }

  /** Once nothing open is earlier the next claim takes w, if w has not expired by then. */
  lemma FrontIsClaimed(s: State, t0: int, t1: int, t2: int, w: nat)
    requires Inv(s) && Timely(s, Claim(t0, t1, t2)) && Waiting(s, w) && Earlier(s.rows, w) == {}
    requires Eligible(ExpireAll(s.rows, t0)[w], t1)
    ensures var u := Step(s, Claim(t0, t1, t2)); w in u.rows && u.rows[w].lease == Some(t2 + LEASE)
  {
    var open := ExpireAll(s.rows, t0);
    var i := Pick(open, t1).value;
    if i != w {
      PickedIsAhead(s, t0, t1, i, w, t1);
    }
  }

  lemma PrefixIsRun(ss: seq<State>, es: seq<Event>, n: nat)
    requires IsRun(ss, es) && n <= |es|
    ensures IsRun(ss[..n + 1], es[..n])
  {
    var ts, fs := ss[..n + 1], es[..n];
    forall i | 0 <= i < n ensures StepsAt(ts, fs, i) {
      assert StepsAt(ss, es, i);
    }
  }

  lemma {:induction false} ClockAdvances(ss: seq<State>, es: seq<Event>, n: nat)
    requires IsRun(ss, es) && n < |ss|
    ensures ss[0].clock <= ss[n].clock
  {
    if n > 0 {
      ClockAdvances(ss, es, n - 1);
      RunKeepsInv(ss, es, n - 1);
      assert StepsAt(ss, es, n - 1);
      StepKeepsInv(ss[n - 1], es[n - 1]);
    }
  }
}
