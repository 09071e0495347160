/** The outbound contact queue: one table, changed by separate transactions of several actors. */
module Contact {
  import opened Wrappers

  datatype Status = Queued | Pending | Active | Denied | Expired | Failed | Revoked

  datatype Review = Review(id: int, subject: string, method_: string, path: string)

  datatype Row = Row(target: string, status: Status, expiredAfter: int, deadline: int, remoteExpiry: Option<int>,
                     next: int, attempts: nat, lease: Option<int>, binding: Option<(int, string)>,
                     review: Option<Review>, lastChecked: Option<int>, message: Option<string>,
                     createdAt: int, updatedAt: int)

  type Rows = map<nat, Row>

  /** What one delivery attempt came back with. */
  datatype Outcome =
    | Receipt(status: Status, validBefore: int)
    | Failure(code: int, message: string)

  /** The status and time a cancellation found, kept to undo it. */
  datatype Snapshot = Snapshot(status: Status, updatedAt: int)

  datatype Error = AlreadyPending | DeliveryInProgress | IndexViolation | BadExpiry

  const LEASE := 120
  const WEEK := 604800
  const I64_MAX := 0x7FFF_FFFF_FFFF_FFFF

  predicate Open(s: Status) {
    s == Queued || s == Pending || s == Active
  }

  predicate Unfinished(s: Status) {
    s == Queued || s == Pending
  }

  /** The partial unique index: one unfinished request per target. */
  ghost predicate IndexHolds(rows: Rows) {
    forall i, j :: i in rows && j in rows && i != j && Unfinished(rows[i].status) && Unfinished(rows[j].status) ==>
      rows[i].target != rows[j].target
  }

  // ------------------------------------------------------------ expiry

  function ExpiredRow(r: Row, now: int): Row {
    if Unfinished(r.status) && r.expiredAfter <= now then
      r.(status := if r.status == Queued then Failed else Expired, lease := None, updatedAt := now,
         message := Some("contact request expired"))
    else r
  }

  function ExpireAll(rows: Rows, now: int): Rows {
    map i | i in rows :: ExpiredRow(rows[i], now)
  }

  // ------------------------------------------------------------ claiming

  predicate Eligible(r: Row, now: int) {
    && Open(r.status) && r.next <= now && (r.status == Active || r.expiredAfter > now)
    && (r.lease.None? || r.lease.value <= now)
  }

  /** The order of service: next attempt first, then identity. */
  predicate Precedes(rows: Rows, i: nat, j: nat)
    requires i in rows && j in rows
  {
    rows[i].next < rows[j].next || (rows[i].next == rows[j].next && i < j)
  }

  predicate IsPick(rows: Rows, now: int, i: nat) {
    && i in rows && Eligible(rows[i], now)
    && forall j :: j in rows && Eligible(rows[j], now) ==> !Precedes(rows, j, i)
  }

  ghost predicate First(rows: Rows, some: set<nat>, i: nat)
    requires some <= rows.Keys
  {
    i in some && forall j :: j in some ==> !Precedes(rows, j, i)
  }

  lemma FirstExists(rows: Rows, some: set<nat>) returns (y: nat)
    requires some != {} && some <= rows.Keys
    ensures First(rows, some, y)
  {
    var x :| x in some;
    y := x;
    var rest := some - {x};
    if rest != {} {
      var z := FirstExists(rows, rest);
      y := if Precedes(rows, x, z) then x else z;
    }
    forall j | j in some ensures !Precedes(rows, j, y) {
      assert j == x || j in rest;
    }
  }

  lemma SomeoneIsPicked(rows: Rows, now: int, i: nat) returns (k: nat)
    requires i in rows && Eligible(rows[i], now)
    ensures IsPick(rows, now, k)
  {
    var eligible := set k | k in rows && Eligible(rows[k], now);
    assert i in eligible;
    k := FirstExists(rows, eligible);
  }

  /** The row a claim takes. */
  ghost function Pick(rows: Rows, now: int): (p: Option<nat>)
    ensures p.Some? ==> IsPick(rows, now, p.value)
    ensures p.None? <==> forall i :: i in rows ==> !Eligible(rows[i], now)
    ensures forall i: nat :: IsPick(rows, now, i) ==> p == Some(i)
  {
    if k: nat :| IsPick(rows, now, k) then Some(k)
    else
      assert forall i :: i in rows ==> !Eligible(rows[i], now) by {
        forall i | i in rows ensures !Eligible(rows[i], now) {
          if Eligible(rows[i], now) {
            var k := SomeoneIsPicked(rows, now, i);
          }
        }
      }
      None
  }

  ghost function Claimed(rows: Rows, t0: int, t1: int, t2: int): Rows {
    var open := ExpireAll(rows, t0);
    match Pick(open, t1)
    case None => open
    case Some(i) => open[i := open[i].(lease := Some(t2 + LEASE))]
  }

  // ------------------------------------------------------------ a worker's writes

  predicate Holds(rows: Rows, id: nat, lease: int) {
    id in rows && rows[id].lease == Some(lease)
  }

  function Bound(rows: Rows, id: nat, lease: int, binding: (int, string)): Rows {
    if Holds(rows, id, lease) && rows[id].binding.None? then rows[id := rows[id].(binding := Some(binding))] else rows
  }

  function Min(a: int, b: int): int { if a <= b then a else b }

  /** A failure that ends the request. */
  predicate Final(code: int, message: string) {
    message != "need_review" && code in {400, 403, 404, 409, 410}
  }

  function FinishedRow(r: Row, review: Option<Review>, outcome: Outcome, checked: int, from: int): Row {
    var r := r.(review := review, lease := None, lastChecked := Some(checked), updatedAt := checked);
    match outcome
    case Receipt(status, validBefore) =>
      r.(status := status, remoteExpiry := Some(validBefore),
         expiredAfter := if status == Pending then Min(r.deadline, validBefore) else r.expiredAfter,
         next := from + (if status == Active then 30 else 3), attempts := r.attempts + 1, message := None)
    case Failure(code, message) =>
      var waits := message == "need_review";
      r.(status := if Final(code, message) then Failed else r.status,
         next := from + (if waits then 30 else 5), attempts := r.attempts + (if waits then 0 else 1),
         message := Some(message))
  }

  /** The closing transaction of an attempt; a violated index drops all of it. */
  ghost function Finished(rows: Rows, id: nat, lease: int, review: Option<Review>, outcome: Outcome, checked: int,
                          from: int): Rows {
    if !Holds(rows, id, lease) then rows
    else
      var after := rows[id := FinishedRow(rows[id], review, outcome, checked, from)];
      if IndexHolds(after) then after else rows
  }

  // ------------------------------------------------------------ submitting

  predicate Waits(rows: Rows, target: string) {
    exists i :: i in rows && rows[i].target == target && Unfinished(rows[i].status)
  }

  function NewRow(target: string, validBefore: int, now: int, binding: Option<(int, string)>): Row {
    Row(target, Queued, validBefore, validBefore, None, now, 0, None, binding, None, None, None, now, now)
  }

  /** The deadline a submission asks for. */
  function RequestExpiry(time: int, expiresAfter: Option<int>, validBefore: Option<int>): (r: Result<int, Error>)
    requires 0 <= time && time + WEEK <= I64_MAX
    ensures r.Ok? ==> time < r.value <= if validBefore.Some? then validBefore.value else I64_MAX
    ensures r.Ok? && expiresAfter.Some? ==> r.value == time + expiresAfter.value
    ensures r.Ok? && expiresAfter.None? ==> r.value == if validBefore.Some? then validBefore.value else time + WEEK
    ensures r.Ok? <==>
      && (expiresAfter.Some? ==> validBefore.None? && 0 < expiresAfter.value <= I64_MAX - time)
      && (validBefore.Some? ==> time < validBefore.value)
  {
    match (expiresAfter, validBefore)
    case (Some(_), Some(_)) => Err(BadExpiry)
    case (Some(seconds), None) =>
      if seconds <= 0 || time + seconds > I64_MAX then Err(BadExpiry) else Ok(time + seconds)
    case (None, Some(at)) => if at <= time then Err(BadExpiry) else Ok(at)
    case (None, None) => Ok(time + WEEK)
  }

  // ------------------------------------------------------------ cancelling and undoing

  predicate Busy(rows: Rows, target: string, now: int) {
    exists i :: i in rows && rows[i].target == target && rows[i].status != Revoked
                && rows[i].lease.Some? && rows[i].lease.value > now
  }

  /** One clock reading for each name. */
  type Readings = map<string, int>

  function RevokedRow(r: Row, written: Readings): Row {
    if r.target in written then r.(status := Revoked, lease := None, updatedAt := written[r.target]) else r
  }

  function RevokeAll(rows: Rows, written: Readings): Rows {
    map i | i in rows :: RevokedRow(rows[i], written)
  }

  /** The readings of the first n updates; of a repeated name the last one stands. */
  function LastReadings(names: seq<string>, written: seq<int>, n: nat): Readings
    requires n <= |names| == |written|
  {
    if n == 0 then map[] else LastReadings(names, written, n - 1)[names[n - 1] := written[n - 1]]
  }

  lemma {:induction false} ReadNames(names: seq<string>, written: seq<int>, n: nat)
    requires n <= |names| == |written|
    ensures forall name :: name in LastReadings(names, written, n) <==> exists k :: 0 <= k < n && names[k] == name
  {
    if n > 0 {
      ReadNames(names, written, n - 1);
    }
  }

  /** The readings of a cancellation, two for each name: one for the test, one for the update. */
  predicate InOrder(checked: seq<int>, written: seq<int>) {
    && |checked| == |written|
    && (forall k :: 0 <= k < |checked| ==> checked[k] <= written[k])
    && (forall j, k :: 0 <= j < k < |checked| ==> checked[j] <= checked[k])
  }

  function Snapshots(rows: Rows, names: set<string>): map<nat, Snapshot> {
    map i | i in rows && rows[i].target in names && rows[i].status != Revoked ::
      Snapshot(rows[i].status, rows[i].updatedAt)
  }

  function UndoneRow(r: Row, held: Option<Snapshot>): Row {
    if held.Some? && r.status == Revoked then r.(status := held.value.status, updatedAt := held.value.updatedAt) else r
  }

  function Held(held: map<nat, Snapshot>, i: nat): Option<Snapshot> {
    if i in held then Some(held[i]) else None
  }

  function UndoAll(rows: Rows, held: map<nat, Snapshot>): Rows {
    map i | i in rows :: UndoneRow(rows[i], Held(held, i))
  }

  ghost function Undone(rows: Rows, held: map<nat, Snapshot>): Rows {
    var after := UndoAll(rows, held);
    if IndexHolds(after) then after else rows
  }

  // ------------------------------------------------------------ the queue as an object

  class Queue {
    var rows: Rows
    var sequence: nat

    ghost predicate Valid()
      reads this
    {
      IndexHolds(rows) && forall i :: i in rows ==> i <= sequence
    }

    method Claim(t0: int, t1: int, t2: int) returns (job: Option<(nat, Row)>, lease: int)
      requires Valid()
      modifies `rows
      ensures Valid() && rows == Claimed(old(rows), t0, t1, t2) && lease == t2 + LEASE
      ensures job == (match Pick(ExpireAll(old(rows), t0), t1)
                      case None => None
                      case Some(i) => Some((i, ExpireAll(old(rows), t0)[i])))
    {
      ExpiryKeepsIndex(rows, t0);
      rows := ExpireAll(rows, t0);
      lease := t2 + LEASE;
      job := None;
      if exists i :: i in rows && Eligible(rows[i], t1) {
        ghost var p := Pick(rows, t1);
        assert IsPick(rows, t1, p.value);
        var i: nat :| i in rows && IsPick(rows, t1, i);
        job := Some((i, rows[i]));
        rows := rows[i := rows[i].(lease := Some(lease))];
      }
    }

    /** The binding write and the closing transaction take effect only under the job's own lease. */
    method Bind(id: nat, lease: int, binding: (int, string))
      requires Valid()
      modifies `rows
      ensures Valid() && rows == Bound(old(rows), id, lease, binding)
    {
      if Holds(rows, id, lease) && rows[id].binding.None? {
        rows := rows[id := rows[id].(binding := Some(binding))];
      }
    }

    method Finish(id: nat, lease: int, review: Option<Review>, outcome: Outcome, checked: int, from: int)
      returns (ok: bool)
      requires Valid()
      modifies `rows
      ensures Valid() && rows == Finished(old(rows), id, lease, review, outcome, checked, from)
      ensures ok <==> (Holds(old(rows), id, lease) ==>
                       IndexHolds(old(rows)[id := FinishedRow(old(rows)[id], review, outcome, checked, from)]))
    {
      if !Holds(rows, id, lease) {
        return true;
      }
      var after := FinishedRow(rows[id], review, outcome, checked, from);
      ok := !Unfinished(after.status)
        || forall j :: j in rows && j != id && Unfinished(rows[j].status) ==> rows[j].target != after.target;
      UpdateKeepsIndex(rows, id, after);
      if ok {
        rows := rows[id := after];
      }
    }

    /** Expire what is due, a transaction of its own before a request is entered. */
    method Expire(now: int)
      requires Valid()
      modifies `rows
      ensures Valid() && rows == ExpireAll(old(rows), now)
    {
      ExpiryKeepsIndex(rows, now);
      rows := ExpireAll(rows, now);
    }

    /** Enter a request, unless one to its target is waiting at that moment. */
    method Submit(target: string, validBefore: int, now: int, binding: Option<(int, string)>)
      returns (r: Result<nat, Error>)
      requires Valid()
      modifies this
      ensures Valid()
      ensures r.Err? <==> Waits(old(rows), target)
      ensures r.Err? ==> rows == old(rows) && sequence == old(sequence)
      ensures r.Ok? ==> r.value == sequence == old(sequence) + 1
      ensures r.Ok? ==> rows == old(rows)[r.value := NewRow(target, validBefore, now, binding)]
    {
      if Waits(rows, target) {
        return Err(AlreadyPending);
      }
      sequence := sequence + 1;
      rows := rows[sequence := NewRow(target, validBefore, now, binding)];
      r := Ok(sequence);
    }

    /** Revoke every request to the named targets, unless one of them is being delivered. */
    method Cancel(names: seq<string>, checked: seq<int>, written: seq<int>)
      returns (r: Result<map<nat, Snapshot>, Error>)
      requires Valid() && |names| == |checked| && InOrder(checked, written)
      modifies `rows
      ensures Valid()
      ensures r.Err? <==> exists k :: 0 <= k < |names| && Busy(old(rows), names[k], checked[k])
      ensures r.Err? ==> rows == old(rows)
      ensures r.Ok? ==>
        var all := LastReadings(names, written, |names|);
        rows == RevokeAll(old(rows), all) && r.value == Snapshots(old(rows), all.Keys)
    {
      var work, previous := rows, map[];
      assert RevokeAll(rows, map[]) == rows;
      for k := 0 to |names|
        invariant rows == old(rows)
        invariant work == RevokeAll(rows, LastReadings(names, written, k))
        invariant previous == Snapshots(rows, LastReadings(names, written, k).Keys)
        invariant forall j :: 0 <= j < k ==> !Busy(rows, names[j], checked[j])
      {
        StillBusy(rows, names, checked, written, k);
        if Busy(work, names[k], checked[k]) {
          return Err(DeliveryInProgress);
        }
        RevokeMore(rows, LastReadings(names, written, k), names[k], written[k]);
        previous := previous + Snapshots(work, {names[k]});
        work := RevokeAll(work, map[names[k] := written[k]]);
      }
      RevokingKeepsIndex(rows, LastReadings(names, written, |names|));
      rows := work;
      r := Ok(previous);
    }

    /** The compensation when the deletion itself failed. */
    method Restore(held: map<nat, Snapshot>) returns (ok: bool)
      requires Valid()
      modifies `rows
      ensures Valid() && rows == Undone(old(rows), held)
      ensures ok <==> IndexHolds(UndoAll(old(rows), held))
    {
      var work := rows;
      var rest := held.Keys;
      assert UndoAll(rows, map[]) == rows;
      while rest != {}
        invariant rows == old(rows) && rest <= held.Keys && work == UndoAll(rows, held - rest)
        decreases rest
      {
        var i :| i in rest;
        if i in work {
          work := work[i := UndoneRow(work[i], Some(held[i]))];
        }
        assert forall j :: Held(held - (rest - {i}), j) == if j == i then Some(held[i]) else Held(held - rest, j);
        rest := rest - {i};
      }
      assert held - rest == held;
      ok := forall i, j ::
        i in work && j in work && i != j && Unfinished(work[i].status) && Unfinished(work[j].status) ==>
        work[i].target != work[j].target;
      if ok {
        rows := work;
      }
    }
  }

  lemma ExpiryKeepsIndex(rows: Rows, now: int)
    requires IndexHolds(rows)
    ensures IndexHolds(ExpireAll(rows, now))
  {
  }

  lemma RevokingKeepsIndex(rows: Rows, written: Readings)
    requires IndexHolds(rows)
    ensures IndexHolds(RevokeAll(rows, written))
  {
  }

  lemma UpdateKeepsIndex(rows: Rows, id: nat, r: Row)
    requires IndexHolds(rows) && id in rows
    ensures IndexHolds(rows[id := r]) <==>
      (!Unfinished(r.status)
       || forall j :: j in rows && j != id && Unfinished(rows[j].status) ==> rows[j].target != r.target)
  {
    var after := rows[id := r];
    if IndexHolds(after) && Unfinished(r.status) {
      forall j | j in rows && j != id && Unfinished(rows[j].status) ensures rows[j].target != r.target {
        assert j in after && id in after;
      }
    }
  }

  lemma RevokeMoreRows(rows: Rows, done: Readings, name: string, now: int)
    ensures RevokeAll(RevokeAll(rows, done), map[name := now]) == RevokeAll(rows, done[name := now])
  {
    var work := RevokeAll(rows, done);
    forall i | i in rows ensures RevokedRow(work[i], map[name := now]) == RevokedRow(rows[i], done[name := now]) {
      assert work[i] == RevokedRow(rows[i], done);
    }
  }

  lemma SnapshotsMore(rows: Rows, done: Readings, name: string, now: int)
    ensures Snapshots(rows, done.Keys) + Snapshots(RevokeAll(rows, done), {name}) ==
      Snapshots(rows, done[name := now].Keys)
  {
    var work := RevokeAll(rows, done);
    assert forall i :: i in rows ==> work[i] == RevokedRow(rows[i], done);
  }

  /** Revoking one more name after others; a repeated name finds nothing left to remember. */
  lemma RevokeMore(rows: Rows, done: Readings, name: string, now: int)
    ensures var work := RevokeAll(rows, done);
      && RevokeAll(work, map[name := now]) == RevokeAll(rows, done[name := now])
      && Snapshots(rows, done.Keys) + Snapshots(work, {name}) == Snapshots(rows, done[name := now].Keys)
  {
    RevokeMoreRows(rows, done, name, now);
    SnapshotsMore(rows, done, name, now);
  }

  /** A delivery that is over at one reading is over at every later one. */
  lemma BusyFades(rows: Rows, name: string, earlier: int, later: int)
    requires earlier <= later && !Busy(rows, name, earlier)
    ensures !Busy(rows, name, later)
  {
    forall i | i in rows && rows[i].target == name && rows[i].status != Revoked && rows[i].lease.Some?
      ensures rows[i].lease.value <= later
    {
      assert rows[i].lease.value <= earlier;
    }
  }

  /** The test of the next name in the middle of a cancellation answers as it would have before. */
  lemma StillBusy(rows: Rows, names: seq<string>, checked: seq<int>, written: seq<int>, k: nat)
    requires k < |names| == |checked| && InOrder(checked, written)
    requires forall j :: 0 <= j < k ==> !Busy(rows, names[j], checked[j])
    ensures Busy(RevokeAll(rows, LastReadings(names, written, k)), names[k], checked[k]) <==>
      Busy(rows, names[k], checked[k])
  {
    var done, name, now := LastReadings(names, written, k), names[k], checked[k];
    var work := RevokeAll(rows, done);
    ReadNames(names, written, k);
    if name in done {
      var j :| 0 <= j < k && names[j] == name;
      BusyFades(rows, name, checked[j], now);
    }
    if Busy(rows, name, now) {
      var i :| i in rows && rows[i].target == name && rows[i].status != Revoked && rows[i].lease.Some?
        && rows[i].lease.value > now;
      assert work[i] == rows[i];
    }
    if Busy(work, name, now) {
      var i :| i in work && work[i].target == name && work[i].status != Revoked && work[i].lease.Some?
        && work[i].lease.value > now;
      assert work[i] == RevokedRow(rows[i], done);
    }
  }
}
