/** Whole batches and removals over the registry, and every run of them. */
module Installation {
  import opened Wrappers
  import opened Identity
  import opened Digraph
  import opened Registration

  // ------------------------------------------------------------ examining a batch

  /** The owner a current row proves: its own, or the one its predecessor's receipt names. */
  function ProvenOwner(row: Row, p: Candidate): Option<string> {
    if row.owner.Some? then row.owner
    else if p.previous.Some? && p.previous.value.id == p.id && p.previous.value.version == row.version
            && p.previous.value.verified
    then Some(p.previous.value.owner)
    else None
  }

  predicate SameRelease(row: Row, p: Candidate) {
    row.version == p.version && row.sha == Some(p.sha) && row.leaf == Some(p.leaf)
    && row.hasLib == p.hasLib && row.hasApp == p.hasApp
  }

  predicate LoadedAt(rt: Runtime, p: Candidate) {
    && (p.hasLib ==> IdOf(p.id) in rt.libs && rt.libs[IdOf(p.id)] == p.version)
    && (p.hasApp ==> IdOf(p.id) in rt.apps && rt.apps[IdOf(p.id)] == p.version)
  }

  /** A member other than the requested root that is installed and loaded unchanged. */
  predicate Reused(t: Tables, rt: Runtime, p: Candidate, isRoot: bool) {
    !isRoot && p.id.name in t.packages && SameRelease(t.packages[p.id.name], p) && LoadedAt(rt, p)
  }

  /** Accept one member; the value tells whether it is reused. */
  function Examined(t: Tables, rt: Runtime, names: set<string>, p: Candidate, isRoot: bool): Result<bool, Error> {
    if !ValidName(p.id.name) then Err(BadRequest)
    else if p.id.name == "std" || p.id.name in names then Err(BadRequest)
    else if !p.evidence then Err(PolicyRejected)
    else if !NameFree(t, p.id) then Err(NameTaken(p.id.name))
    else if p.id.name in t.packages && ProvenOwner(t.packages[p.id.name], p) != Some(p.owner)
    then Err(OwnershipConflict)
    else if p.id.name in t.packages && t.packages[p.id.name].version == p.version
            && t.packages[p.id.name].sha.Some? && t.packages[p.id.name].sha != Some(p.sha) then Err(VersionConflict)
    else if Reused(t, rt, p, isRoot) then Ok(true)
    else if !p.routesClear then Err(RouteConflict)
    else Ok(false)
  }

  function NamesOf(batch: seq<Candidate>): set<string> {
    set p | p in batch :: p.id.name
  }

  function VerdictAt(t: Tables, rt: Runtime, batch: seq<Candidate>, i: nat): Result<bool, Error>
    requires i < |batch|
  {
    Examined(t, rt, NamesOf(batch[..i]), batch[i], i + 1 == |batch|)
  }

  /** The members of the batch from the i-th on that must be written. */
  function Changed(t: Tables, rt: Runtime, batch: seq<Candidate>, i: nat): Result<seq<Candidate>, Error>
    requires i <= |batch|
    decreases |batch| - i
  {
    if i == |batch| then Ok([])
    else
      var verdict := VerdictAt(t, rt, batch, i);
      if verdict.Err? then Err(verdict.error)
      else
        var rest := Changed(t, rt, batch, i + 1);
        if rest.Err? || verdict.value then rest else Ok([batch[i]] + rest.value)
  }

  ghost function SavedAll(t: Tables, changed: seq<Candidate>, now: int, i: nat): Result<Tables, Error>
    requires i <= |changed|
    decreases |changed| - i
  {
    if i == |changed| then Ok(t)
    else
      var one := Saved(t, changed[i], now);
      if one.Err? then one else SavedAll(one.value, changed, now, i + 1)
  }

  datatype Outcome = Outcome(tables: Tables, changed: seq<Candidate>)

  /** One installation transaction up to, not including, its commit. */
  ghost function Installed(t: Tables, rt: Runtime, batch: seq<Candidate>, now: int): Result<Outcome, Error> {
    if batch == [] || |batch| > MAX_BATCH then Err(BadRequest)
    else
      var changed := Changed(t, rt, batch, 0);
      if changed.Err? then Err(changed.error)
      else
        var saved := SavedAll(WithoutOutgoing(t, NamesOf(changed.value)), changed.value, now, 0);
        if saved.Err? then Err(saved.error) else Ok(Outcome(saved.value, changed.value))
  }

  function Prefixed(done: seq<Candidate>, rest: Result<seq<Candidate>, Error>): Result<seq<Candidate>, Error> {
    if rest.Err? then rest else Ok(done + rest.value)
  }

  lemma PrefixedNothing(rest: Result<seq<Candidate>, Error>)
    ensures Prefixed([], rest) == rest
  {
    if rest.Ok? {
      assert [] + rest.value == rest.value;
    }
  }

  /** One member examined: refuse the batch, skip it, or add it to what is written. */
  lemma ExamineStep(t: Tables, rt: Runtime, batch: seq<Candidate>, i: nat, done: seq<Candidate>)
    requires i < |batch|
    ensures VerdictAt(t, rt, batch, i).Err? ==>
      Prefixed(done, Changed(t, rt, batch, i)) == Err(VerdictAt(t, rt, batch, i).error)
    ensures VerdictAt(t, rt, batch, i) == Ok(true) ==>
      Prefixed(done, Changed(t, rt, batch, i)) == Prefixed(done, Changed(t, rt, batch, i + 1))
    ensures VerdictAt(t, rt, batch, i) == Ok(false) ==>
      Prefixed(done, Changed(t, rt, batch, i)) == Prefixed(done + [batch[i]], Changed(t, rt, batch, i + 1))
  {
    var rest := Changed(t, rt, batch, i + 1);
    if rest.Ok? {
      assert done + ([batch[i]] + rest.value) == done + [batch[i]] + rest.value;
    }
  }

  lemma NamesGrow(batch: seq<Candidate>, i: nat)
    requires i < |batch|
    ensures NamesOf(batch[..i + 1]) == NamesOf(batch[..i]) + {batch[i].id.name}
  {
    assert batch[..i + 1] == batch[..i] + [batch[i]];
  }

  method ExamineBatch(t: Tables, rt: Runtime, batch: seq<Candidate>) returns (r: Result<seq<Candidate>, Error>)
    ensures r == Changed(t, rt, batch, 0)
  {
    var names: set<string> := {};
    var changed: seq<Candidate> := [];
    PrefixedNothing(Changed(t, rt, batch, 0));
    for i := 0 to |batch|
      invariant names == NamesOf(batch[..i])
      invariant Changed(t, rt, batch, 0) == Prefixed(changed, Changed(t, rt, batch, i))
    {
      var verdict := Examined(t, rt, names, batch[i], i + 1 == |batch|);
      ExamineStep(t, rt, batch, i, changed);
      NamesGrow(batch, i);
      if verdict.Err? {
        return Err(verdict.error);
      }
      names := names + {batch[i].id.name};
      if !verdict.value {
        changed := changed + [batch[i]];
      }
    }
    assert changed + [] == changed;
    r := Ok(changed);
  }

  method DropOutgoing(t: Tables, changed: seq<Candidate>) returns (work: Tables)
    ensures work == WithoutOutgoing(t, NamesOf(changed))
  {
    work := t;
    assert WithoutOutgoing(t, {}) == t by { assert WithoutOutgoing(t, {}).dependencies == t.dependencies; }
    for i := 0 to |changed|
      invariant work == WithoutOutgoing(t, NamesOf(changed[..i]))
    {
      assert changed[..i + 1] == changed[..i] + [changed[i]];
      assert NamesOf(changed[..i + 1]) == NamesOf(changed[..i]) + {changed[i].id.name};
      DropTwice(t, NamesOf(changed[..i]), {changed[i].id.name});
      work := WithoutOutgoing(work, {changed[i].id.name});
    }
    assert changed[..|changed|] == changed;
  }

  lemma DropTwice(t: Tables, a: set<string>, b: set<string>)
    ensures WithoutOutgoing(WithoutOutgoing(t, a), b) == WithoutOutgoing(t, a + b)
  {
    assert WithoutOutgoing(WithoutOutgoing(t, a), b).dependencies == WithoutOutgoing(t, a + b).dependencies;
  }

  /** The transaction: examine every member against the old installation, drop the outgoing edges
      of what changes, then register in dependency order. */
  method InstallTransaction(t: Tables, rt: Runtime, batch: seq<Candidate>, now: int) returns (r: Result<Outcome, Error>)
    ensures r == Installed(t, rt, batch, now)
  {
    if |batch| == 0 || |batch| > MAX_BATCH {
      return Err(BadRequest);
    }
    var changed := ExamineBatch(t, rt, batch);
    if changed.Err? {
      return Err(changed.error);
    }
    var work := DropOutgoing(t, changed.value);
    var saved := SaveAll(work, changed.value, now);
    if saved.Err? {
      return Err(saved.error);
    }
    r := Ok(Outcome(saved.value, changed.value));
  }

  method SaveAll(t: Tables, changed: seq<Candidate>, now: int) returns (r: Result<Tables, Error>)
    ensures r == SavedAll(t, changed, now, 0)
  {
    var work := t;
    for i := 0 to |changed|
      invariant SavedAll(t, changed, now, 0) == SavedAll(work, changed, now, i)
    {
      var one := SaveRegistration(work, changed[i], now);
      if one.Err? {
        return one;
      }
      work := one.value;
    }
    r := Ok(work);
  }

  // ------------------------------------------------------------ removal

  predicate Required(t: Tables, name: string) {
    exists k :: k in t.dependencies && k.1 == name
  }

  function Removed(t: Tables, id: PackageId): Result<Tables, Error> {
    if id.name !in t.packages || RowId(id.name, t.packages[id.name]) != id then Ok(t)
    else if Required(t, id.name) then Err(StillRequired(id.name))
    else Ok(Tables(t.packages - {id.name},
                   WithoutOutgoing(t, {id.name}).dependencies,
                   t.groups - {id.name}))
  }

  // ------------------------------------------------------------ what a batch keeps

  /** While a name stays installed its author is fixed, and an owner once recorded is fixed. */
  ghost predicate Steady(t: Tables, u: Tables) {
    forall n :: n in t.packages && n in u.packages ==>
      && u.packages[n].author == t.packages[n].author
      && (t.packages[n].owner.Some? ==> u.packages[n].owner == t.packages[n].owner)
  }

  ghost predicate NamedFrom(changed: seq<Candidate>, i: nat, n: string) {
    exists j :: i <= j < |changed| && changed[j].id.name == n
  }

  /** Only names of the batch are added or rewritten. */
  ghost predicate RewritesOnly(t: Tables, u: Tables, changed: seq<Candidate>, i: nat) {
    && (forall n :: n in u.packages <==> n in t.packages || NamedFrom(changed, i, n))
    && (forall n :: n in t.packages && !NamedFrom(changed, i, n) ==> u.packages[n] == t.packages[n])
  }

  lemma {:induction false} SaveAllKeeps(t: Tables, changed: seq<Candidate>, now: int, i: nat)
    requires i <= |changed| && Consistent(t) && SavedAll(t, changed, now, i).Ok?
    ensures var u := SavedAll(t, changed, now, i).value;
      Consistent(u) && Steady(t, u) && RewritesOnly(t, u, changed, i)
    decreases |changed| - i
  {
    if i < |changed| {
      var p := changed[i];
      var one := Saved(t, p, now).value;
      SaveKeepsConsistent(t, p, now);
      SaveWritesItsRows(t, p, now);
      SaveAllKeeps(one, changed, now, i + 1);
      forall n ensures NamedFrom(changed, i, n) <==> n == p.id.name || NamedFrom(changed, i + 1, n) {
        if n == p.id.name {
          assert changed[i].id.name == n;
        }
      }
    }
  }

  /** A successful batch leaves a consistent registry in which authors and owners are unchanged,
      exactly the changed names are rewritten, and nothing is uninstalled. */
  lemma InstallKeepsConsistent(t: Tables, rt: Runtime, batch: seq<Candidate>, now: int)
    requires Consistent(t) && Installed(t, rt, batch, now).Ok?
    ensures var o := Installed(t, rt, batch, now).value;
      && Consistent(o.tables) && Steady(t, o.tables)
      && RewritesOnly(t, o.tables, o.changed, 0)
  {
    var o := Installed(t, rt, batch, now).value;
    var u := WithoutOutgoing(t, NamesOf(o.changed));
    DroppingKeepsConsistent(t, NamesOf(o.changed));
    SaveAllKeeps(u, o.changed, now, 0);
  }

  lemma RemoveKeepsConsistent(t: Tables, id: PackageId)
    requires Consistent(t) && Removed(t, id).Ok?
    ensures Consistent(Removed(t, id).value) && Steady(t, Removed(t, id).value)
    ensures Removed(t, id).value.packages.Keys ==
      if id.name in t.packages && t.packages[id.name].author == id.author then t.packages.Keys - {id.name}
      else t.packages.Keys
  {
    var u := Removed(t, id).value;
    if u != t {
      EdgesAreRows(t);
      EdgesAreRows(u);
      FewerEdgesStayAcyclic(Graph(t), Graph(u));
      forall k | k in u.dependencies ensures ExactRow(u, k) {
        assert ExactRow(t, k);
      }
    }
  }

  // ------------------------------------------------------------ order of a batch

  /** Where the written members come from, and what the others are. */
  lemma {:induction false} ChangedVerdicts(t: Tables, rt: Runtime, batch: seq<Candidate>, i: nat)
    requires i <= |batch| && Changed(t, rt, batch, i).Ok?
    ensures forall j {:trigger VerdictAt(t, rt, batch, j)} :: i <= j < |batch| ==>
      VerdictAt(t, rt, batch, j).Ok?
        && (!VerdictAt(t, rt, batch, j).value ==> batch[j] in Changed(t, rt, batch, i).value)
    ensures forall p :: p in Changed(t, rt, batch, i).value ==> WrittenFrom(t, rt, batch, i, p)
    decreases |batch| - i
  {
    if i < |batch| {
      ChangedVerdicts(t, rt, batch, i + 1);
      forall p | p in Changed(t, rt, batch, i).value ensures WrittenFrom(t, rt, batch, i, p) {
        if p in Changed(t, rt, batch, i + 1).value {
          assert WrittenFrom(t, rt, batch, i + 1, p);
        } else {
          assert VerdictAt(t, rt, batch, i) == Ok(false) && batch[i] == p;
        }
      }
    }
  }

  ghost predicate WrittenFrom(t: Tables, rt: Runtime, batch: seq<Candidate>, i: nat, p: Candidate) {
    exists j :: i <= j < |batch| && batch[j] == p && VerdictAt(t, rt, batch, j) == Ok(false)
  }

  /** What is written passed the route checks and has a valid name. */
  lemma WrittenIsChecked(t: Tables, rt: Runtime, batch: seq<Candidate>, now: int, p: Candidate)
    requires Installed(t, rt, batch, now).Ok? && p in Installed(t, rt, batch, now).value.changed
    ensures p in batch && p.routesClear && ValidName(p.id.name)
  {
    ChangedVerdicts(t, rt, batch, 0);
    assert WrittenFrom(t, rt, batch, 0, p);
  }

  ghost predicate DistinctNames(c: seq<Candidate>) {
    forall j, k :: 0 <= j < k < |c| ==> c[j].id.name != c[k].id.name
  }

  /** A later written member never repeats an earlier member's name. */
  lemma LaterNamesDiffer(t: Tables, rt: Runtime, batch: seq<Candidate>, i: nat, p: Candidate)
    requires i < |batch| && Changed(t, rt, batch, i + 1).Ok? && p in Changed(t, rt, batch, i + 1).value
    ensures p.id.name != batch[i].id.name
  {
    ChangedVerdicts(t, rt, batch, i + 1);
    assert WrittenFrom(t, rt, batch, i + 1, p);
    var j :| i + 1 <= j < |batch| && batch[j] == p && VerdictAt(t, rt, batch, j) == Ok(false);
    assert batch[i] in batch[..j];
    assert batch[i].id.name in NamesOf(batch[..j]);
  }

  lemma DistinctWithHead(c: seq<Candidate>, p: Candidate)
    requires DistinctNames(c) && forall q :: q in c ==> q.id.name != p.id.name
    ensures DistinctNames([p] + c)
  {
  }

  lemma {:induction false} ChangedDistinct(t: Tables, rt: Runtime, batch: seq<Candidate>, i: nat)
    requires i <= |batch| && Changed(t, rt, batch, i).Ok?
    ensures var c := Changed(t, rt, batch, i).value;
      DistinctNames(c) && |c| <= |batch| - i && (i < |batch| ==> c != [] && c[|c| - 1] == batch[|batch| - 1])
    decreases |batch| - i
  {
    if i < |batch| {
      ChangedDistinct(t, rt, batch, i + 1);
      var rest := Changed(t, rt, batch, i + 1).value;
      forall q | q in rest ensures q.id.name != batch[i].id.name {
        LaterNamesDiffer(t, rt, batch, i, q);
      }
      DistinctWithHead(rest, batch[i]);
    }
  }

  /** The requested root is always written, and a batch never writes one name twice. */
  lemma ChangedIsNonempty(t: Tables, rt: Runtime, batch: seq<Candidate>, now: int)
    requires Installed(t, rt, batch, now).Ok?
    ensures var c := Installed(t, rt, batch, now).value.changed;
      0 < |c| <= MAX_BATCH && c[|c| - 1] == batch[|batch| - 1] && DistinctNames(c)
  {
    ChangedDistinct(t, rt, batch, 0);
  }

  // ------------------------------------------------------------ runs

  datatype Operation =
    | Install(rt: Runtime, batch: seq<Candidate>, now: int)
    | Remove(id: PackageId)

  /** One committed or refused operation. */
  ghost function Step(t: Tables, op: Operation): Tables {
    match op
    case Install(rt, batch, now) =>
      var r := Installed(t, rt, batch, now);
      if r.Ok? then r.value.tables else t
    case Remove(id) =>
      var r := Removed(t, id);
      if r.Ok? then r.value else t
  }

  ghost function Run(t: Tables, ops: seq<Operation>): Tables
    decreases |ops|
  {
    if ops == [] then t else Run(Step(t, ops[0]), ops[1..])
  }

  lemma StepKeepsConsistent(t: Tables, op: Operation)
    requires Consistent(t)
    ensures Consistent(Step(t, op)) && Steady(t, Step(t, op))
    ensures forall n :: n in t.packages && !(op.Remove? && op.id.name == n) ==> n in Step(t, op).packages
  {
    match op
    case Install(rt, batch, now) =>
      if Installed(t, rt, batch, now).Ok? {
        InstallKeepsConsistent(t, rt, batch, now);
      }
    case Remove(id) =>
      if Removed(t, id).Ok? {
        RemoveKeepsConsistent(t, id);
      }
  }

  lemma {:induction false} RunsStayConsistentFrom(t: Tables, ops: seq<Operation>)
    requires Consistent(t)
    ensures Consistent(Run(t, ops))
    decreases |ops|
  {
    if ops != [] {
      StepKeepsConsistent(t, ops[0]);
      RunsStayConsistentFrom(Step(t, ops[0]), ops[1..]);
    }
  }

  /** Over every run of installs and removals from an empty registry, every dependency row points
      at an installed package of exactly its version and the graph is acyclic. */
  lemma RunsStayConsistent(ops: seq<Operation>)
    ensures Consistent(Run(EMPTY, ops))
  {
    EdgesAreRows(EMPTY);
    NoEdgesIsAcyclic(Graph(EMPTY));
    RunsStayConsistentFrom(EMPTY, ops);
  }

  /** Between two removals of a name, whatever else is installed or removed, its author never
      changes and its recorded owner never changes. */
  lemma {:induction false} IdentityIsFixedUntilRemoval(t: Tables, ops: seq<Operation>, name: string)
    requires Consistent(t) && name in t.packages
    requires forall i :: 0 <= i < |ops| ==> !(ops[i].Remove? && ops[i].id.name == name)
    ensures name in Run(t, ops).packages
    ensures Run(t, ops).packages[name].author == t.packages[name].author
    ensures t.packages[name].owner.Some? ==> Run(t, ops).packages[name].owner == t.packages[name].owner
    decreases |ops|
  {
    if ops != [] {
      var u := Step(t, ops[0]);
      StepKeepsConsistent(t, ops[0]);
      assert forall i :: 0 <= i < |ops| - 1 ==> ops[1..][i] == ops[i + 1];
      IdentityIsFixedUntilRemoval(u, ops[1..], name);
    }
  }

  /** After a batch every member is installed, at the version, author and digest the batch names,
      whether it was written or reused. */
  lemma BatchIsInstalled(t: Tables, rt: Runtime, batch: seq<Candidate>, now: int, i: nat)
    requires Consistent(t) && Installed(t, rt, batch, now).Ok? && i < |batch|
    ensures var u := Installed(t, rt, batch, now).value.tables; var p := batch[i];
      && p.id.name in u.packages
      && u.packages[p.id.name].author == Some(p.id.author) && u.packages[p.id.name].version == p.version
      && u.packages[p.id.name].sha == Some(p.sha)
  {
    var o := Installed(t, rt, batch, now).value;
    var p := batch[i];
    InstallKeepsConsistent(t, rt, batch, now);
    ChangedVerdicts(t, rt, batch, 0);
    assert VerdictAt(t, rt, batch, i).Ok?;
    if VerdictAt(t, rt, batch, i).value {
      ReusedIsNotWritten(t, rt, batch, i);
    } else {
      var k :| 0 <= k < |o.changed| && o.changed[k] == p;
      ChangedDistinct(t, rt, batch, 0);
      DroppingKeepsConsistent(t, NamesOf(o.changed));
      WrittenRow(WithoutOutgoing(t, NamesOf(o.changed)), o.changed, now, 0, k);
    }
  }

  lemma ReusedIsNotWritten(t: Tables, rt: Runtime, batch: seq<Candidate>, i: nat)
    requires Changed(t, rt, batch, 0).Ok? && i < |batch| && VerdictAt(t, rt, batch, i) == Ok(true)
    ensures !NamedFrom(Changed(t, rt, batch, 0).value, 0, batch[i].id.name)
  {
    var c := Changed(t, rt, batch, 0).value;
    ChangedVerdicts(t, rt, batch, 0);
    forall k | 0 <= k < |c| ensures c[k].id.name != batch[i].id.name {
      assert WrittenFrom(t, rt, batch, 0, c[k]);
      var j :| 0 <= j < |batch| && batch[j] == c[k] && VerdictAt(t, rt, batch, j) == Ok(false);
      if i < j {
        assert batch[i] in batch[..j];
      } else if j < i {
        assert batch[j] in batch[..i];
      }
    }
  }

  lemma {:induction false} WrittenRow(t: Tables, changed: seq<Candidate>, now: int, i: nat, k: nat)
    requires i <= k < |changed| && Consistent(t) && SavedAll(t, changed, now, i).Ok? && DistinctNames(changed)
    ensures var u := SavedAll(t, changed, now, i).value; var p := changed[k];
      p.id.name in u.packages && u.packages[p.id.name] == NewRow(t, p, now)
    decreases |changed| - i
  {
    var one := Saved(t, changed[i], now).value;
    SaveKeepsConsistent(t, changed[i], now);
    SaveWritesItsRows(t, changed[i], now);
    if i == k {
      SaveAllKeeps(one, changed, now, i + 1);
      assert !NamedFrom(changed, i + 1, changed[k].id.name);
    } else {
      WrittenRow(one, changed, now, i + 1, k);
    }
  }

  ghost predicate HasNewRow(u: Tables, base: Tables, p: Candidate, now: int) {
    p.id.name in u.packages && u.packages[p.id.name] == NewRow(base, p, now)
  }

  /** Every written member has its new row in the end. */
  lemma AllWritten(t: Tables, rt: Runtime, batch: seq<Candidate>, now: int)
    requires Consistent(t) && Installed(t, rt, batch, now).Ok?
    ensures var o := Installed(t, rt, batch, now).value;
      forall k: nat :: k < |o.changed| ==>
        HasNewRow(o.tables, WithoutOutgoing(t, NamesOf(o.changed)), o.changed[k], now)
  {
    var o := Installed(t, rt, batch, now).value;
    var base := WithoutOutgoing(t, NamesOf(o.changed));
    ChangedIsNonempty(t, rt, batch, now);
    DroppingKeepsConsistent(t, NamesOf(o.changed));
    forall k: nat | k < |o.changed| ensures HasNewRow(o.tables, base, o.changed[k], now) {
      WrittenRow(base, o.changed, now, 0, k);
    }
  }
}
