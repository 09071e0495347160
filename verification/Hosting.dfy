/** A server over its whole life: operations, crashes at any point, recovery and loading at startup. */
module Hosting {
  import opened Wrappers
  import opened Identity
  import opened Registration
  import opened Installation
  import opened Recovery
  import opened Switching
  import opened SwitchRuns
  import opened Staging
  import opened Sandbox

  /** The last planned operation, with the file states a crash could leave. */
  datatype Job = Job(plan: Plan, images: seq<Files>)

  datatype Task = Install(batch: seq<Candidate>, now: int) | Remove(id: PackageId)

  /** Serving with these maps, in the middle of an operation, or not running (which includes startup
      recovery). */
  datatype Phase = Running(rt: Runtime) | Busy(rt: Runtime, task: Task) | Down

  /** The disk as the last operation found it, the registry, and what became of that operation. */
  datatype System = System(disk: Disk, db: Tables, job: Option<Job>, phase: Phase)

  datatype Event =
    | Begin(task: Task)
    | Operate(op: Op)
    | Succeed(after: Runtime)
    | Fail
    | Stop
    | Crash(image: nat)
    | Start(loaded: Runtime)

  function WorldOf(job: Job, db: Tables): World {
    World(job.images, db)
  }

  ghost predicate Shaped(job: Job) {
    && |job.plan.units| == 2 * |job.plan.members| && job.images != []
    && forall i :: 0 <= i < |job.images| ==> |job.images[i].cells| == |job.plan.units|
  }

  function Latest(job: Job): Files
    requires job.images != []
  {
    job.images[|job.images| - 1]
  }

  /** What the disk holds now. */
  ghost function Now(s: System): Disk
    requires s.job.Some? ==> Shaped(s.job.value)
  {
    if s.job.None? then s.disk else OnDisk(s.disk, s.job.value.plan, Latest(s.job.value))
  }

  /** No crash can bring a journal back. */
  ghost predicate Quiet(s: System) {
    s.job.Some? ==> forall i :: 0 <= i < |s.job.value.images| ==> s.job.value.images[i].marker == Absent
  }

  /** What an accepted task makes of the registry, and the targets it switches. */
  ghost predicate Asks(db: Tables, rt: Runtime, task: Task, plan: Plan) {
    match task
    case Install(batch, now) =>
      var o := Installed(db, rt, batch, now);
      o.Ok? && plan == PlanOf(db, o.value.tables, MembersOf(o.value.changed))
    case Remove(id) =>
      Registered(db, id) && Removed(db, id).Ok? && plan == PlanOf(db, Removed(db, id).value, [Member(id, "")])
  }

  /** The maps after a committed task. */
  ghost predicate Publishes(db: Tables, rt: Runtime, task: Task, after: Runtime) {
    match task
    case Install(batch, now) =>
      var o := Installed(db, rt, batch, now);
      o.Ok? && Replaced(rt, o.value.changed, after)
    case Remove(id) => after == Runtime(rt.libs - {id}, rt.apps - {id})
  }

  /** An operation begins with every journal gone, and with facts that tell its registries apart. */
  ghost predicate Begins(s: System, task: Task, v: System)
    requires s.job.Some? ==> Shaped(s.job.value)
  {
    && s.phase.Running? && Quiet(s) && v.phase == Busy(s.phase.rt, task)
    && v.db == s.db && v.disk == Now(s) && v.job.Some?
    && Asks(s.db, s.phase.rt, task, v.job.value.plan) && Distinguishes(v.job.value.plan)
    && v.job.value.images == [StagedFiles(v.disk, v.job.value.plan.after, v.job.value.plan.members)]
  }

  ghost predicate Occurs(s: System, e: Event, v: System) {
    && (s.job.Some? ==> Shaped(s.job.value))
    && match e
       case Begin(task) => Begins(s, task, v)
       case Operate(op) =>
         && s.job.Some? && !s.phase.Running? && (op.Commit? ==> s.phase.Busy?)
         && Permitted(s.job.value.plan, WorldOf(s.job.value, s.db), op)
         && var w := Apply(WorldOf(s.job.value, s.db), op);
            v == s.(db := w.db, job := Some(Job(s.job.value.plan, w.images)))
       case Succeed(after) =>
         && s.phase.Busy? && s.job.Some? && s.db == s.job.value.plan.after
         && Publishes(s.job.value.plan.before, s.phase.rt, s.phase.task, after)
         && v == s.(phase := Running(after))
       case Fail =>
         s.phase.Busy? && s.job.Some? && s.db == s.job.value.plan.before && v == s.(phase := Running(s.phase.rt))
       case Stop => s.phase.Running? && v == s.(phase := Down)
       case Crash(i) =>
         if s.job.None? then v == s.(phase := Down)
         else i < |s.job.value.images|
              && v == s.(phase := Down, job := Some(s.job.value.(images := [s.job.value.images[i]])))
       case Start(loaded) =>
         && s.phase == Down && (s.job.Some? ==> Latest(s.job.value).marker == Absent)
         && LoadedFrom(s.db, Now(s), loaded) && v == s.(phase := Running(loaded))
  }

  // ------------------------------------------------------------ the invariant

  /** The job is one that the disk and the registry were ready for, and every crash is safe. */
  ghost predicate Sound(disk: Disk, db: Tables, job: Job) {
    && Planned(disk, job.plan) && Distinguishes(job.plan)
    && Consistent(job.plan.before) && Consistent(job.plan.after)
    && SafeWorld(job.plan, WorldOf(job, db))
  }

  ghost predicate JobInv(s: System) {
    if s.job.Some? then Sound(s.disk, s.db, s.job.value)
    else Consistent(s.db) && ValidNames(s.db) && Holds(s.db, s.disk)
  }

  ghost predicate PhaseInv(s: System) {
    match s.phase
    case Running(rt) => Mirrors(s.db, rt)
    case Busy(rt, task) =>
      s.job.Some? && Mirrors(s.job.value.plan.before, rt) && Asks(s.job.value.plan.before, rt, task, s.job.value.plan)
    case Down => true
  }

  ghost predicate Inv(s: System) {
    JobInv(s) && PhaseInv(s)
  }

  lemma SoundImage(disk: Disk, db: Tables, job: Job, i: nat)
    requires Sound(disk, db, job) && i < |job.images|
    ensures |job.plan.units| == 2 * |job.plan.members| && Safe(job.plan, job.images[i], db)
    ensures |job.images[i].cells| == |job.plan.units| && (db == job.plan.before || db == job.plan.after)
  {
    assert SafeAt(job.plan, WorldOf(job, db), i);
  }

  lemma SoundShape(disk: Disk, db: Tables, job: Job)
    requires Sound(disk, db, job)
    ensures Shaped(job) && Consistent(db) && ValidNames(db)
  {
    forall i | 0 <= i < |job.images| ensures |job.images[i].cells| == |job.plan.units| {
      SoundImage(disk, db, job, i);
    }
    SoundImage(disk, db, job, 0);
  }

  /** Files without a journal are those of the registry. */
  lemma ImageHolds(disk: Disk, db: Tables, job: Job, i: nat)
    requires Sound(disk, db, job) && i < |job.images| && job.images[i].marker == Absent
    ensures |job.images[i].cells| == 2 * |job.plan.members|
    ensures Holds(db, OnDisk(disk, job.plan, job.images[i]))
  {
    var p := job.plan;
    SoundImage(disk, db, job, i);
    SettledIsHeld(disk, p.before, p.after, p.members, job.images[i], db);
  }

  /** Wherever no journal is left the disk holds exactly the registry. */
  lemma DiskFollows(s: System)
    requires Inv(s) && (s.job.Some? ==> s.job.value.images != [] && Latest(s.job.value).marker == Absent)
    ensures s.job.Some? ==> Shaped(s.job.value)
    ensures Consistent(s.db) && ValidNames(s.db) && Holds(s.db, Now(s))
  {
    if s.job.Some? {
      LatestHolds(s.disk, s.db, s.job.value);
    }
  }

  lemma LatestHolds(disk: Disk, db: Tables, job: Job)
    requires Sound(disk, db, job) && Latest(job).marker == Absent
    ensures Shaped(job) && Consistent(db) && ValidNames(db) && Holds(db, OnDisk(disk, job.plan, Latest(job)))
  {
    SoundShape(disk, db, job);
    ImageHolds(disk, db, job, |job.images| - 1);
  }

  // ------------------------------------------------------------ every event keeps it

  lemma AskedIsPlanned(db: Tables, disk: Disk, rt: Runtime, task: Task, plan: Plan)
    requires Agree(db, disk, rt) && Asks(db, rt, task, plan)
    ensures plan.before == db && Planned(disk, plan) && Consistent(plan.after)
  {
    match task
    case Install(batch, now) =>
      InstallIsPlanned(db, rt, batch, now);
      InstallKeepsConsistent(db, rt, batch, now);
    case Remove(id) =>
      RemovalIsPlanned(db, id);
      RemoveKeepsConsistent(db, id);
  }

  lemma BeginKeepsInv(s: System, task: Task, v: System)
    requires Inv(s) && Occurs(s, Begin(task), v)
    ensures Inv(v)
  {
    DiskFollows(s);
    var plan, rt := v.job.value.plan, s.phase.rt;
    AskedIsPlanned(s.db, v.disk, rt, task, plan);
    StagedFromDisk(v.disk, plan.before, plan.after, plan.members);
    StagedWorldIsSafe(plan, v.job.value.images[0]);
    assert WorldOf(v.job.value, v.db) == World([v.job.value.images[0]], plan.before);
  }

  lemma OperateKeepsInv(s: System, op: Op, v: System)
    requires Inv(s) && Occurs(s, Operate(op), v)
    ensures Inv(v)
  {
    var job := s.job.value;
    FactsDecide(job.plan);
    StepIsSafe(job.plan, WorldOf(job, s.db), op);
    assert WorldOf(v.job.value, v.db) == Apply(WorldOf(job, s.db), op);
  }

  lemma PublishedMirrors(db: Tables, rt: Runtime, task: Task, plan: Plan, after: Runtime)
    requires Consistent(db) && Mirrors(db, rt) && Asks(db, rt, task, plan) && Publishes(db, rt, task, after)
    ensures Mirrors(plan.after, after)
  {
    match task
    case Install(batch, now) => InstallKeepsMirror(db, rt, batch, now, after);
    case Remove(id) => RemoveKeepsMirror(db, rt, id);
  }

  lemma CrashKeepsInv(s: System, i: nat, v: System)
    requires Inv(s) && Occurs(s, Crash(i), v)
    ensures Inv(v)
  {
    if s.job.Some? {
      assert SafeAt(s.job.value.plan, WorldOf(s.job.value, s.db), i);
    }
  }

  lemma StartKeepsInv(s: System, loaded: Runtime, v: System)
    requires Inv(s) && Occurs(s, Start(loaded), v)
    ensures Inv(v)
  {
    DiskFollows(s);
    HeldLoadsMirror(s.db, Now(s), loaded);
  }

  lemma EventKeepsInv(s: System, e: Event, v: System)
    requires Inv(s) && Occurs(s, e, v)
    ensures Inv(v)
  {
    match e
    case Begin(task) => BeginKeepsInv(s, task, v);
    case Operate(op) => OperateKeepsInv(s, op, v);
    case Succeed(after) =>
      PublishedMirrors(s.job.value.plan.before, s.phase.rt, s.phase.task, s.job.value.plan, after);
    case Fail =>
    case Stop =>
    case Crash(i) => CrashKeepsInv(s, i, v);
    case Start(loaded) => StartKeepsInv(s, loaded, v);
  }

  // ------------------------------------------------------------ every run

  ghost predicate OccursAt(ss: seq<System>, es: seq<Event>, i: int)
    requires 0 <= i < |es| < |ss|
  {
    Occurs(ss[i], es[i], ss[i + 1])
  }

  ghost predicate Run(ss: seq<System>, es: seq<Event>) {
    |ss| == |es| + 1 && forall i {:trigger OccursAt(ss, es, i)} :: 0 <= i < |es| ==> OccursAt(ss, es, i)
  }

  const FRESH := System(map[], EMPTY, None, Down)

  lemma FreshIsSound()
    ensures Inv(FRESH)
  {
    RunsStayConsistent([]);
    forall name, kind {:trigger PartHeld(EMPTY, map[], name, kind)} ensures PartHeld(EMPTY, map[], name, kind) {
    }
  }

  ghost predicate InvAt(ss: seq<System>, k: nat)
    requires k < |ss|
  {
    Inv(ss[k])
  }

  ghost predicate SoundUpTo(ss: seq<System>, n: nat) {
    n < |ss| && forall k: nat {:trigger InvAt(ss, k)} :: k <= n ==> InvAt(ss, k)
  }

  lemma StartIsSound(ss: seq<System>)
    requires ss != [] && ss[0] == FRESH
    ensures SoundUpTo(ss, 0)
  {
    FreshIsSound();
  }

  lemma NextIsSound(ss: seq<System>, es: seq<Event>, n: nat)
    requires Run(ss, es) && n < |es| && SoundUpTo(ss, n)
    ensures SoundUpTo(ss, n + 1)
  {
    var s, e, v := ss[n], es[n], ss[n + 1];
    assert Occurs(s, e, v) by {
      assert OccursAt(ss, es, n);
    }
    assert Inv(s) by {
      assert InvAt(ss, n);
    }
    EventKeepsInv(s, e, v);
  }

  lemma {:induction false} RunKeepsInv(ss: seq<System>, es: seq<Event>, n: nat)
    requires Run(ss, es) && n < |ss| && ss[0] == FRESH
    ensures SoundUpTo(ss, n)
  {
    if n == 0 {
      StartIsSound(ss);
    } else {
      RunKeepsInv(ss, es, n - 1);
      NextIsSound(ss, es, n - 1);
    }
  }

  lemma InvHolds(ss: seq<System>, es: seq<Event>, n: nat)
    requires Run(ss, es) && n < |ss| && ss[0] == FRESH
    ensures Inv(ss[n])
  {
    RunKeepsInv(ss, es, n);
    assert InvAt(ss, n);
  }

  /** In every state of every run from an empty identity, through installations, removals, crashes,
      recoveries and restarts, a serving runtime has exactly the registered packages, and a disk without
      a journal holds exactly the registered parts. */
  lemma RunsKeepMirror(ss: seq<System>, es: seq<Event>, n: nat)
    requires Run(ss, es) && n < |ss| && ss[0] == FRESH
    ensures ss[n].job.Some? ==> Shaped(ss[n].job.value)
    ensures ss[n].phase.Running? ==> Mirrors(ss[n].db, ss[n].phase.rt)
    ensures (ss[n].job.Some? ==> Latest(ss[n].job.value).marker == Absent) ==> Holds(ss[n].db, Now(ss[n]))
  {
    var s := ss[n];
    InvHolds(ss, es, n);
    if s.job.Some? {
      SoundShape(s.disk, s.db, s.job.value);
    }
    if s.job.Some? ==> Latest(s.job.value).marker == Absent {
      DiskFollows(s);
    }
  }

  /** A crash in any state of any run: recovery is blocked, or it leaves a disk that holds exactly the
      registry, and whatever loads from it mirrors the registry again. */
  lemma RestartMirrors(ss: seq<System>, es: seq<Event>, n: nat, i: nat)
    requires Run(ss, es) && n < |ss| && ss[0] == FRESH
    requires ss[n].job.Some? && i < |ss[n].job.value.images|
    ensures var plan, f := ss[n].job.value.plan, ss[n].job.value.images[i];
      if Recovered(f, ss[n].db).None? then Blocked(plan, f, ss[n].db)
      else
        var g := Recovered(f, ss[n].db).value;
        && !Blocked(plan, f, ss[n].db) && |g.cells| == 2 * |plan.members|
        && Holds(ss[n].db, OnDisk(ss[n].disk, plan, g))
        && forall rt :: LoadedFrom(ss[n].db, OnDisk(ss[n].disk, plan, g), rt) ==> Mirrors(ss[n].db, rt)
  {
    var s := ss[n];
    InvHolds(ss, es, n);
    var plan, f := s.job.value.plan, s.job.value.images[i];
    SoundImage(s.disk, s.db, s.job.value, i);
    RecoverySettles(plan, f, s.db);
    if Recovered(f, s.db).Some? {
      var g := Recovered(f, s.db).value;
      SettledIsHeld(s.disk, plan.before, plan.after, plan.members, g, s.db);
      forall rt | LoadedFrom(s.db, OnDisk(s.disk, plan, g), rt) ensures Mirrors(s.db, rt) {
        HeldLoadsMirror(s.db, OnDisk(s.disk, plan, g), rt);
      }
    }
  }
}
