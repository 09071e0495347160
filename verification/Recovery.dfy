/** Switching the files of one batch, committing it, and recovering after a crash.

    Metadata operations reach the disk in order. `images` lists the file states since the last
    sync, oldest first; a crash keeps any one of them. A database commit is durable at once. */
module Recovery {
  import opened Wrappers
  import opened Identity
  import opened Registration
  import opened Facts

  /** The content of one runtime part, by the release it came from; `Debris` is a directory whose
      removal was cut short. */
  datatype Payload = Payload(version: string, sha: Option<string>) | Debris

  datatype Kind = Lib | App

  /** One target of a batch: its content in the old and in the new installation. */
  datatype Unit = Unit(before: Option<Payload>, after: Option<Payload>)

  /** The target, its backup `old-*` and its candidate `new-*`. */
  datatype Cell = Cell(target: Option<Payload>, backup: Option<Payload>, candidate: Option<Payload>)

  datatype Resource = Resource(kind: Kind, hadOld: bool, hasNew: bool)
  datatype Entry = Entry(id: PackageId, directory: string, resources: seq<Resource>, facts: FactsText)

  datatype Marker = Absent | Torn | Whole(journal: seq<Entry>)

  /** The journal, the slots of every target, and whether each member's staging directory exists. */
  datatype Files = Files(marker: Marker, cells: seq<Cell>, dirs: seq<bool>)
  datatype World = World(images: seq<Files>, db: Tables)

  datatype Member = Member(id: PackageId, directory: string)

  /** A staged batch: member i owns the Lib unit 2i and the App unit 2i+1. */
  datatype Plan = Plan(members: seq<Member>, units: seq<Unit>, before: Tables, after: Tables)

  const MAX_ENTRIES := 100

  ghost predicate WellFormed(plan: Plan) {
    && 0 < |plan.members| <= MAX_ENTRIES && |plan.units| == 2 * |plan.members|
    && forall i: nat {:trigger MemberOk(plan, i)} :: i < |plan.members| ==> MemberOk(plan, i)
  }

  /** A valid name of its own, and the directory named after it. */
  ghost predicate MemberOk(plan: Plan, i: nat)
    requires i < |plan.members|
  {
    var m := plan.members[i];
    && ValidName(m.id.name)
    && (forall j :: 0 <= j < i ==> plan.members[j].id.name != m.id.name)
    && (m.directory == m.id.name || (m.directory == "" && |plan.members| == 1))
  }

  /** Some member's facts tell the new registry from the old one. */
  ghost predicate Distinguishes(plan: Plan) {
    exists i :: 0 <= i < |plan.members| && FactsChange(plan, i)
  }

  ghost predicate FactsChange(plan: Plan, i: nat)
    requires i < |plan.members|
  {
    FactsV4(plan.before, plan.members[i].id.name) != FactsV4(plan.after, plan.members[i].id.name)
  }

  function EntryOf(plan: Plan, i: nat): Entry
    requires |plan.units| == 2 * |plan.members| && i < |plan.members|
  {
    var lib, app := plan.units[2 * i], plan.units[2 * i + 1];
    Entry(plan.members[i].id, plan.members[i].directory,
          [Resource(Lib, lib.before.Some?, lib.after.Some?), Resource(App, app.before.Some?, app.after.Some?)],
          FactsV4(plan.after, plan.members[i].id.name))
  }

  /** The journal that the commit writes. */
  function JournalOf(plan: Plan): seq<Entry>
    requires |plan.units| == 2 * |plan.members|
  {
    seq(|plan.members|, i requires 0 <= i < |plan.members| => EntryOf(plan, i))
  }

  predicate ValidEntry(journal: seq<Entry>, i: nat)
    requires i < |journal|
  {
    var e := journal[i];
    && ValidName(e.id.name)
    && (forall j :: 0 <= j < i ==> journal[j].id.name != e.id.name)
    && (e.directory == e.id.name || (e.directory == "" && |journal| == 1))
    && |e.resources| == 2 && e.resources[0].kind == Lib && e.resources[1].kind == App
  }

  predicate ValidJournal(journal: seq<Entry>) {
    0 < |journal| <= MAX_ENTRIES && forall i :: 0 <= i < |journal| ==> ValidEntry(journal, i)
  }

  predicate AllMatch(journal: seq<Entry>, db: Tables) {
    forall i :: 0 <= i < |journal| ==> Matches(journal[i].facts, db, journal[i].id.name)
  }

  /** Every journal the commit writes passes recovery's validation. */
  lemma JournalIsAccepted(plan: Plan)
    requires WellFormed(plan)
    ensures ValidJournal(JournalOf(plan))
  {
    var journal := JournalOf(plan);
    forall i | 0 <= i < |journal| ensures ValidEntry(journal, i) {
      assert MemberOk(plan, i);
      assert journal[i] == EntryOf(plan, i);
      assert forall j :: 0 <= j < i ==> journal[j].id == plan.members[j].id;
    }
  }

  // ------------------------------------------------------------ addresses

  function Leaf(id: PackageId, kind: Kind): string {
    if kind == Lib then id.name + ".wasm" else id.name
  }

  /** Where the commit opens a target. */
  function CommitTarget(id: PackageId, kind: Kind): string {
    if kind == Lib then (if IsStandard(id) then "lib/std/" else "lib/") + Leaf(id, kind) else "app/" + Leaf(id, kind)
  }

  /** Recovery tests the first component of the identity text, which for a legacy row is its name. */
  function RecoveryTarget(id: PackageId, kind: Kind): string {
    var first := if id.author.Some? then id.author.value else id.name;
    if kind == Lib && IsStandardAuthor(first) then "lib/std/" + Leaf(id, kind)
    else (if kind == Lib then "lib" else "app") + "/" + Leaf(id, kind)
  }

  lemma NamesAreNotAuthors(name: string)
    requires ValidName(name)
    ensures !IsStandardAuthor(name)
  {
    assert STD_AUTHOR[3] == '.' && DEV_AUTHOR[3] == '.';
    assert |name| > 3 ==> NameChar(name[3]);
  }

  /** Recovery restores exactly the files the commit moved. */
  lemma TargetsAgree(id: PackageId, kind: Kind)
    requires ValidName(id.name)
    ensures RecoveryTarget(id, kind) == CommitTarget(id, kind)
  {
    NamesAreNotAuthors(id.name);
  }

  lemma PathFacts(id: PackageId)
    requires ValidName(id.name)
    ensures var p := CommitTarget(id, Lib); var x := if IsStandard(id) then 8 else 4;
      |p| == x + |id.name| + 5 > 7 && p[x..|p| - 5] == id.name && (p[7] == '/' <==> IsStandard(id))
  {
    var p := CommitTarget(id, Lib);
    if IsStandard(id) {
      assert p == "lib/std/" + id.name + ".wasm";
    } else {
      assert p == "lib/" + id.name + ".wasm";
      assert |id.name| > 3 ==> NameChar(id.name[3]);
      assert p[7] == (id.name + ".wasm")[3];
    }
  }

  /** No two units of a batch share a file. */
  lemma TargetsAreDistinct(a: PackageId, k: Kind, b: PackageId, m: Kind)
    requires ValidName(a.name) && ValidName(b.name) && (a.name != b.name || k != m)
    ensures CommitTarget(a, k) != CommitTarget(b, m)
  {
    if k != m {
      assert CommitTarget(a, k)[0] != CommitTarget(b, m)[0];
    } else if k == App {
      assert CommitTarget(a, k)[4..] == a.name && CommitTarget(b, m)[4..] == b.name;
    } else {
      PathFacts(a);
      PathFacts(b);
    }
  }

  // ------------------------------------------------------------ safety of one file state

  ghost predicate IsOld(u: Unit, c: Cell) {
    c.target == u.before
  }

  ghost predicate IsNew(u: Unit, c: Cell) {
    c.target == u.after
  }

  /** What restoring needs: the old content is in the backup, or still in place; without old
      content the target holds nothing, unless the candidate has left its place. */
  ghost predicate Restorable(u: Unit, c: Cell) {
    if u.before.Some? then c.backup == u.before || (c.backup.None? && c.target == u.before)
    else c.backup.None? && (c.target.None? || (u.after.Some? && c.candidate.None?))
  }

  ghost predicate AllOld(plan: Plan, f: Files) {
    |f.cells| == |plan.units| && forall i :: 0 <= i < |f.cells| ==> IsOld(plan.units[i], f.cells[i])
  }

  ghost predicate AllNew(plan: Plan, f: Files) {
    |f.cells| == |plan.units| && forall i :: 0 <= i < |f.cells| ==> IsNew(plan.units[i], f.cells[i])
  }

  /** Every member's staging directory is there. */
  predicate Present(f: Files) {
    forall i :: 0 <= i < |f.dirs| ==> f.dirs[i]
  }

  /** Nothing was moved: every target is old and has no backup. */
  ghost predicate Untouched(plan: Plan, f: Files) {
    AllOld(plan, f) && forall i :: 0 <= i < |f.cells| ==> f.cells[i].backup.None?
  }

  ghost predicate AllRestorable(plan: Plan, f: Files) {
    |f.cells| == |plan.units| && forall i :: 0 <= i < |f.cells| ==> Restorable(plan.units[i], f.cells[i])
  }

  /** Old files with the old registry, or new files with the new one: never a mix. */
  ghost predicate Settled(plan: Plan, f: Files, db: Tables) {
    (db == plan.before && AllOld(plan, f)) || (db == plan.after && AllNew(plan, f))
  }

  ghost predicate Safe(plan: Plan, f: Files, db: Tables)
    requires |plan.units| == 2 * |plan.members|
  {
    && |f.dirs| == |plan.members|
    && match f.marker
       case Absent => Settled(plan, f, db)
       case Torn => db == plan.before && AllOld(plan, f)
       case Whole(j) =>
         && j == JournalOf(plan)
         && ((db == plan.before && AllRestorable(plan, f) && (Present(f) || Untouched(plan, f)))
             || (db == plan.after && AllNew(plan, f)))
  }

  /** Where no recovery can end: the journal is torn, or it is whole and uncommitted and the staging
      directory of a member is gone. */
  ghost predicate Blocked(plan: Plan, f: Files, db: Tables) {
    f.marker == Torn || (f.marker.Whole? && db == plan.before && !Present(f))
  }

  /** Every state a crash could leave now is safe. */
  ghost predicate SafeWorld(plan: Plan, w: World)
    requires |plan.units| == 2 * |plan.members|
  {
    w.images != [] && forall i: nat {:trigger SafeAt(plan, w, i)} :: i < |w.images| ==> SafeAt(plan, w, i)
  }

  ghost predicate SafeAt(plan: Plan, w: World, i: nat)
    requires |plan.units| == 2 * |plan.members| && i < |w.images|
  {
    Safe(plan, w.images[i], w.db)
  }

  lemma LastIsSafe(plan: Plan, w: World)
    requires |plan.units| == 2 * |plan.members| && SafeWorld(plan, w)
    ensures Safe(plan, Last(w), w.db)
  {
    assert SafeAt(plan, w, |w.images| - 1);
  }

  // ------------------------------------------------------------ single operations

  datatype Op =
    | BeginMarker
    | WriteMarker(journal: seq<Entry>)
    | MoveAside(u: nat)
    | MoveIn(u: nat)
    | Spoil(u: nat)
    | RemoveTarget(u: nat)
    | MoveBack(u: nat)
    | Unlink
    | Discard(u: nat)
    | DropDirectory(i: nat)
    | Sync
    | Commit(db: Tables)

  function Last(w: World): Files
    requires w.images != []
  {
    w.images[|w.images| - 1]
  }

  function OnCell(f: Files, u: nat, c: Cell): Files {
    if u < |f.cells| then f.(cells := f.cells[u := c]) else f
  }

  function CellAt(f: Files, u: nat): Cell {
    if u < |f.cells| then f.cells[u] else Cell(None, None, None)
  }

  function Effect(f: Files, op: Op): Files {
    match op
    case BeginMarker => f.(marker := Torn)
    case WriteMarker(j) => f.(marker := Whole(j))
    case MoveAside(u) => var c := CellAt(f, u); OnCell(f, u, c.(backup := c.target, target := None))
    case MoveIn(u) => var c := CellAt(f, u); OnCell(f, u, c.(target := c.candidate, candidate := None))
    case Spoil(u) => var c := CellAt(f, u); OnCell(f, u, c.(target := Some(Debris)))
    case RemoveTarget(u) => var c := CellAt(f, u); OnCell(f, u, c.(target := None))
    case MoveBack(u) => var c := CellAt(f, u); OnCell(f, u, c.(target := c.backup, backup := None))
    case Unlink => f.(marker := Absent)
    case Discard(u) => var c := CellAt(f, u); OnCell(f, u, c.(backup := None, candidate := None))
    case DropDirectory(i) => if i < |f.dirs| then f.(dirs := f.dirs[i := false]) else f
    case Sync => f
    case Commit(db) => f
  }

  function Apply(w: World, op: Op): World
    requires w.images != []
  {
    match op
    case Sync => World([Last(w)], w.db)
    case Commit(db) => World(w.images, db)
    case _ => World(w.images + [Effect(Last(w), op)], w.db)
  }

  /** When an operation may be issued. Committing needs every file operation synced. */
  ghost predicate Permitted(plan: Plan, w: World, op: Op)
    requires |plan.units| == 2 * |plan.members| && w.images != []
  {
    var f := Last(w);
    var live := f.marker == Whole(JournalOf(plan)) && w.db == plan.before && Present(f);
    match op
    case BeginMarker => f.marker == Absent && w.db == plan.before && AllOld(plan, f)
    case WriteMarker(j) => f.marker == Torn && w.db == plan.before && j == JournalOf(plan) && AllRestorable(plan, f)
      && Present(f)
    case MoveAside(u) => live && u < |plan.units| &&
      (var c := CellAt(f, u); plan.units[u].before.Some? && c.target == plan.units[u].before && c.backup.None?)
    case MoveIn(u) => live && u < |plan.units| && plan.units[u].after.Some? &&
      CellAt(f, u) == Cell(None, plan.units[u].before, plan.units[u].after)
    case Spoil(u) => live && u < |plan.units| && Removable(plan.units[u], CellAt(f, u))
    case RemoveTarget(u) => live && u < |plan.units| && Removable(plan.units[u], CellAt(f, u))
    case MoveBack(u) => live && u < |plan.units| &&
      (var c := CellAt(f, u); plan.units[u].before.Some? && c.backup == plan.units[u].before && c.target.None?)
    case Unlink => Settled(plan, f, w.db)
    case Discard(u) => u < |plan.units| &&
      (f.marker == Absent
        || (w.db == plan.before && CellAt(f, u).target == plan.units[u].before && CellAt(f, u).backup.None?))
    case DropDirectory(i) => i < |plan.members| && Emptied(CellAt(f, 2 * i)) && Emptied(CellAt(f, 2 * i + 1)) &&
      (f.marker == Absent || (w.db == plan.before && Untouched(plan, f) && plan.members[i].directory != ""))
    case Sync => true
    case Commit(db) => live && |w.images| == 1 && AllNew(plan, f) && db == plan.after
  }

  predicate Emptied(c: Cell) {
    c.backup.None? && c.candidate.None?
  }

  ghost predicate Removable(u: Unit, c: Cell) {
    if u.before.Some? then c.backup == u.before
    else c.backup.None? && u.after.Some? && c.candidate.None?
  }

  /** Each permitted operation keeps every possible crash state safe. */
  lemma StepIsSafe(plan: Plan, w: World, op: Op)
    requires WellFormed(plan) && SafeWorld(plan, w) && Permitted(plan, w, op)
    requires plan.before != plan.after
    ensures SafeWorld(plan, Apply(w, op))
  {
    var f, v := Last(w), Apply(w, op);
    LastIsSafe(plan, w);
    EffectIsSafe(plan, w, op);
    forall i: nat {:trigger SafeAt(plan, v, i)} | i < |v.images| ensures SafeAt(plan, v, i) {
      if !op.Sync? && !op.Commit? && i < |w.images| {
        assert SafeAt(plan, w, i);
      }
    }
  }

  lemma EffectIsSafe(plan: Plan, w: World, op: Op)
    requires WellFormed(plan) && w.images != [] && Safe(plan, Last(w), w.db) && Permitted(plan, w, op)
    requires plan.before != plan.after
    ensures !op.Commit? ==> Safe(plan, Effect(Last(w), op), w.db)
    ensures op.Commit? ==> |w.images| == 1 && Safe(plan, Last(w), op.db)
  {
  }

  // ------------------------------------------------------------ what recovery computes

  /** The restore rule for one target. */
  function Restored(hadOld: bool, hasNew: bool, c: Cell): Cell {
    if c.backup.Some? then c.(target := c.backup, backup := None)
    else if !hadOld && hasNew && c.candidate.None? then c.(target := None)
    else c
  }

  function RestoredBy(r: seq<Resource>, k: nat, c: Cell): Cell
    requires |r| == 2 && k < 2
  {
    Restored(r[k].hadOld, r[k].hasNew, c)
  }

  lemma RestoringGivesOld(u: Unit, c: Cell)
    requires Restorable(u, c)
    ensures var d := Restored(u.before.Some?, u.after.Some?, c);
      IsOld(u, d) && Restorable(u, d) && Restored(u.before.Some?, u.after.Some?, d) == d
  {
  }

  /** All targets of a journal restored. */
  function AllRestored(j: seq<Entry>, cells: seq<Cell>): seq<Cell>
    requires ValidJournal(j) && |cells| == 2 * |j|
  {
    seq(|cells|, i requires 0 <= i < |cells| =>
      assert ValidEntry(j, i / 2);
      RestoredBy(j[i / 2].resources, i % 2, cells[i]))
  }

  function Cleared(cells: seq<Cell>): seq<Cell> {
    seq(|cells|, i requires 0 <= i < |cells| => Cell(cells[i].target, None, None))
  }

  /** A complete recovery: nothing without a journal, refusal of a broken one, otherwise the
      decision by facts and, when they differ, the restored targets. Restoring needs the staging
      directory of every member. */
  function Recovered(f: Files, db: Tables): Option<Files> {
    match f.marker
    case Absent => Some(f)
    case Torn => None
    case Whole(j) =>
      if !ValidJournal(j) || |f.cells| != 2 * |j| || |f.dirs| != |j| then None
      else if AllMatch(j, db) then Some(CleanedUp(f.cells, |j|))
      else if !Present(f) then None
      else Some(CleanedUp(AllRestored(j, f.cells), |j|))
  }

  /** No journal, no staging: only the targets are left. */
  function CleanedUp(cells: seq<Cell>, members: nat): Files {
    Files(Absent, Cleared(cells), seq(members, i requires 0 <= i < members => false))
  }

  lemma JournalAt(plan: Plan, i: nat)
    requires |plan.units| == 2 * |plan.members| && i < |plan.members|
    ensures JournalOf(plan)[i] == EntryOf(plan, i)
  {
  }

  lemma AfterMatches(plan: Plan)
    requires |plan.units| == 2 * |plan.members|
    ensures AllMatch(JournalOf(plan), plan.after)
  {
    forall i | 0 <= i < |JournalOf(plan)|
      ensures Matches(JournalOf(plan)[i].facts, plan.after, JournalOf(plan)[i].id.name)
    {
      JournalAt(plan, i);
    }
  }

  /** One member whose recorded facts are not the current ones makes the journal mismatch. */
  lemma MemberMismatches(plan: Plan, db: Tables, i: nat)
    requires |plan.units| == 2 * |plan.members| && i < |plan.members|
    requires !Matches(FactsV4(plan.after, plan.members[i].id.name), db, plan.members[i].id.name)
    ensures !AllMatch(JournalOf(plan), db)
  {
    JournalAt(plan, i);
    var e := JournalOf(plan)[i];
    assert !Matches(e.facts, db, e.id.name);
  }

  lemma FactsDecide(plan: Plan)
    requires WellFormed(plan) && Distinguishes(plan)
    ensures AllMatch(JournalOf(plan), plan.after) && !AllMatch(JournalOf(plan), plan.before)
    ensures plan.before != plan.after
  {
    AfterMatches(plan);
    var i :| 0 <= i < |plan.members| && FactsChange(plan, i);
    OlderProjectionIsHarmless(plan.after, plan.before, plan.members[i].id.name);
    MemberMismatches(plan, plan.before, i);
  }

  /** Crash atomicity of one image: recovery is refused exactly where it is blocked, and there nothing
      was switched; otherwise it ends with old files and the old registry, or new files and the new
      registry. */
  lemma RecoverySettles(plan: Plan, f: Files, db: Tables)
    requires WellFormed(plan) && Distinguishes(plan) && Safe(plan, f, db)
    ensures Recovered(f, db).None? <==> Blocked(plan, f, db)
    ensures Blocked(plan, f, db) ==> db == plan.before && AllOld(plan, f)
    ensures !Blocked(plan, f, db) ==>
      && Recovered(f, db).value.marker == Absent
      && Settled(plan, Recovered(f, db).value, db)
      && (db == plan.before ==> AllOld(plan, Recovered(f, db).value))
      && (db == plan.after ==> AllNew(plan, Recovered(f, db).value))
  {
    FactsDecide(plan);
    if f.marker.Whole? {
      if db == plan.before {
        UncommittedRecovers(plan, f);
      } else {
        CommittedRecovers(plan, f);
      }
    }
  }

  lemma RecoversByRestoring(j: seq<Entry>, f: Files, db: Tables)
    requires ValidJournal(j) && f.marker == Whole(j) && |f.cells| == 2 * |j| && |f.dirs| == |j|
    requires Present(f) && !AllMatch(j, db)
    ensures Recovered(f, db) == Some(CleanedUp(AllRestored(j, f.cells), |j|))
  {
  }

  lemma RefusesMissing(j: seq<Entry>, f: Files, db: Tables)
    requires f.marker == Whole(j) && !Present(f) && !AllMatch(j, db)
    ensures Recovered(f, db) == None
  {
  }

  /** What recovery does with a complete journal before the commit. */
  lemma UncommittedRecovers(plan: Plan, f: Files)
    requires WellFormed(plan) && Distinguishes(plan) && f.marker == Whole(JournalOf(plan))
    requires AllRestorable(plan, f) && |f.dirs| == |plan.members|
    ensures Recovered(f, plan.before).None? <==> !Present(f)
    ensures Recovered(f, plan.before).Some? ==>
      Recovered(f, plan.before).value.marker == Absent && AllOld(plan, Recovered(f, plan.before).value)
  {
    JournalIsAccepted(plan);
    FactsDecide(plan);
    if Present(f) {
      RecoversByRestoring(JournalOf(plan), f, plan.before);
      AllRestoredIsOld(plan, f);
    } else {
      RefusesMissing(JournalOf(plan), f, plan.before);
    }
  }

  /** And after it. */
  lemma CommittedRecovers(plan: Plan, f: Files)
    requires WellFormed(plan) && f.marker == Whole(JournalOf(plan))
    requires AllNew(plan, f) && |f.dirs| == |plan.members|
    ensures Recovered(f, plan.after).Some?
    ensures Recovered(f, plan.after).value.marker == Absent && AllNew(plan, Recovered(f, plan.after).value)
  {
    JournalIsAccepted(plan);
    AfterMatches(plan);
    assert Recovered(f, plan.after) == Some(CleanedUp(f.cells, |plan.members|));
    ClearedIsNew(plan, f);
  }

  lemma ClearedIsNew(plan: Plan, f: Files)
    requires AllNew(plan, f)
    ensures AllNew(plan, CleanedUp(f.cells, |plan.members|))
  {
  }

  lemma AllRestoredIsOld(plan: Plan, f: Files)
    requires WellFormed(plan) && AllRestorable(plan, f) && ValidJournal(JournalOf(plan))
    ensures AllOld(plan, CleanedUp(AllRestored(JournalOf(plan), f.cells), |plan.members|))
  {
    var cells := AllRestored(JournalOf(plan), f.cells);
    forall i | 0 <= i < |f.cells| ensures cells[i].target == plan.units[i].before {
      RestoredUnit(plan, f.cells, i);
      assert Restorable(plan.units[i], f.cells[i]);
      RestoringGivesOld(plan.units[i], f.cells[i]);
    }
  }

  /** The journal's flags are those of the unit it describes. */
  lemma RestoredUnit(plan: Plan, cells: seq<Cell>, i: nat)
    requires WellFormed(plan) && ValidJournal(JournalOf(plan)) && i < |cells| == |plan.units|
    ensures AllRestored(JournalOf(plan), cells)[i] ==
      Restored(plan.units[i].before.Some?, plan.units[i].after.Some?, cells[i])
  {
    assert JournalOf(plan)[i / 2] == EntryOf(plan, i / 2);
    assert i == 2 * (i / 2) + i % 2;
    assert ValidEntry(JournalOf(plan), i / 2);
  }

  // ------------------------------------------------------------ every behaviour

  ghost predicate Crashed(w: World, v: World) {
    exists i :: 0 <= i < |w.images| && v == World([w.images[i]], w.db)
  }

  ghost predicate Next(plan: Plan, w: World, v: World)
    requires |plan.units| == 2 * |plan.members| && w.images != []
  {
    Crashed(w, v) || exists op :: Permitted(plan, w, op) && v == Apply(w, op)
  }

  ghost predicate NextAt(plan: Plan, ws: seq<World>, i: int)
    requires |plan.units| == 2 * |plan.members| && 0 <= i < |ws| - 1 && ws[i].images != []
  {
    Next(plan, ws[i], ws[i + 1])
  }

  ghost predicate Behaviour(plan: Plan, ws: seq<World>)
    requires |plan.units| == 2 * |plan.members|
  {
    && ws != [] && (forall i :: 0 <= i < |ws| ==> ws[i].images != [])
    && forall i {:trigger NextAt(plan, ws, i)} :: 0 <= i < |ws| - 1 ==> NextAt(plan, ws, i)
  }

  lemma NextIsSafe(plan: Plan, w: World, v: World)
    requires WellFormed(plan) && Distinguishes(plan) && SafeWorld(plan, w) && Next(plan, w, v)
    ensures SafeWorld(plan, v)
  {
    if Crashed(w, v) {
      var i :| 0 <= i < |w.images| && v == World([w.images[i]], w.db);
      assert SafeAt(plan, w, i);
    } else {
      var op :| Permitted(plan, w, op) && v == Apply(w, op);
      FactsDecide(plan);
      StepIsSafe(plan, w, op);
    }
  }

  /** Over every behaviour of switching, rolling back and recovering, with a crash allowed between
      any two operations and any number of crashes, each reachable state is safe. */
  lemma {:induction false} BehavioursAreSafe(plan: Plan, ws: seq<World>, n: nat)
    requires WellFormed(plan) && Distinguishes(plan)
    requires Behaviour(plan, ws) && SafeWorld(plan, ws[0]) && n < |ws|
    ensures SafeWorld(plan, ws[n])
  {
    if n > 0 {
      BehavioursAreSafe(plan, ws, n - 1);
      StepOfBehaviourIsSafe(plan, ws, n - 1);
    }
  }

  lemma StepOfBehaviourIsSafe(plan: Plan, ws: seq<World>, n: nat)
    requires WellFormed(plan) && Distinguishes(plan)
    requires Behaviour(plan, ws) && n + 1 < |ws| && SafeWorld(plan, ws[n])
    ensures SafeWorld(plan, ws[n + 1])
  {
    assert NextAt(plan, ws, n);
    NextIsSafe(plan, ws[n], ws[n + 1]);
  }

  /** Crash atomicity: whatever happened before, a crash at any point followed by one complete
      recovery never leaves a mix; the registry alone decides which side it is. Recovery is refused
      exactly in the blocked states, where the old files and the old registry are in place. */
  lemma CrashAtomicity(plan: Plan, ws: seq<World>, n: nat, i: nat)
    requires WellFormed(plan) && Distinguishes(plan)
    requires Behaviour(plan, ws) && SafeWorld(plan, ws[0]) && n < |ws| && i < |ws[n].images|
    ensures Recovered(ws[n].images[i], ws[n].db).None? <==> Blocked(plan, ws[n].images[i], ws[n].db)
    ensures Blocked(plan, ws[n].images[i], ws[n].db) ==>
      ws[n].db == plan.before && AllOld(plan, ws[n].images[i])
    ensures !Blocked(plan, ws[n].images[i], ws[n].db) ==>
      Settled(plan, Recovered(ws[n].images[i], ws[n].db).value, ws[n].db)
  {
    BehavioursAreSafe(plan, ws, n);
    assert SafeAt(plan, ws[n], i);
    RecoverySettles(plan, ws[n].images[i], ws[n].db);
  }
}
