/** The registration facts a recovery journal carries, and when they tell a commit apart. */
module Facts {
  import opened Wrappers
  import opened Identity
  import opened Registration
  import opened Installation

  /** The package part of the facts text: fourteen columns in schema v4, eleven in v3. */
  datatype PackageCells =
    | NoPackage
    | Cells14(row: Row)
    | Cells11(author: Option<string>, version: string, hasLib: bool, hasApp: bool, about: string,
              installedAt: Option<int>, upgradedAt: Option<int>)

  /** One text: the package columns, the rows of the package's own dependencies, its capabilities. */
  datatype FactsText = FactsText(package: PackageCells, dependencies: map<(string, string), string>,
                                 groups: Option<seq<Group>>)

  function Requirements(t: Tables, name: string): map<(string, string), string> {
    map k | k in t.dependencies && k.0 == name :: t.dependencies[k]
  }

  function GroupsOf(t: Tables, name: string): Option<seq<Group>> {
    if name in t.groups && t.groups[name] != [] then Some(t.groups[name]) else None
  }

  function FactsV4(t: Tables, name: string): FactsText {
    FactsText(if name in t.packages then Cells14(t.packages[name]) else NoPackage,
              Requirements(t, name), GroupsOf(t, name))
  }

  function FactsV3(t: Tables, name: string): FactsText {
    FactsText(if name in t.packages then
                var r := t.packages[name];
                Cells11(r.author, r.version, r.hasLib, r.hasApp, r.about, r.installedAt, r.upgradedAt)
              else NoPackage,
              Requirements(t, name), GroupsOf(t, name))
  }

  /** Recovery's test: the journal text equals the current facts in either projection. */
  predicate Matches(facts: FactsText, db: Tables, name: string) {
    facts == FactsV4(db, name) || facts == FactsV3(db, name)
  }

  /** Accepting the older projection never makes a journal of this installer match other facts. */
  lemma OlderProjectionIsHarmless(t: Tables, db: Tables, name: string)
    ensures Matches(FactsV4(t, name), db, name) <==> FactsV4(t, name) == FactsV4(db, name)
  {
    if FactsV4(t, name) == FactsV3(db, name) {
      assert name !in t.packages && name !in db.packages;
    }
  }

  /** The facts of a written member stay the same exactly when its rows do; for an upgrade that
      takes an earlier write in the very same clock second. */
  lemma FactsOfWrittenMember(t: Tables, rt: Runtime, batch: seq<Candidate>, now: int, k: nat)
    requires Consistent(t) && Installation.Installed(t, rt, batch, now).Ok?
    requires k < |Installation.Installed(t, rt, batch, now).value.changed|
    ensures var o := Installation.Installed(t, rt, batch, now).value; var n := o.changed[k].id.name;
      && n in o.tables.packages
      && (FactsV4(t, n) == FactsV4(o.tables, n) <==>
            && n in t.packages && t.packages[n] == o.tables.packages[n]
            && Requirements(t, n) == Requirements(o.tables, n) && GroupsOf(t, n) == GroupsOf(o.tables, n))
      && (FactsV4(t, n) == FactsV4(o.tables, n) ==> t.packages[n].upgradedAt == Some(now))
  {
    var o := Installation.Installed(t, rt, batch, now).value;
    var u := WithoutOutgoing(t, NamesOf(o.changed));
    ChangedIsNonempty(t, rt, batch, now);
    DroppingKeepsConsistent(t, NamesOf(o.changed));
    WrittenRow(u, o.changed, now, 0, k);
  }

  /** So any batch with a member that was absent, or not already written in this second, leaves
      facts that tell its commit from its absence. */
  lemma CommitIsVisible(t: Tables, rt: Runtime, batch: seq<Candidate>, now: int, k: nat)
    requires Consistent(t) && Installation.Installed(t, rt, batch, now).Ok?
    requires k < |Installation.Installed(t, rt, batch, now).value.changed|
    requires var n := Installation.Installed(t, rt, batch, now).value.changed[k].id.name;
      n in t.packages ==> t.packages[n].upgradedAt != Some(now)
    ensures var o := Installation.Installed(t, rt, batch, now).value; var n := o.changed[k].id.name;
      FactsV4(t, n) != FactsV4(o.tables, n)
  {
    FactsOfWrittenMember(t, rt, batch, now, k);
  }

  /** A removal is always visible: its row is there before and gone after. */
  lemma RemovalIsVisible(t: Tables, id: PackageId)
    requires id.name in t.packages && t.packages[id.name].author == id.author && Removed(t, id).Ok?
    ensures FactsV4(t, id.name) != FactsV4(Removed(t, id).value, id.name)
  {
    assert id.name !in Removed(t, id).value.packages;
  }
}
