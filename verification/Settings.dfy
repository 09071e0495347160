/** The configuration table of one identity, its transactions, and their interplay with installs. */
module Settings {
  import opened Wrappers
  import opened Identity
  import opened Texts
  import opened Routes
  import opened Proxies
  import opened Registration
  import opened Installation

  /** The text of an accepted upstream, with its scheme and address spelled out; none when it is not a
      local HTTP endpoint. */
  type Upstreams = string -> Option<string>

  const MODES := {"loopback", "internal", "external", "all"}

  datatype Call =
    | Get
    | PatchListen(mode: string)
    | DeleteListen
    | PatchMount(location: string, upstream: string)
    | DeleteMount(location: string, upstream: string)

  datatype Failure = Malformed | InvalidConfig | UpstreamChanged

  datatype Config = Config(rows: map<string, string>, listen: Option<string>)

  // ------------------------------------------------------------ proxies against mounts

  predicate HasPart(row: Row, kind: Kind) {
    if kind == LibKind then row.hasLib else row.hasApp
  }

  /** A location at or below the mount of an installed part. */
  ghost predicate InWay(location: string, packages: map<string, Row>, name: string, kind: Kind) {
    name in packages && HasPart(packages[name], kind)
    && var mount := Mount(RowId(name, packages[name]), kind);
       mount.Some? && AtOrBelow(LocationPath(location), mount.value)
  }

  ghost predicate NoneInWay(packages: map<string, Row>, locations: set<string>) {
    forall l, name, kind {:trigger InWay(l, packages, name, kind)} :: l in locations ==> !InWay(l, packages, name, kind)
  }

  ghost predicate NoneReserved(locations: set<string>) {
    forall l :: l in locations ==> !IsReserved(LocationPath(l))
  }

  /** The installer's test, which trims trailing slashes, and the configuration's, which does not, agree
      on every location: whichever comes second is refused. */
  lemma InstallAndConfigAgree(location: string, id: PackageId, kind: Kind)
    requires ValidName(id.name) && Mount(id, kind).Some?
    ensures Occupies(location, Mount(id, kind).value) <==> AtOrBelow(LocationPath(location), Mount(id, kind).value)
  {
    var mount := Mount(id, kind).value;
    assert mount[|mount| - 1] == id.name[|id.name| - 1];
    TrimKeepsMount(LocationPath(location), mount);
  }

  method CheckKind(packages: map<string, Row>, locations: set<string>, kind: Kind) returns (ok: bool)
    ensures ok <==>
      forall l, name {:trigger InWay(l, packages, name, kind)} :: l in locations ==> !InWay(l, packages, name, kind)
  {
    var names := packages.Keys;
    while names != {}
      invariant names <= packages.Keys
      invariant forall l, name {:trigger InWay(l, packages, name, kind)} :: l in locations && name !in names ==>
        !InWay(l, packages, name, kind)
      decreases names
    {
      var name :| name in names;
      names := names - {name};
      var mount := if HasPart(packages[name], kind) then Mount(RowId(name, packages[name]), kind) else None;
      if mount.Some? {
        var rest := locations;
        while rest != {}
          invariant rest <= locations
          invariant forall l :: l in locations && l !in rest ==> !AtOrBelow(LocationPath(l), mount.value)
          decreases rest
        {
          var l :| l in rest;
          rest := rest - {l};
          if AtOrBelow(LocationPath(l), mount.value) {
            assert InWay(l, packages, name, kind);
            return false;
          }
        }
      }
    }
    ok := true;
  }

  method CheckProxyMounts(packages: map<string, Row>, locations: set<string>) returns (ok: bool)
    ensures ok <==> NoneReserved(locations) && NoneInWay(packages, locations)
  {
    var rest := locations;
    while rest != {}
      invariant rest <= locations && forall l :: l in locations && l !in rest ==> !IsReserved(LocationPath(l))
      decreases rest
    {
      var l :| l in rest;
      rest := rest - {l};
      if IsReserved(LocationPath(l)) { return false; }
    }
    ok := CheckKind(packages, locations, AppKind);
    if ok {
      ok := CheckKind(packages, locations, LibKind);
    }
  }

  // ------------------------------------------------------------ reading the table back

  predicate AcceptedRow(location: string, upstream: string, upstreams: Upstreams) {
    ValidLocation(location) && upstreams(upstream).Some?
  }

  /** Check and normalise a list of rows; a location may occur once. */
  method ParseProxies(values: seq<(string, string)>, upstreams: Upstreams) returns (r: Option<seq<(string, string)>>)
    ensures r.Some? <==>
      && (forall i :: 0 <= i < |values| ==> AcceptedRow(values[i].0, values[i].1, upstreams))
      && (forall i, j :: 0 <= i < j < |values| ==> values[i].0 != values[j].0)
    ensures r.Some? ==> |r.value| == |values|
    ensures r.Some? ==> forall i :: 0 <= i < |values| ==>
      r.value[i].0 == values[i].0 && Some(r.value[i].1) == upstreams(values[i].1)
  {
    var seen: set<string> := {};
    var rules: seq<(string, string)> := [];
    for i := 0 to |values|
      invariant seen == Locations(values[..i]) && |rules| == i
      invariant forall k: nat {:trigger Parsed(values, rules, k, upstreams)} :: k < i ==>
        Parsed(values, rules, k, upstreams)
    {
      var (location, upstream) := values[i];
      if !ValidPath(LocationPath(location)) || location in seen || IsReserved(LocationPath(location)) {
        RefusedRow(values, i, upstreams);
        return None;
      }
      if upstreams(upstream).None? {
        return None;
      }
      ghost var before := rules;
      seen := seen + {location};
      rules := rules + [(location, upstreams(upstream).value)];
      ParsedMore(values, before, rules, i, upstreams);
    }
    forall i, j | 0 <= i < j < |values|
      ensures values[i].0 != values[j].0 && AcceptedRow(values[i].0, values[i].1, upstreams)
    {
      assert Parsed(values, rules, i, upstreams) && Parsed(values, rules, j, upstreams);
      assert values[i] in values[..j];
    }
    forall i | 0 <= i < |values|
      ensures AcceptedRow(values[i].0, values[i].1, upstreams) && rules[i].0 == values[i].0
        && Some(rules[i].1) == upstreams(values[i].1)
    {
      assert Parsed(values, rules, i, upstreams);
    }
    r := Some(rules);
  }

  function Locations(values: seq<(string, string)>): set<string> {
    set v | v in values :: v.0
  }

  /** Row k was accepted, is new, and gave rule k. */
  ghost predicate Parsed(values: seq<(string, string)>, rules: seq<(string, string)>, k: nat, upstreams: Upstreams) {
    && k < |values| && k < |rules|
    && AcceptedRow(values[k].0, values[k].1, upstreams) && values[k].0 !in Locations(values[..k])
    && rules[k].0 == values[k].0 && Some(rules[k].1) == upstreams(values[k].1)
  }

  lemma ParsedMore(values: seq<(string, string)>, before: seq<(string, string)>, after: seq<(string, string)>, i: nat,
                   upstreams: Upstreams)
    requires i < |values| && |before| == i && |after| == i + 1 && after[..i] == before
    requires forall k: nat {:trigger Parsed(values, before, k, upstreams)} :: k < i ==>
      Parsed(values, before, k, upstreams)
    requires Parsed(values, after, i, upstreams)
    ensures forall k: nat {:trigger Parsed(values, after, k, upstreams)} :: k < i + 1 ==>
      Parsed(values, after, k, upstreams)
    ensures Locations(values[..i + 1]) == Locations(values[..i]) + {values[i].0}
  {
    assert values[..i + 1] == values[..i] + [values[i]];
    forall k: nat {:trigger Parsed(values, after, k, upstreams)} | k < i ensures Parsed(values, after, k, upstreams) {
      assert Parsed(values, before, k, upstreams);
      assert after[k] == before[k];
    }
  }

  lemma RefusedRow(values: seq<(string, string)>, i: nat, upstreams: Upstreams)
    requires i < |values| && (values[i].0 in Locations(values[..i]) || !ValidLocation(values[i].0))
    ensures !(forall k :: 0 <= k < |values| ==> AcceptedRow(values[k].0, values[k].1, upstreams))
      || exists k, j :: 0 <= k < j < |values| && values[k].0 == values[j].0
  {
    if values[i].0 in Locations(values[..i]) {
      var v :| v in values[..i] && v.0 == values[i].0;
      var k :| 0 <= k < i && values[k] == v;
    }
  }

  ghost predicate Readable(c: Config, upstreams: Upstreams) {
    && (c.listen.Some? ==> c.listen.value in MODES)
    && (forall l :: l in c.rows ==> AcceptedRow(l, c.rows[l], upstreams))
  }

  /** What every commit of the configuration leaves behind. */
  ghost predicate Sound(c: Config, packages: map<string, Row>, upstreams: Upstreams) {
    Readable(c, upstreams) && NoneInWay(packages, c.rows.Keys)
  }

  method Rows(rows: map<string, string>) returns (values: seq<(string, string)>)
    ensures forall v :: v in values <==> v.0 in rows && rows[v.0] == v.1
    ensures forall i, j :: 0 <= i < j < |values| ==> values[i].0 != values[j].0
  {
    values := [];
    var rest := rows.Keys;
    while rest != {}
      invariant rest <= rows.Keys
      invariant forall v :: v in values <==> v.0 in rows && v.0 !in rest && rows[v.0] == v.1
      invariant forall i, j :: 0 <= i < j < |values| ==> values[i].0 != values[j].0
      decreases rest
    {
      var l :| l in rest;
      assert forall i :: 0 <= i < |values| ==> values[i] in values;
      rest := rest - {l};
      values := values + [(l, rows[l])];
    }
  }

  /** Read the configuration and check it against the installed mounts. */
  method ReadServerConfig(c: Config, packages: map<string, Row>, upstreams: Upstreams) returns (ok: bool)
    ensures ok <==> Sound(c, packages, upstreams)
  {
    if c.listen.Some? && c.listen.value !in MODES {
      return false;
    }
    var values := Rows(c.rows);
    var rules := ParseProxies(values, upstreams);
    if rules.None? {
      assert exists i :: 0 <= i < |values| && values[i] in values && !AcceptedRow(values[i].0, values[i].1, upstreams);
      return false;
    }
    forall l | l in c.rows ensures AcceptedRow(l, c.rows[l], upstreams) {
      assert (l, c.rows[l]) in values;
    }
    ok := CheckProxyMounts(packages, c.rows.Keys);
  }

  // ------------------------------------------------------------ one request

  /** A request's own validity, before the database is opened. */
  predicate WellFormed(call: Call, upstreams: Upstreams) {
    match call
    case PatchListen(mode) => mode in {"internal", "external", "all", "off"}
    case PatchMount(l, u) => AcceptedRow(l, u, upstreams)
    case DeleteMount(l, u) => AcceptedRow(l, u, upstreams)
    case _ => true
  }

  /** The edit a request makes; unmounting names the upstream it expects to remove. */
  function Edited(c: Config, call: Call, upstreams: Upstreams): Result<Config, Failure> {
    match call
    case Get => Ok(c)
    case PatchListen(mode) => Ok(c.(listen := if mode == "off" then None else Some(mode)))
    case DeleteListen => Ok(c.(listen := None))
    case PatchMount(l, u) =>
      if upstreams(u).Some? then Ok(c.(rows := c.rows[l := upstreams(u).value])) else Err(Malformed)
    case DeleteMount(l, u) =>
      if l !in c.rows then Ok(c)
      else if upstreams(c.rows[l]) != upstreams(u) then Err(UpstreamChanged)
      else Ok(c.(rows := c.rows - {l}))
  }

  ghost function Configured(c: Config, packages: map<string, Row>, call: Call,
                            upstreams: Upstreams): Result<Config, Failure> {
    if !WellFormed(call, upstreams) then Err(Malformed)
    else if !Sound(c, packages, upstreams) then Err(InvalidConfig)
    else
      var e := Edited(c, call, upstreams);
      if e.Err? then e
      else if !Sound(e.value, packages, upstreams) then Err(InvalidConfig)
      else e
  }

  method CheckCall(call: Call, upstreams: Upstreams) returns (ok: bool)
    ensures ok <==> WellFormed(call, upstreams)
  {
    match call
    case PatchListen(mode) =>
      ok := mode in {"internal", "external", "all", "off"};
    case PatchMount(l, u) =>
      var values := [(l, u)];
      var rules := ParseProxies(values, upstreams);
      assert values[0] == (l, u);
      ok := rules.Some?;
    case DeleteMount(l, u) =>
      var values := [(l, u)];
      var rules := ParseProxies(values, upstreams);
      assert values[0] == (l, u);
      ok := rules.Some?;
    case _ =>
      ok := true;
  }

  class Database {
    var config: Config

    constructor ()
      ensures config == Config(map[], None)
    {
      config := Config(map[], None);
    }

    /** One configuration request in one transaction: either its edit is committed or nothing changes. */
    method Configure(packages: map<string, Row>, call: Call, upstreams: Upstreams) returns (r: Option<Failure>)
      modifies this
      ensures match Configured(old(config), packages, call, upstreams)
              case Ok(c) => r == None && config == c
              case Err(e) => r == Some(e) && config == old(config)
    {
      var ok := CheckCall(call, upstreams);
      if !ok {
        return Some(Malformed);
      }
      ok := ReadServerConfig(config, packages, upstreams);
      if !ok {
        return Some(InvalidConfig);
      }
      var work := Edited(config, call, upstreams);
      if work.Err? {
        return Some(work.error);
      }
      ok := ReadServerConfig(work.value, packages, upstreams);
      if !ok {
        return Some(InvalidConfig);
      }
      config := work.value;
      r := None;
    }
  }

  /** From a sound configuration a mount is accepted exactly when it is well-formed, its stored upstream
      reads back, and no installed part is served at or above it. */
  lemma MountsExactly(c: Config, packages: map<string, Row>, l: string, u: string, upstreams: Upstreams)
    requires Sound(c, packages, upstreams)
    ensures Configured(c, packages, PatchMount(l, u), upstreams).Ok? <==>
      && AcceptedRow(l, u, upstreams) && upstreams(upstreams(u).value).Some?
      && forall name, kind {:trigger InWay(l, packages, name, kind)} :: !InWay(l, packages, name, kind)
  {
    if upstreams(u).Some? {
      var rows := c.rows[l := upstreams(u).value];
      assert forall k :: k in rows <==> k in c.rows || k == l;
      if AcceptedRow(l, u, upstreams) && upstreams(upstreams(u).value).Some?
         && forall name, kind {:trigger InWay(l, packages, name, kind)} :: !InWay(l, packages, name, kind) {
        assert NoneInWay(packages, rows.Keys);
      } else {
        assert l in rows && rows[l] == upstreams(u).value;
      }
    }
  }

  /** Removing rows, clearing or setting the mode always succeeds from a sound configuration. */
  lemma OtherEditsSucceed(c: Config, packages: map<string, Row>, call: Call, upstreams: Upstreams)
    requires Sound(c, packages, upstreams) && WellFormed(call, upstreams) && !call.PatchMount?
    ensures Configured(c, packages, call, upstreams) == Edited(c, call, upstreams)
  {
    var e := Edited(c, call, upstreams);
    if e.Ok? {
      assert e.value.rows.Keys <= c.rows.Keys;
      assert forall l :: l in e.value.rows ==> e.value.rows[l] == c.rows[l];
    }
  }

  // ------------------------------------------------------------ runs of configuration, install and removal

  datatype World = World(tables: Tables, config: Config)

  datatype Event =
    | Configure(call: Call)
    | InstallBatch(rt: Runtime, batch: seq<Candidate>, now: int)
    | RemoveOne(id: PackageId)

  /** The verdict of the route checks for one member, made against the current proxies. By
      `Routes.OnlyProxiesConflict` there is nothing else to conflict with. */
  ghost predicate Clear(locations: set<string>, p: Candidate) {
    ClearParts(locations, IdOf(p.id), p.hasLib, p.hasApp)
  }

  ghost predicate ClearParts(locations: set<string>, id: PackageId, hasLib: bool, hasApp: bool) {
    (hasApp ==> ClearAt(locations, id, AppKind)) && (hasLib ==> ClearAt(locations, id, LibKind))
  }

  ghost predicate ClearAt(locations: set<string>, id: PackageId, kind: Kind) {
    Mount(id, kind).Some? ==> forall l :: l in locations ==> !Occupies(l, Mount(id, kind).value)
  }

  ghost function Judged(locations: set<string>, batch: seq<Candidate>): (r: seq<Candidate>)
    ensures |r| == |batch| && forall i :: 0 <= i < |batch| ==>
      r[i] == batch[i].(routesClear := Clear(locations, batch[i]))
  {
    seq(|batch|, i requires 0 <= i < |batch| => batch[i].(routesClear := Clear(locations, batch[i])))
  }

  ghost function Step(w: World, e: Event, upstreams: Upstreams): World {
    match e
    case Configure(call) =>
      var r := Configured(w.config, w.tables.packages, call, upstreams);
      if r.Ok? then w.(config := r.value) else w
    case InstallBatch(rt, batch, now) =>
      var r := Installed(w.tables, rt, Judged(w.config.rows.Keys, batch), now);
      if r.Ok? then w.(tables := r.value.tables) else w
    case RemoveOne(id) =>
      var r := Removed(w.tables, id);
      if r.Ok? then w.(tables := r.value) else w
  }

  ghost function Run(w: World, events: seq<Event>, upstreams: Upstreams): World
    decreases |events|
  {
    if events == [] then w else Run(Step(w, events[0], upstreams), events[1..], upstreams)
  }

  ghost predicate Inv(w: World, upstreams: Upstreams) {
    Consistent(w.tables) && Sound(w.config, w.tables.packages, upstreams)
  }

  lemma WrittenIsFree(locations: set<string>, t: Tables, p: Candidate, now: int, packages: map<string, Row>, l: string,
                      kind: Kind)
    requires p.id.name in packages && packages[p.id.name] == NewRow(t, p, now)
    requires ValidName(p.id.name) && Clear(locations, p) && l in locations
    ensures !InWay(l, packages, p.id.name, kind)
  {
    var id := IdOf(p.id);
    assert RowId(p.id.name, packages[p.id.name]) == id;
    if Mount(id, kind).Some? {
      InstallAndConfigAgree(l, id, kind);
    }
  }

  /** What is written was checked against the current locations. */
  lemma ChangedIsClear(t: Tables, rt: Runtime, locations: set<string>, batch: seq<Candidate>, now: int, p: Candidate)
    requires Installed(t, rt, Judged(locations, batch), now).Ok?
    requires p in Installed(t, rt, Judged(locations, batch), now).value.changed
    ensures ValidName(p.id.name) && Clear(locations, p)
  {
    var judged := Judged(locations, batch);
    WrittenIsChecked(t, rt, judged, now, p);
    var j: nat :| j < |judged| && judged[j] == p;
    assert p == batch[j].(routesClear := Clear(locations, batch[j]));
  }

  lemma RewriteKeepsMountsFree(t: Tables, u: Tables, base: Tables, changed: seq<Candidate>, now: int,
                               locations: set<string>)
    requires NoneInWay(t.packages, locations) && RewritesOnly(t, u, changed, 0)
    requires forall k :: 0 <= k < |changed| ==> ValidName(changed[k].id.name) && Clear(locations, changed[k])
    requires forall k: nat :: k < |changed| ==> HasNewRow(u, base, changed[k], now)
    ensures NoneInWay(u.packages, locations)
  {
    forall l, name, kind {:trigger InWay(l, u.packages, name, kind)} | l in locations
      ensures !InWay(l, u.packages, name, kind)
    {
      if NamedFrom(changed, 0, name) {
        var k :| 0 <= k < |changed| && changed[k].id.name == name;
        assert HasNewRow(u, base, changed[k], now);
        WrittenIsFree(locations, base, changed[k], now, u.packages, l, kind);
      } else {
        assert !InWay(l, t.packages, name, kind);
      }
    }
  }

  lemma InstallKeepsMountsFree(w: World, rt: Runtime, batch: seq<Candidate>, now: int)
    requires Consistent(w.tables) && NoneInWay(w.tables.packages, w.config.rows.Keys)
    requires Installed(w.tables, rt, Judged(w.config.rows.Keys, batch), now).Ok?
    ensures NoneInWay(Installed(w.tables, rt, Judged(w.config.rows.Keys, batch), now).value.tables.packages,
      w.config.rows.Keys)
  {
    var t, locations := w.tables, w.config.rows.Keys;
    var judged := Judged(locations, batch);
    var o := Installed(t, rt, judged, now).value;
    InstallKeepsConsistent(t, rt, judged, now);
    AllWritten(t, rt, judged, now);
    forall k | 0 <= k < |o.changed| ensures ValidName(o.changed[k].id.name) && Clear(locations, o.changed[k]) {
      ChangedIsClear(t, rt, locations, batch, now, o.changed[k]);
    }
    RewriteKeepsMountsFree(t, o.tables, WithoutOutgoing(t, NamesOf(o.changed)), o.changed, now, locations);
  }

  lemma RemovalKeepsMountsFree(t: Tables, id: PackageId, locations: set<string>)
    requires Consistent(t) && NoneInWay(t.packages, locations) && Removed(t, id).Ok?
    ensures NoneInWay(Removed(t, id).value.packages, locations)
  {
    var u := Removed(t, id).value;
    forall l, name, kind {:trigger InWay(l, u.packages, name, kind)} | l in locations
      ensures !InWay(l, u.packages, name, kind)
    {
      assert !InWay(l, t.packages, name, kind);
    }
  }

  lemma StepKeepsInv(w: World, e: Event, upstreams: Upstreams)
    requires Inv(w, upstreams)
    ensures Inv(Step(w, e, upstreams), upstreams)
  {
    match e
    case Configure(call) =>
    case InstallBatch(rt, batch, now) =>
      var judged := Judged(w.config.rows.Keys, batch);
      if Installed(w.tables, rt, judged, now).Ok? {
        InstallKeepsConsistent(w.tables, rt, judged, now);
        InstallKeepsMountsFree(w, rt, batch, now);
      }
    case RemoveOne(id) =>
      if Removed(w.tables, id).Ok? {
        RemoveKeepsConsistent(w.tables, id);
        RemovalKeepsMountsFree(w.tables, id, w.config.rows.Keys);
      }
  }

  /** However installs, removals and configuration requests interleave, no proxy ever stands at or below
      an installed mount, and the configuration can always be read back. */
  lemma {:induction false} RunsKeepMountsFree(w: World, events: seq<Event>, upstreams: Upstreams)
    requires Inv(w, upstreams)
    ensures Inv(Run(w, events, upstreams), upstreams)
    decreases |events|
  {
    if events != [] {
      StepKeepsInv(w, events[0], upstreams);
      RunsKeepMountsFree(Step(w, events[0], upstreams), events[1..], upstreams);
    }
  }
}
