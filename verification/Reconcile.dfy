/** The live servers of a host, brought in line with the discovered identities and their settings,
    one identity after another. Outcomes of the network, the disk and credential loading are inputs. */
module Reconcile {
  import opened Wrappers
  import opened Proxies

  datatype ServerConfig = ServerConfig(listen: string, proxies: seq<Rule>)

  /** A router answers from the settings and credentials it was built with. */
  datatype Router = Empty | Built(proxies: seq<Rule>, endpoint: nat)

  datatype State = State(path: string, endpoint: nat, config: ServerConfig, router: Router,
                         publisher: Option<nat>, listener: Option<string>, closed: bool)

  datatype Load = LoadFailed | Skipped | Loaded(endpoint: nat, config: ServerConfig)

  /** How one pass goes for one identity: the settings read back, whether each registration attempt
      works, and what loading yields. */
  datatype Env = Env(read: Option<ServerConfig>, authority: bool, publisher: bool, listen: bool, relisten: bool,
                     load: Load)

  const SCOPES := {"loopback", "internal", "external", "all"}

  predicate Published(listen: string) {
    listen == "external" || listen == "all"
  }

  predicate SameConfig(a: ServerConfig, b: ServerConfig)
    ensures SameConfig(a, b) <==> a == b
  {
    && a.listen == b.listen && |a.proxies| == |b.proxies|
    && forall i :: 0 <= i < |a.proxies| ==>
         a.proxies[i].location == b.proxies[i].location && a.proxies[i].upstream == b.proxies[i].upstream
  }

  /** A kept server serves what its settings say: the scope it listens in, a publisher exactly for the
      external scopes and its own credentials, and a router built from these settings. */
  predicate Live(s: State) {
    && s.config.listen in SCOPES && s.listener == Some(s.config.listen) && !s.closed
    && s.publisher == (if Published(s.config.listen) then Some(s.endpoint) else None)
    && s.router == Built(s.config.proxies, s.endpoint)
  }

  // ------------------------------------------------------------ one server

  function Registered(mode: string, works: bool): Option<string> {
    if works && mode in SCOPES then Some(mode) else None
  }

  /** Credentials and publisher needed by a new scope can be had. */
  predicate Prepared(s: State, next: ServerConfig, env: Env) {
    next.listen == s.config.listen || next.listen == "off"
      || (env.authority && (Published(next.listen) ==> env.publisher))
  }

  function NewPublisher(s: State, next: ServerConfig): Option<nat> {
    if next.listen == s.config.listen then s.publisher
    else if Published(next.listen) then Some(s.endpoint) else None
  }

  function NewListener(s: State, next: ServerConfig, env: Env): Option<string> {
    if next.listen == s.config.listen then s.listener else Registered(next.listen, env.listen)
  }

  /** The server after an attempt to change its settings, and whether it took. */
  function Applied(s: State, next: ServerConfig, env: Env): (State, bool) {
    if !Prepared(s, next, env) then (s, false)
    else if next.listen != s.config.listen && next.listen != "off" && Registered(next.listen, env.listen).None? then
      (s.(listener := Registered(s.config.listen, env.relisten)), false)
    else
      (s.(config := next, listener := NewListener(s, next, env), publisher := NewPublisher(s, next),
          router := Built(next.proxies, s.endpoint)), true)
  }

  /** A change of settings takes completely, or leaves the old server, or leaves it without listener. */
  lemma AppliedIsAllOrNothing(s: State, next: ServerConfig, env: Env)
    requires Live(s) && next.listen in SCOPES
    ensures var (u, ok) := Applied(s, next, env);
      && (ok ==> Live(u) && u.config == next && u.endpoint == s.endpoint && u.path == s.path)
      && (!ok ==> u == s || u == s.(listener := None))
  {
  }

  function Renewed(s: State, endpoint: nat, publisherWorks: bool): (State, bool) {
    if Published(s.config.listen) && !publisherWorks then (s, false)
    else (s.(endpoint := endpoint, publisher := if Published(s.config.listen) then Some(endpoint) else None,
             router := Built(s.config.proxies, endpoint)), true)
  }

  class Server {
    const path: string
    var endpoint: nat
    var config: ServerConfig
    var router: Router
    var publisher: Option<nat>
    var listener: Option<string>
    var closed: bool

    function View(): State
      reads this
    {
      State(path, endpoint, config, router, publisher, listener, closed)
    }

    constructor Load(path: string, endpoint: nat, config: ServerConfig)
      ensures View() == State(path, endpoint, config, Built(config.proxies, endpoint),
                              if Published(config.listen) then Some(endpoint) else None, None, false)
    {
      this.path, this.endpoint, this.config := path, endpoint, config;
      publisher := if Published(config.listen) then Some(endpoint) else None;
      router := Built(config.proxies, endpoint);
      listener, closed := None, false;
    }

    method Listen(works: bool) returns (r: Option<string>)
      ensures r == Registered(config.listen, works)
    {
      if config.listen == "off" || config.listen !in SCOPES || !works {
        return None;
      }
      r := Some(config.listen);
    }

    method ApplyConfig(next: ServerConfig, env: Env) returns (ok: bool)
      modifies this
      ensures (View(), ok) == Applied(old(View()), next, env)
    {
      var scopeChanged := config.listen != next.listen;
      var nextPublisher := publisher;
      if scopeChanged {
        nextPublisher := None;
        if next.listen != "off" {
          if !env.authority { return false; }
          if Published(next.listen) {
            if !env.publisher { return false; }
            nextPublisher := Some(endpoint);
          }
        }
      }
      var previous := config;
      config := next;
      if scopeChanged {
        listener := None;
        if config.listen != "off" {
          var registration := Listen(env.listen);
          if registration.None? {
            config := previous;
            if config.listen != "off" {
              listener := Listen(env.relisten);
            }
            return false;
          }
          listener := registration;
        }
      }
      publisher := nextPublisher;
      router := Built(config.proxies, endpoint);
      ok := true;
    }

    method ApplyOcsp(renewed: nat, publisherWorks: bool) returns (ok: bool)
      modifies this
      ensures (View(), ok) == Renewed(old(View()), renewed, publisherWorks)
    {
      if Published(config.listen) && !publisherWorks {
        return false;
      }
      endpoint := renewed;
      publisher := if Published(config.listen) then Some(renewed) else None;
      router := Built(config.proxies, endpoint);
      ok := true;
    }

    method Close()
      modifies this
      ensures View() == old(View()).(listener := None, publisher := None, router := Empty, closed := true)
    {
      listener, publisher, router, closed := None, None, Empty, true;
    }
  }

  // ------------------------------------------------------------ one identity in one pass

  /** The identity after the pass, from nothing but its own server, profile and outcomes. */
  function Reconciled(current: Option<State>, profile: Option<string>, env: Env): Option<State> {
    if profile.None? then None
    else if current.Some? && current.value.path == profile.value then Updated(current.value, env)
    else Entered(profile.value, env)
  }

  function Updated(s: State, env: Env): Option<State> {
    if env.read.None? then Some(s)
    else if env.read.value.listen == "off" then None
    else if env.read.value == s.config then Some(s)
    else
      var u := Applied(s, env.read.value, env).0;
      if u.config.listen != "off" && u.listener.None? then None else Some(u)
  }

  function Entered(path: string, env: Env): Option<State> {
    match env.load
    case Loaded(endpoint, config) =>
      var s := State(path, endpoint, config, Built(config.proxies, endpoint),
                     if Published(config.listen) then Some(endpoint) else None,
                     Registered(config.listen, env.listen), false);
      if config.listen != "off" && s.listener.None? then None else Some(s)
    case _ => None
  }

  /** Settings that can be read back have a known mode; loading only yields enabled servers. */
  predicate Sane(env: Env) {
    && (env.read.Some? ==> env.read.value.listen in SCOPES || env.read.value.listen == "off")
    && (env.load.Loaded? ==> env.load.config.listen in SCOPES)
  }

  /** A kept server goes exactly when it was disabled, or when both the new registration and the return
      to the old one failed. */
  predicate Goes(s: State, env: Env) {
    && env.read.Some?
    && (env.read.value.listen == "off"
        || (env.read.value.listen != s.config.listen && Prepared(s, env.read.value, env)
            && !env.listen && !env.relisten))
  }

  /** The settings read take exactly when they name the same scope, or every step of the change worked. */
  predicate Takes(s: State, env: Env) {
    && env.read.Some?
    && (env.read.value.listen == s.config.listen
        || (env.authority && (Published(env.read.value.listen) ==> env.publisher) && env.listen))
  }

  /** The pass never leaves a half-changed server: the identity keeps exactly its old server, is gone,
      or has a live server with exactly the settings read or loaded in this pass. A server whose profile
      stays goes, and takes the settings read, exactly when the outcomes of the pass say so. */
  lemma ReconciledIsLive(current: Option<State>, profile: Option<string>, env: Env)
    requires Sane(env) && (current.Some? ==> Live(current.value))
    ensures var r := Reconciled(current, profile, env);
      && (r.Some? ==> Live(r.value) && Some(r.value.path) == profile)
      && (r.None? || r == current || Some(r.value.config) == env.read
          || (env.load.Loaded? && r.value.config == env.load.config && r.value.endpoint == env.load.endpoint))
    ensures current.Some? && profile == Some(current.value.path) ==>
      var r := Reconciled(current, profile, env);
      && (r.None? <==> Goes(current.value, env))
      && (r.Some? ==>
            (Some(r.value.config) == env.read <==> Takes(current.value, env) || env.read == Some(current.value.config)))
  {
    if current.Some? && env.read.Some? && env.read.value.listen in SCOPES {
      AppliedIsAllOrNothing(current.value, env.read.value, env);
    }
  }

  // ------------------------------------------------------------ the host

  datatype Profile = Profile(name: string, path: string)

  /** Discovery over all homes in order; one unreadable home or one name in two homes fails it. */
  method DiscoverProfiles(homes: seq<Option<seq<Profile>>>) returns (r: Option<map<string, string>>)
    ensures r.Some? <==> (forall h :: h in homes ==> h.Some?) && DistinctNames(Flat(homes))
    ensures r.Some? ==> forall p :: p in Flat(homes) <==> p.name in r.value && r.value[p.name] == p.path
  {
    var found: map<string, string> := map[];
    for i := 0 to |homes|
      invariant forall h :: h in homes[..i] ==> h.Some?
      invariant DistinctNames(Flat(homes[..i])) && Lists(found, Flat(homes[..i]))
    {
      assert homes[..i + 1] == homes[..i] + [homes[i]];
      if homes[i].None? {
        assert homes[i] in homes;
        return None;
      }
      FlatAppend(homes, i);
      var more := AddHome(found, homes[i].value, Flat(homes[..i]));
      if more.None? {
        FlatExtends(homes, i + 1);
        return None;
      }
      found := more.value;
    }
    assert homes[..|homes|] == homes;
    r := Some(found);
  }

  /** Add the profiles of one home, unless a name is already known. */
  method AddHome(known: map<string, string>, more: seq<Profile>, ghost before: seq<Profile>)
    returns (r: Option<map<string, string>>)
    requires DistinctNames(before) && Lists(known, before)
    ensures r.Some? <==> DistinctNames(before + more)
    ensures r.Some? ==> Lists(r.value, before + more)
  {
    var found := known;
    assert before + more[..0] == before;
    for j := 0 to |more|
      invariant DistinctNames(before + more[..j]) && Lists(found, before + more[..j])
    {
      TakeOne(before, more, j);
      if more[j].name in found {
        assert Profile(more[j].name, found[more[j].name]) in before + more[..j];
        NotDistinct(before + more[..j], more[j]);
        return None;
      }
      ListOne(found, before + more[..j], more[j]);
      found := found[more[j].name := more[j].path];
    }
    assert more[..|more|] == more;
    r := Some(found);
  }

  lemma TakeOne(before: seq<Profile>, more: seq<Profile>, j: nat)
    requires j < |more|
    ensures before + more[..j + 1] == before + more[..j] + [more[j]] && before + more[..j + 1] <= before + more
  {
  }

  lemma NotDistinct(ps: seq<Profile>, p: Profile)
    requires exists q :: q in ps && q.name == p.name
    ensures !DistinctNames(ps + [p])
  {
    var q :| q in ps && q.name == p.name;
    var k :| 0 <= k < |ps| && ps[k] == q;
    var all := ps + [p];
    assert all[k].name == all[|ps|].name;
  }

  lemma ListOne(found: map<string, string>, ps: seq<Profile>, p: Profile)
    requires DistinctNames(ps) && Lists(found, ps) && p.name !in found
    ensures DistinctNames(ps + [p]) && Lists(found[p.name := p.path], ps + [p])
  {
    forall i | 0 <= i < |ps| ensures ps[i].name != p.name {
      assert ps[i] in ps;
    }
  }

  function Flat(homes: seq<Option<seq<Profile>>>): seq<Profile> {
    if homes == [] then []
    else Flat(homes[..|homes| - 1]) + (if homes[|homes| - 1].Some? then homes[|homes| - 1].value else [])
  }

  predicate DistinctNames(ps: seq<Profile>) {
    forall i, j :: 0 <= i < j < |ps| ==> ps[i].name != ps[j].name
  }

  ghost predicate Lists(found: map<string, string>, ps: seq<Profile>) {
    && (forall n :: n in found ==> Profile(n, found[n]) in ps)
    && (forall p :: p in ps ==> p.name in found && found[p.name] == p.path)
  }

  lemma FlatAppend(homes: seq<Option<seq<Profile>>>, i: nat)
    requires i < |homes|
    ensures Flat(homes[..i + 1]) == Flat(homes[..i]) + (if homes[i].Some? then homes[i].value else [])
  {
    assert homes[..i + 1][..i] == homes[..i];
  }

  lemma {:induction false} FlatExtends(homes: seq<Option<seq<Profile>>>, i: nat)
    requires i <= |homes|
    ensures Flat(homes[..i]) <= Flat(homes)
    decreases |homes| - i
  {
    if i == |homes| {
      assert homes[..i] == homes;
    } else {
      FlatAppend(homes, i);
      FlatExtends(homes, i + 1);
    }
  }

  class Host {
    var servers: map<string, Server>

    constructor ()
      ensures servers == map[]
    {
      servers := map[];
    }

    /** Each identity has its own server object. */
    ghost predicate Separate()
      reads this
    {
      forall m, n :: m in servers && n in servers && servers[m] == servers[n] ==> m == n
    }

    ghost function ViewAt(name: string): Option<State>
      reads this, servers.Values
    {
      if name in servers then Some(servers[name].View()) else None
    }

    ghost predicate AllLive()
      reads this, servers.Values
    {
      forall n :: n in servers ==> Live(servers[n].View())
    }

    twostate predicate KeepsOthers(name: string)
      reads this, servers.Values
    {
      forall n :: n != name ==>
        && (n in servers <==> n in old(servers))
        && (n in servers ==> servers[n] == old(servers[n]) && servers[n].View() == old(servers[n].View()))
    }

    method RemoveServer(name: string)
      requires name in servers && Separate()
      modifies this, servers[name]
      ensures servers == old(servers) - {name} && Separate() && KeepsOthers(name)
      ensures forall n {:trigger ViewAt(n)} :: ViewAt(n) == if n == name then None else old(ViewAt(n))
    {
      var server := servers[name];
      servers := servers - {name};
      server.Close();
    }

    /** Apply changed settings; a server left without listener is released. */
    method UpdateServer(name: string, env: Env) returns (changed: bool)
      requires name in servers && Separate()
      modifies this, servers[name]
      ensures Separate() && KeepsOthers(name)
      ensures forall n {:trigger ViewAt(n)} :: n != name ==> ViewAt(n) == old(ViewAt(n))
      ensures servers == old(servers) || servers == old(servers) - {name}
      ensures ViewAt(name) == Updated(old(servers[name].View()), env)
      ensures !changed && old(Live(servers[name].View())) ==> ViewAt(name) == old(ViewAt(name))
    {
      var server := servers[name];
      changed := false;
      if env.read.None? {
        return;
      }
      var config := env.read.value;
      if config.listen == "off" {
        RemoveServer(name);
        return true;
      }
      if !SameConfig(server.config, config) {
        var ok := server.ApplyConfig(config, env);
        if server.config.listen != "off" && server.listener.None? {
          RemoveServer(name);
          changed := true;
        }
        if !ok {
          return;
        }
        changed := true;
      }
    }

    method EnterServer(name: string, path: string, env: Env) returns (changed: bool)
      requires name !in servers && Separate()
      modifies this
      ensures Separate() && KeepsOthers(name)
      ensures forall n {:trigger ViewAt(n)} :: n != name ==> ViewAt(n) == old(ViewAt(n))
      ensures name in servers ==> fresh(servers[name])
      ensures ViewAt(name) == Entered(path, env)
      ensures !changed ==> name !in servers
    {
      if !env.load.Loaded? {
        return false;
      }
      var server := new Server.Load(path, env.load.endpoint, env.load.config);
      if server.config.listen != "off" {
        var listener := server.Listen(env.listen);
        if listener.None? {
          server.Close();
          return false;
        }
        server.listener := listener;
      }
      servers := servers[name := server];
      changed := true;
    }

    /** One pass. A failed discovery changes nothing; otherwise every identity ends as its own server,
        profile and outcomes determine, whatever happens to the others. */
    method ReconcileProfiles(discovered: Option<map<string, string>>, env: string -> Env)
      returns (ok: bool, changed: bool)
      requires Separate()
      modifies this, servers.Values
      ensures Separate() && ok == discovered.Some?
      ensures !ok ==> !changed && servers == old(servers) && forall n :: ViewAt(n) == old(ViewAt(n))
      ensures ok ==>
        forall n {:trigger ViewAt(n)} :: ViewAt(n) == Reconciled(old(ViewAt(n)), Lookup(discovered.value, n), env(n))
      ensures forall n :: n in servers ==> servers[n] in old(servers.Values) || fresh(servers[n])
      ensures old(AllLive()) && !changed ==> forall n {:trigger ViewAt(n)} :: ViewAt(n) == old(ViewAt(n))
    {
      changed := false;
      if discovered.None? {
        return false, false;
      }
      var profiles := discovered.value;
      var gone := RemoveGone(profiles);
      changed := gone;
      var rest := profiles.Keys;
      while rest != {}
        invariant rest <= profiles.Keys && Separate()
        invariant forall n :: n in servers ==> servers[n] in old(servers.Values) || fresh(servers[n])
        invariant forall n {:trigger ViewAt(n)} ::
          ViewAt(n) == Midway(old(ViewAt(n)), Lookup(profiles, n), env(n), n in rest)
        invariant old(AllLive()) && !changed ==> forall n {:trigger ViewAt(n)} :: ViewAt(n) == old(ViewAt(n))
        decreases rest
      {
        var name :| name in rest;
        assert ViewAt(name) == Kept(old(ViewAt(name)), Some(profiles[name]));
        KeptThenReconciled(old(ViewAt(name)), profiles[name], env(name));
        ghost var after := rest - {name};
        label before:
        var one := ReconcileName(name, profiles[name], env(name));
        forall n {:trigger ViewAt(n)}
          ensures ViewAt(n) == Midway(old(ViewAt(n)), Lookup(profiles, n), env(n), n in after)
        {
          assert n != name ==> ViewAt(n) == old@before(ViewAt(n));
        }
        if old(AllLive()) && !changed && !one {
          forall n {:trigger ViewAt(n)} ensures ViewAt(n) == old(ViewAt(n)) {
            assert old@before(ViewAt(n)) == old(ViewAt(n));
          }
        }
        rest := rest - {name};
        changed := changed || one;
      }
      ok := true;
    }

    /** Drop the servers whose profile is gone or has moved. */
    method RemoveGone(profiles: map<string, string>) returns (changed: bool)
      requires Separate()
      modifies this, servers.Values
      ensures Separate() && servers.Values <= old(servers.Values)
      ensures forall n {:trigger ViewAt(n)} :: ViewAt(n) == Kept(old(ViewAt(n)), Lookup(profiles, n))
      ensures !changed ==> forall n {:trigger ViewAt(n)} :: ViewAt(n) == old(ViewAt(n))
    {
      changed := false;
      var rest := servers.Keys;
      while rest != {}
        invariant rest <= servers.Keys && Separate()
        invariant forall n :: n in servers ==> n in old(servers) && servers[n] == old(servers[n])
        invariant forall n {:trigger ViewAt(n)} ::
          ViewAt(n) == if n in rest then old(ViewAt(n)) else Kept(old(ViewAt(n)), Lookup(profiles, n))
        invariant !changed ==> servers == old(servers) && forall n {:trigger ViewAt(n)} :: ViewAt(n) == old(ViewAt(n))
        decreases rest
      {
        var name :| name in rest;
        rest := rest - {name};
        assert ViewAt(name) == old(ViewAt(name));
        if name !in profiles || profiles[name] != servers[name].path {
          RemoveServer(name);
          changed := true;
        }
      }
    }

    method ReconcileName(name: string, path: string, env: Env) returns (changed: bool)
      requires Separate() && (name in servers ==> servers[name].path == path)
      modifies this, if name in servers then {servers[name]} else {}
      ensures Separate() && KeepsOthers(name)
      ensures forall n {:trigger ViewAt(n)} :: n != name ==> ViewAt(n) == old(ViewAt(n))
      ensures name in servers ==> fresh(servers[name]) || (name in old(servers) && servers[name] == old(servers[name]))
      ensures ViewAt(name) == Reconciled(old(ViewAt(name)), Some(path), env)
      ensures !changed && (name in old(servers) ==> old(Live(servers[name].View()))) ==>
        ViewAt(name) == old(ViewAt(name))
    {
      if name in servers {
        changed := UpdateServer(name, env);
      } else {
        changed := EnterServer(name, path, env);
      }
    }
  }

  function Lookup(m: map<string, string>, n: string): Option<string> {
    if n in m then Some(m[n]) else None
  }

  function Kept(s: Option<State>, profile: Option<string>): Option<State> {
    if s.Some? && profile == Some(s.value.path) then s else None
  }

  /** Kept but not yet visited, or done. */
  function Midway(s: Option<State>, profile: Option<string>, env: Env, waiting: bool): Option<State> {
    if waiting then Kept(s, profile) else Reconciled(s, profile, env)
  }

  lemma KeptThenReconciled(s: Option<State>, path: string, env: Env)
    ensures Reconciled(Kept(s, Some(path)), Some(path), env) == Reconciled(s, Some(path), env)
  {
  }

  // ------------------------------------------------------------ runs of the event loop

  /** The servers and the identities whose renewed credentials are still awaited. */
  datatype Loop = Loop(servers: map<string, State>, pending: set<string>)

  datatype Event =
    | Scan(discovered: Option<map<string, string>>, env: string -> Env)
    | StartRenewals
    | FinishRenewal(name: string, endpoint: Option<nat>, publisherWorks: bool)

  function At(servers: map<string, State>, n: string): Option<State> {
    if n in servers then Some(servers[n]) else None
  }

  function Pass(servers: map<string, State>, profiles: map<string, string>, env: string -> Env): map<string, State> {
    map n | n in servers.Keys + profiles.Keys && Reconciled(At(servers, n), Lookup(profiles, n), env(n)).Some?
      :: Reconciled(At(servers, n), Lookup(profiles, n), env(n)).value
  }

  /** Passes and new renewals wait for the outstanding renewals; a renewal ends once. */
  ghost predicate Enabled(l: Loop, e: Event) {
    match e
    case Scan(_, env) => l.pending == {} && forall n :: Sane(env(n))
    case StartRenewals => l.pending == {}
    case FinishRenewal(name, _, _) => name in l.pending
  }

  function Step(l: Loop, e: Event): Loop {
    match e
    case Scan(discovered, env) => if discovered.None? then l else l.(servers := Pass(l.servers, discovered.value, env))
    case StartRenewals => l.(pending := l.servers.Keys)
    case FinishRenewal(name, endpoint, publisherWorks) =>
      var done := l.(pending := l.pending - {name});
      if name !in l.servers || endpoint.None? then done
      else done.(servers := l.servers[name := Renewed(l.servers[name], endpoint.value, publisherWorks).0])
  }

  ghost predicate IsRun(l: Loop, events: seq<Event>)
    decreases |events|
  {
    events == [] || (Enabled(l, events[0]) && IsRun(Step(l, events[0]), events[1..]))
  }

  function Run(l: Loop, events: seq<Event>): Loop
    decreases |events|
  {
    if events == [] then l else Run(Step(l, events[0]), events[1..])
  }

  ghost predicate Inv(l: Loop) {
    (forall n :: n in l.servers ==> Live(l.servers[n])) && l.pending <= l.servers.Keys
  }

  lemma StepKeepsInv(l: Loop, e: Event)
    requires Inv(l) && Enabled(l, e)
    ensures Inv(Step(l, e))
  {
    match e
    case Scan(discovered, env) =>
      if discovered.Some? {
        forall n | n in Pass(l.servers, discovered.value, env) ensures Live(Pass(l.servers, discovered.value, env)[n]) {
          ReconciledIsLive(At(l.servers, n), Lookup(discovered.value, n), env(n));
        }
      }
    case StartRenewals =>
    case FinishRenewal(name, endpoint, publisherWorks) =>
  }

  /** Over any run of scans and credential renewals every server stays live, and a finished renewal
      always finds the server it was started for. */
  lemma {:induction false} RunsStayLive(l: Loop, events: seq<Event>, e: Event)
    requires Inv(l) && IsRun(l, events)
    ensures Inv(Run(l, events))
    ensures e.FinishRenewal? && Enabled(Run(l, events), e) ==> e.name in Run(l, events).servers
    decreases |events|
  {
    if events != [] {
      StepKeepsInv(l, events[0]);
      RunsStayLive(Step(l, events[0]), events[1..], e);
    }
  }
}
