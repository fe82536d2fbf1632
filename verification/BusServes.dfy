/**
  What a start, a stop and an unload do to the routes, field by field, and which
  implementation a protocol resolves to after any run of the bus
  (bus/src/loader.c, plugin_register_provides, hw_plugin_start, hw_plugin_stop).
 */
module BusServes {
  import opened CText
  import opened Metaproto
  import opened PluginBus
  import opened BusRuns

  /** The routes of every other plugin, in their order. */
  function Others(routes: seq<Route>, id: string): seq<Route> {
    if routes == [] then []
    else (if routes[0].plugin == id then [] else [routes[0]]) + Others(routes[1..], id)
  }

  lemma {:induction false} OthersAppend(a: seq<Route>, b: seq<Route>, id: string)
    ensures Others(a + b, id) == Others(a, id) + Others(b, id)
  {
    if a == [] {
      assert a + b == b;
    } else {
      OthersAppend(a[1..], b, id);
      AppendHead(a, b);
      ConcatAssoc(if a[0].plugin == id then [] else [a[0]], Others(a[1..], id), Others(b, id));
    }
  }

  lemma OthersOne(r: Route, id: string)
    ensures Others([r], id) == if r.plugin == id then [] else [r]
  {
  }

  lemma OthersSplit(routes: seq<Route>, i: nat, id: string)
    requires i < |routes| && routes[i].plugin == id
    ensures Others(routes, id) == Others(routes[..i], id) + Others(routes[i + 1..], id)
  {
    assert routes == routes[..i] + ([routes[i]] + routes[i + 1..]);
    OthersAppend(routes[..i], [routes[i]] + routes[i + 1..], id);
    OthersAppend([routes[i]], routes[i + 1..], id);
    OthersOne(routes[i], id);
  }

  lemma RegisterOthers(routes: seq<Route>, protocol: string, plugin: string, impl: nat)
    ensures Others(Register(routes, protocol, plugin, impl), plugin) == Others(routes, plugin)
  {
    var i, after := FindKey(routes, protocol, plugin), Register(routes, protocol, plugin, impl);
    if i < |routes| {
      OthersSplit(routes, i, plugin);
      OthersSplit(after, i, plugin);
      assert after[..i] == routes[..i] && after[i + 1..] == routes[i + 1..];
    } else {
      assert after == [Route(protocol, PROTOCOL_VERSION, plugin, impl)] + routes;
      OthersAppend([Route(protocol, PROTOCOL_VERSION, plugin, impl)], routes, plugin);
      OthersOne(Route(protocol, PROTOCOL_VERSION, plugin, impl), plugin);
    }
  }

  lemma UnregisterOthers(routes: seq<Route>, protocol: string, plugin: string)
    ensures Others(Unregister(routes, protocol, plugin), plugin) == Others(routes, plugin)
  {
    var i := FindKey(routes, protocol, plugin);
    if i < |routes| {
      OthersSplit(routes, i, plugin);
      OthersAppend(routes[..i], routes[i + 1..], plugin);
    }
  }

  // ---------------------------------------------------------------- registering and unregistering a provides list

  /** A route of the plugin for one of the protocols of its list, from the i-th to before the n-th. */
  ghost predicate Listed(r: Route, p: Plugin, i: nat, n: nat)
    requires n <= |p.provided|
  {
    r.plugin == p.id && exists j | i <= j < n :: p.provided[j] == r.protocol
  }

  /** One step: a route of the plugin for its i-th protocol, with what the plugin offers for that protocol. */
  lemma NextRegistered(routes: seq<Route>, p: Plugin, cb: Callbacks, i: nat) returns (next: seq<Route>)
    requires i < |p.provided| && Unique(routes)
    requires !(i == cb.failAt && FindKey(routes, p.provided[i], p.id) == |routes|)
    ensures RegisterProvides(routes, p, cb, i) == RegisterProvides(next, p, cb, i + 1) && Unique(next)
    ensures forall r :: r in next <==>
              if r.protocol == p.provided[i] && r.plugin == p.id
              then r == Route(p.provided[i], "1.0", p.id, cb.iface(p.provided[i])) else r in routes
    ensures Others(next, p.id) == Others(routes, p.id)
  {
    var proto := p.provided[i];
    next := Register(routes, proto, p.id, cb.iface(proto));
    RegisterKeys(routes, proto, p.id, cb.iface(proto));
    RegisterRoutes(routes, proto, p.id, cb.iface(proto));
    RegisterOthers(routes, proto, p.id, cb.iface(proto));
  }

  ghost predicate Added(routes: seq<Route>, after: seq<Route>, p: Plugin, cb: Callbacks, i: nat, n: nat)
    requires n <= |p.provided|
  {
    forall r :: r in after <==>
      if Listed(r, p, i, n) then r == Route(r.protocol, "1.0", p.id, cb.iface(r.protocol)) else r in routes
  }

  lemma AddedOneMore(routes: seq<Route>, next: seq<Route>, after: seq<Route>, p: Plugin, cb: Callbacks, i: nat, n: nat)
    requires i < n <= |p.provided| && Added(next, after, p, cb, i + 1, n)
    requires forall r :: r in next <==>
               if r.protocol == p.provided[i] && r.plugin == p.id
               then r == Route(p.provided[i], "1.0", p.id, cb.iface(p.provided[i])) else r in routes
    ensures Added(routes, after, p, cb, i, n)
  {
    forall r
      ensures r in after <==>
              if Listed(r, p, i, n) then r == Route(r.protocol, "1.0", p.id, cb.iface(r.protocol)) else r in routes
    {
      assert Listed(r, p, i, n) <==> Listed(r, p, i + 1, n) || (r.plugin == p.id && r.protocol == p.provided[i]);
    }
  }

  /** Memory runs out at a registration from the i-th on that is not one of a protocol already registered. */
  ghost predicate RunsOut(routes: seq<Route>, p: Plugin, cb: Callbacks, i: nat) {
    && i <= cb.failAt < |p.provided|
    && (forall r | r in routes :: !(r.protocol == p.provided[cb.failAt] && r.plugin == p.id))
    && forall j | i <= j < cb.failAt :: p.provided[j] != p.provided[cb.failAt]
  }

  lemma RunsOutHere(routes: seq<Route>, p: Plugin, cb: Callbacks, i: nat)
    requires i <= |p.provided|
    requires i == |p.provided| || (i == cb.failAt && FindKey(routes, p.provided[i], p.id) == |routes|)
    ensures RunsOut(routes, p, cb, i) <==> i < |p.provided|
  {
    if i < |p.provided| {
      assert forall k | 0 <= k < |routes| :: !HasKey(routes[k], p.provided[i], p.id);
    }
  }

  lemma RunsOutNext(routes: seq<Route>, next: seq<Route>, p: Plugin, cb: Callbacks, i: nat)
    requires i < |p.provided| && !(i == cb.failAt && FindKey(routes, p.provided[i], p.id) == |routes|)
    requires forall r :: r in next <==>
               if r.protocol == p.provided[i] && r.plugin == p.id
               then r == Route(p.provided[i], "1.0", p.id, cb.iface(p.provided[i])) else r in routes
    ensures RunsOut(routes, p, cb, i) <==> RunsOut(next, p, cb, i + 1)
  {
    var own := Route(p.provided[i], "1.0", p.id, cb.iface(p.provided[i]));
    assert own in next;
    if i == cb.failAt {
      assert HasKey(routes[FindKey(routes, p.provided[i], p.id)], p.provided[i], p.id);
    }
    if i < cb.failAt < |p.provided| && p.provided[i] != p.provided[cb.failAt] {
      assert forall r: Route :: r.protocol == p.provided[cb.failAt] && r.plugin == p.id ==> (r in next <==> r in routes);
    }
  }

  /** Where registering stops, and what it has put into the table until then. */
  lemma {:induction false} RegistersList(routes: seq<Route>, p: Plugin, cb: Callbacks, i: nat) returns (n: nat)
    requires i <= |p.provided| && Unique(routes)
    ensures i <= n <= |p.provided|
    ensures var r := RegisterProvides(routes, p, cb, i);
      && Unique(r.0) && Added(routes, r.0, p, cb, i, n) && Others(r.0, p.id) == Others(routes, p.id)
      && r.1 == if n == |p.provided| then n else -(n as int)
    ensures n == if RunsOut(routes, p, cb, i) then cb.failAt else |p.provided|
    decreases |p.provided| - i
  {
    if i == |p.provided| || (i == cb.failAt && FindKey(routes, p.provided[i], p.id) == |routes|) {
      n := i;
      RunsOutHere(routes, p, cb, i);
      AddedNone(routes, p, cb, i);
    } else {
      var next := NextRegistered(routes, p, cb, i);
      RunsOutNext(routes, next, p, cb, i);
      n := RegistersList(next, p, cb, i + 1);
      AddedOneMore(routes, next, RegisterProvides(next, p, cb, i + 1).0, p, cb, i, n);
    }
  }

  lemma AddedNone(routes: seq<Route>, p: Plugin, cb: Callbacks, i: nat)
    requires i <= |p.provided|
    requires i == |p.provided| || (i == cb.failAt && FindKey(routes, p.provided[i], p.id) == |routes|)
    ensures Added(routes, routes, p, cb, i, i)
    ensures RegisterProvides(routes, p, cb, i) == (routes, if i == |p.provided| then i else -(i as int))
  {
    assert forall r :: !Listed(r, p, i, i);
  }

  lemma {:induction false} UnregistersList(routes: seq<Route>, p: Plugin, n: nat)
    requires n <= |p.provided| && Unique(routes)
    ensures var after := UnregisterProvides(routes, p, n);
      && Unique(after) && (forall r :: r in after <==> r in routes && !Listed(r, p, 0, n))
      && Others(after, p.id) == Others(routes, p.id)
  {
    if n > 0 {
      UnregistersList(routes, p, n - 1);
      var before, proto := UnregisterProvides(routes, p, n - 1), p.provided[n - 1];
      UnregisterKeys(before, proto, p.id);
      UnregisterRoutes(before, proto, p.id);
      UnregisterOthers(before, proto, p.id);
      assert forall r :: Listed(r, p, 0, n) <==> Listed(r, p, 0, n - 1) || (r.plugin == p.id && r.protocol == proto);
    } else {
      assert forall r :: !Listed(r, p, 0, 0);
    }
  }

  // ---------------------------------------------------------------- one start

  /** What the plugin offers is served: one route for each of its protocols, and all else as it was. */
  ghost predicate Served(routes: seq<Route>, after: seq<Route>, p: Plugin, cb: Callbacks) {
    forall r :: r in after <==>
      r in routes || (r.protocol in p.provided && r == Route(r.protocol, "1.0", p.id, cb.iface(r.protocol)))
  }

  ghost predicate NoRoutes(routes: seq<Route>, id: string) {
    forall r | r in routes :: r.plugin != id
  }

  lemma AllListed(r: Route, p: Plugin)
    ensures Listed(r, p, 0, |p.provided|) <==> r.plugin == p.id && r.protocol in p.provided
  {
  }

  lemma ActivateServes(routes: seq<Route>, p: Plugin, cb: Callbacks)
    requires Unique(routes) && NoRoutes(routes, p.id)
    ensures var r := Activate(routes, p, cb); var fails := RunsOut(routes, p, cb, 0) && cb.failAt > 0;
      && Unique(r.0) && Others(r.0, p.id) == Others(routes, p.id)
      && r.1 == (if fails then ECONFLICT else cb.start)
      && (if r.1 == 0 && !LosesRoutes(p, cb) then Served(routes, r.0, p, cb) else forall x :: x in r.0 <==> x in routes)
  {
    var n := RegistersList(routes, p, cb, 0);
    var registered := RegisterProvides(routes, p, cb, 0).0;
    if 0 < n < |p.provided| {
      UnregistersList(registered, p, n);
      UndoneRoutes(routes, registered, UnregisterProvides(registered, p, n), p, cb, n, n);
    } else if cb.start != 0 {
      UnregistersList(registered, p, |p.provided|);
      UndoneRoutes(routes, registered, UnregisterProvides(registered, p, |p.provided|), p, cb, n, |p.provided|);
    } else if n < |p.provided| {
      NothingAdded(routes, registered, p, cb);
    } else {
      AllServed(routes, registered, p, cb);
    }
  }

  lemma NothingAdded(routes: seq<Route>, after: seq<Route>, p: Plugin, cb: Callbacks)
    requires Added(routes, after, p, cb, 0, 0)
    ensures forall x :: x in after <==> x in routes
  {
    assert forall x :: !Listed(x, p, 0, 0);
  }

  lemma AllServed(routes: seq<Route>, after: seq<Route>, p: Plugin, cb: Callbacks)
    requires Added(routes, after, p, cb, 0, |p.provided|) && NoRoutes(routes, p.id)
    ensures Served(routes, after, p, cb)
  {
    forall x
      ensures Listed(x, p, 0, |p.provided|) <==> x.plugin == p.id && x.protocol in p.provided
    {
      AllListed(x, p);
    }
  }

  /** Taking out what was put in, or more, leaves what there was. */
  lemma UndoneRoutes(routes: seq<Route>, registered: seq<Route>, after: seq<Route>, p: Plugin, cb: Callbacks, n: nat, m: nat)
    requires n <= m <= |p.provided| && Added(routes, registered, p, cb, 0, n) && NoRoutes(routes, p.id)
    requires forall x :: x in after <==> x in registered && !Listed(x, p, 0, m)
    ensures forall x :: x in after <==> x in routes
  {
    forall x | Listed(x, p, 0, n)
      ensures Listed(x, p, 0, m)
    {
    }
  }

  /**
    A start: the code for every way it can go, and the routes.  When it succeeds,
    each protocol the plugin provides has a route of it with the current version
    and with what the plugin offers for that protocol; the routes of all others are
    as they were, in their order, and so are all routes when it fails.
   */
  lemma StartServes(s: State, i: nat, cb: Callbacks)
    requires Unique(s.routes) && i < |s.plugins| && NoRoutes(s.routes, s.plugins[i].id)
    ensures var p, r := s.plugins[i], StartSpec(s, i, cb);
      && r.1 == (if p.requirements == [] || (exists q | q in p.requirements :: forall x | x in s.routes :: x.protocol != q) then EILSEQ
                 else if exists x | x in s.routes :: x.protocol in p.conflicts then ECONFLICT
                 else if cb.init != 0 then cb.init
                 else if RunsOut(s.routes, p, cb, 0) && cb.failAt > 0 then ECONFLICT
                 else cb.start)
      && Unique(r.0.routes) && Others(r.0.routes, p.id) == Others(s.routes, p.id)
      && (if r.1 == 0 && !LosesRoutes(p, cb) then Served(s.routes, r.0.routes, p, cb)
          else forall x :: x in r.0.routes <==> x in s.routes)
      && r.0.plugins == s.plugins[i := p.(state := if r.1 == 0 then Started else Error)]
  {
    var p := s.plugins[i];
    ActivateServes(s.routes, p, cb);
    DepsByRoutes(s.routes, p.requirements);
    ConflictsByRoutes(s.routes, p);
  }

  lemma DepsByRoutes(routes: seq<Route>, requirements: seq<string>)
    ensures DepsMet(routes, requirements) <==>
            requirements != [] && !(exists q | q in requirements :: forall x | x in routes :: x.protocol != q)
  {
    forall q | q in requirements
      ensures Registered(routes, q) <==> !(forall x | x in routes :: x.protocol != q)
    {
    }
    if requirements != [] && !(exists q | q in requirements :: forall x | x in routes :: x.protocol != q) {
      assert forall k | 0 <= k < |requirements| :: requirements[k] in requirements;
    }
  }

  lemma ConflictsByRoutes(routes: seq<Route>, p: Plugin)
    ensures Conflicting(routes, p) <==> exists x | x in routes :: x.protocol in p.conflicts
  {
    if Conflicting(routes, p) {
      var c :| 0 <= c < |p.conflicts| && Registered(routes, p.conflicts[c]);
      var k :| 0 <= k < |routes| && routes[k].protocol == p.conflicts[c];
      assert routes[k] in routes;
    }
  }

  /** A stop takes the plugin's routes for what it provides, and nothing else. */
  lemma StopServes(s: State, i: nat)
    requires Unique(s.routes) && i < |s.plugins|
    ensures var p, after := s.plugins[i], StopSpec(s, i);
      && (forall x :: x in after.routes <==> x in s.routes && !(x.plugin == p.id && x.protocol in p.provided))
      && Unique(after.routes) && Others(after.routes, p.id) == Others(s.routes, p.id)
      && after.plugins == s.plugins[i := p.(state := Stopped)]
  {
    var p := s.plugins[i];
    UnregistersList(s.routes, p, |p.provided|);
    forall x
      ensures Listed(x, p, 0, |p.provided|) <==> x.plugin == p.id && x.protocol in p.provided
    {
      AllListed(x, p);
    }
  }

  /** An unload stops a plugin that runs or is loaded, and leaves the routes alone otherwise. */
  lemma UnloadServes(s: State, i: nat)
    requires Unique(s.routes) && i < |s.plugins|
    ensures var p, after := s.plugins[i], UnloadSpec(s, i);
      && (forall x :: x in after.routes <==>
            x in s.routes && !(p.state in {Started, Loaded} && x.plugin == p.id && x.protocol in p.provided))
      && after.plugins == s.plugins[i := p.(state := Uninstalled)]
  {
    StopServes(s, i);
  }

  /** The first plugin with this id. */
  ghost predicate IsAt(plugins: seq<Plugin>, id: string, i: nat) {
    i < |plugins| && plugins[i].id == id && forall j | 0 <= j < i :: plugins[j].id != id
  }

  /** A load: an unknown id is an error, a plugin that runs is left alone, any other is started. */
  lemma LoadCode(s: State, id: string, cb: Callbacks, i: nat)
    ensures (forall p | p in s.plugins :: p.id != id) ==> LoadSpec(s, id, cb) == (s, ENOENT)
    ensures IsAt(s.plugins, id, i) ==>
      LoadSpec(s, id, cb) == if s.plugins[i].state == Started then (s, 0) else StartSpec(s, i, cb)
  {
    var k := Find(s.plugins, id);
    assert k < |s.plugins| ==> s.plugins[k] in s.plugins;
  }

  /** A scan that finds a new id puts the plugin at the head, installed; a known id changes nothing. */
  lemma DiscoverEffect(s: State, p: Plugin)
    ensures DiscoverSpec(s, p) ==
      if exists q | q in s.plugins :: q.id == p.id then s else s.(plugins := [p.(state := Installed)] + s.plugins)
  {
    var k := Find(s.plugins, p.id);
    assert k < |s.plugins| ==> s.plugins[k] in s.plugins;
  }

  // ---------------------------------------------------------------- runs

  /** What plugins offer: the interfaces each one's code had at its last start that succeeded. */
  ghost function OffersByLoad(s: State, m: map<string, string -> nat>, id: string, cb: Callbacks): map<string, string -> nat> {
    var i := Find(s.plugins, id);
    if i < |s.plugins| && s.plugins[i].state != Started && StartSpec(s, i, cb).1 == 0 then m[id := cb.iface] else m
  }

  ghost function OffersByBoot(s: State, m: map<string, string -> nat>, order: seq<string>, cbs: string -> Callbacks): map<string, string -> nat> {
    if order == [] then m
    else
      var n := |order| - 1;
      OffersByLoad(BootSpec(s, order[..n], cbs), OffersByBoot(s, m, order[..n], cbs), order[n], cbs(order[n]))
  }

  ghost function Offers(ops: seq<Op>): map<string, string -> nat> {
    if ops == [] then map[]
    else
      var before, op := ops[..|ops| - 1], ops[|ops| - 1];
      match op
      case Load(id, cb) => OffersByLoad(Execute(before), Offers(before), id, cb)
      case Boot(order, cbs) => OffersByBoot(Execute(before), Offers(before), order, cbs)
      case _ => Offers(before)
  }

  /** A route of the current version with what its plugin offers; the built-in ones have no implementation. */
  ghost predicate Offered(r: Route, m: map<string, string -> nat>) {
    r.version == "1.0" &&
    if r.plugin == BUS_ID then r.impl == 0 else r.plugin in m && r.impl == m[r.plugin](r.protocol)
  }

  ghost predicate AllOffered(routes: seq<Route>, m: map<string, string -> nat>) {
    forall r | r in routes :: Offered(r, m)
  }

  lemma {:induction false} BuiltinsOffered(n: nat)
    requires n <= |BUILTINS|
    ensures Unique(BuiltinRoutes(n)) && forall r | r in BuiltinRoutes(n) :: r.plugin == BUS_ID && r.impl == 0 && r.version == "1.0"
  {
    if n > 0 {
      BuiltinsOffered(n - 1);
      RegisterKeys(BuiltinRoutes(n - 1), BUILTINS[n - 1], BUS_ID, 0);
      RegisterRoutes(BuiltinRoutes(n - 1), BUILTINS[n - 1], BUS_ID, 0);
    }
  }

  lemma ForeignRoutes(s: State, lost: set<string>, i: nat)
    requires ExactBut(s, lost) && i < |s.plugins| && s.plugins[i].state != Started
    ensures Unique(s.routes) && NoRoutes(s.routes, s.plugins[i].id) && s.plugins[i].id != BUS_ID
  {
    NotLost(s, lost, i);
    SeenIds(s, lost, "");
    ForeignKeys(Seen(s, lost), i);
    forall r | r in s.routes
      ensures r.plugin != s.plugins[i].id
    {
      var k :| 0 <= k < |s.routes| && s.routes[k] == r;
      assert (r.protocol, r.plugin) in Keys(s.routes);
    }
  }

  lemma LoadOffered(s: State, lost: set<string>, m: map<string, string -> nat>, id: string, cb: Callbacks)
    requires ExactBut(s, lost) && AllOffered(s.routes, m)
    ensures AllOffered(LoadSpec(s, id, cb).0.routes, OffersByLoad(s, m, id, cb))
  {
    var i := Find(s.plugins, id);
    if i < |s.plugins| && s.plugins[i].state != Started {
      ForeignRoutes(s, lost, i);
      StartServes(s, i, cb);
      StartedOffered(s.routes, StartSpec(s, i, cb).0.routes, m, s.plugins[i], cb, StartSpec(s, i, cb).1 == 0);
    }
  }

  lemma StartedOffered(routes: seq<Route>, after: seq<Route>, m: map<string, string -> nat>, p: Plugin, cb: Callbacks, ok: bool)
    requires AllOffered(routes, m) && NoRoutes(routes, p.id) && p.id != BUS_ID
    requires (ok && Served(routes, after, p, cb)) || forall x :: x in after <==> x in routes
    ensures AllOffered(after, if ok then m[p.id := cb.iface] else m)
  {
    forall x | x in after
      ensures Offered(x, if ok then m[p.id := cb.iface] else m)
    {
      assert x in routes ==> Offered(x, m);
    }
  }

  lemma {:induction false} BootOffered(s: State, lost: set<string>, m: map<string, string -> nat>, order: seq<string>, cbs: string -> Callbacks)
    requires ExactBut(s, lost) && AllOffered(s.routes, m)
    ensures AllOffered(BootSpec(s, order, cbs).routes, OffersByBoot(s, m, order, cbs))
  {
    if order != [] {
      var n := |order| - 1;
      BootOffered(s, lost, m, order[..n], cbs);
      BootExactBut(s, lost, order[..n], cbs);
      LoadOffered(BootSpec(s, order[..n], cbs), LostByBoot(s, lost, order[..n], cbs),
                  OffersByBoot(s, m, order[..n], cbs), order[n], cbs(order[n]));
    }
  }

  lemma ExactButUnique(s: State, lost: set<string>)
    requires ExactBut(s, lost)
    ensures Unique(s.routes)
  {
  }

  lemma StepOffered(s: State, lost: set<string>, m: map<string, string -> nat>, op: Op)
    requires ExactBut(s, lost) && AllOffered(s.routes, m) && !op.Load? && !op.Boot?
    ensures AllOffered(Step(s, op).routes, m)
  {
    ExactButUnique(s, lost);
    match op
    case Stop(id) =>
      var i := Find(s.plugins, id);
      if i < |s.plugins| { StopServes(s, i); }
    case Unload(id) =>
      var i := Find(s.plugins, id);
      if i < |s.plugins| { UnloadServes(s, i); }
    case _ =>
  }

  lemma {:induction false} RunOffered(ops: seq<Op>)
    requires forall i | 0 <= i < |ops| && ops[i].Discover? :: ops[i].plugin.id != BUS_ID
    ensures AllOffered(Execute(ops).routes, Offers(ops))
  {
    if ops == [] {
      BuiltinsOffered(|BUILTINS|);
    } else {
      var before, op := ops[..|ops| - 1], ops[|ops| - 1];
      RunOffered(before);
      RunExactBut(before);
      match op
      case Load(id, cb) => LoadOffered(Execute(before), Lost(before), Offers(before), id, cb);
      case Boot(order, cbs) => BootOffered(Execute(before), Lost(before), Offers(before), order, cbs);
      case _ => StepOffered(Execute(before), Lost(before), Offers(before), op);
    }
  }

  /** A plugin that runs with its routes and provides the protocol. */
  ghost predicate Provides(s: State, lost: set<string>, id: string, protocol: string) {
    id !in lost && exists i | 0 <= i < |s.plugins| :: s.plugins[i].id == id && s.plugins[i].state == Started && protocol in s.plugins[i].provided
  }

  lemma ProvidesKey(s: State, lost: set<string>, id: string, protocol: string)
    requires ExactBut(s, lost)
    ensures Provides(s, lost, id, protocol) <==> (protocol, id) in StartedKeys(Seen(s, lost).plugins)
  {
    var seen := Seen(s, lost).plugins;
    if Provides(s, lost, id, protocol) {
      var i :| 0 <= i < |s.plugins| && s.plugins[i].id == id && s.plugins[i].state == Started && protocol in s.plugins[i].provided;
      var b :| 0 <= b < |s.plugins[i].provided| && s.plugins[i].provided[b] == protocol;
      assert seen[i].state == Started && (seen[i].provided[b], seen[i].id) == (protocol, id);
    }
    if (protocol, id) in StartedKeys(seen) {
      var a, b :| 0 <= a < |seen| && seen[a].state == Started && 0 <= b < |seen[a].provided|
                  && (protocol, id) == (seen[a].provided[b], seen[a].id);
      assert s.plugins[a].id == id && protocol in s.plugins[a].provided;
    }
  }

  lemma BuiltinKey(protocol: string, id: string)
    ensures (protocol, id) in BuiltinKeys() <==> id == BUS_ID && protocol in BUILTINS
  {
  }

  lemma InTable(routes: seq<Route>, r: Route)
    ensures r in routes ==> (r.protocol, r.plugin) in Keys(routes)
    ensures (r.protocol, r.plugin) in Keys(routes) ==> exists x :: x in routes && x.protocol == r.protocol && x.plugin == r.plugin
  {
    if r in routes {
      var k :| 0 <= k < |routes| && routes[k] == r;
    }
    if (r.protocol, r.plugin) in Keys(routes) {
      var k :| 0 <= k < |routes| && (routes[k].protocol, routes[k].plugin) == (r.protocol, r.plugin);
      assert routes[k] in routes;
    }
  }

  /**
    After every run, whatever the plugins return and wherever memory runs out, the
    table holds exactly these routes: the five built-in ones, and for every plugin
    that runs, but for those that lost their routes, one for each protocol it
    provides, of the current version and with what its code offered for that
    protocol when it was started last.
   */
  lemma ServesExact(ops: seq<Op>, r: Route)
    requires forall i | 0 <= i < |ops| && ops[i].Discover? :: ops[i].plugin.id != BUS_ID
    ensures r in Execute(ops).routes <==>
      r.version == "1.0" &&
      ((r.plugin == "bus" && r.protocol in BUILTINS && r.impl == 0)
       || (Provides(Execute(ops), Lost(ops), r.plugin, r.protocol)
           && r.plugin in Offers(ops) && r.impl == Offers(ops)[r.plugin](r.protocol)))
  {
    RunExactBut(ops);
    RunOffered(ops);
    KeyIff(Execute(ops), Lost(ops), r.plugin, r.protocol);
    RouteIff(Execute(ops).routes, Offers(ops), r);
  }

  lemma KeyIff(s: State, lost: set<string>, id: string, protocol: string)
    requires ExactBut(s, lost)
    ensures (protocol, id) in Keys(s.routes) <==> (id == BUS_ID && protocol in BUILTINS) || Provides(s, lost, id, protocol)
    ensures Provides(s, lost, id, protocol) ==> id != BUS_ID
  {
    ProvidesKey(s, lost, id, protocol);
    BuiltinKey(protocol, id);
    if Provides(s, lost, id, protocol) {
      NotBuiltinId(s, lost, id, protocol);
    }
  }

  lemma RouteIff(routes: seq<Route>, m: map<string, string -> nat>, r: Route)
    requires AllOffered(routes, m)
    ensures r in routes <==> (r.protocol, r.plugin) in Keys(routes) && Offered(r, m)
  {
    InTable(routes, r);
    if (r.protocol, r.plugin) in Keys(routes) && Offered(r, m) {
      var x :| x in routes && x.protocol == r.protocol && x.plugin == r.plugin;
      assert Offered(x, m);
    }
  }

  lemma NotBuiltinId(s: State, lost: set<string>, id: string, protocol: string)
    requires ExactBut(s, lost) && Provides(s, lost, id, protocol)
    ensures id != BUS_ID
  {
    SeenIds(s, lost, "");
  }

  /**
    In every reachable state: resolving a protocol that one running plugin provides
    alone gives what this plugin offers for it, whatever compatible version is
    asked for.
   */
  lemma ResolvesToOffer(ops: seq<Op>, id: string, protocol: string, version: Option<string>)
    requires forall i | 0 <= i < |ops| && ops[i].Discover? :: ops[i].plugin.id != BUS_ID
    requires Provides(Execute(ops), Lost(ops), id, protocol) && protocol !in BUILTINS
    requires forall other :: Provides(Execute(ops), Lost(ops), other, protocol) ==> other == id
    requires version.Some? && version.value != "" ==> VersionCompat("1.0", version.value)
    ensures id in Offers(ops)
    ensures var routes := Execute(ops).routes; var k := FirstServing(routes, protocol, version);
      k < |routes| && routes[k] == Route(protocol, "1.0", id, Offers(ops)[id](protocol))
  {
    var s := Execute(ops);
    RunExactBut(ops);
    RunOffered(ops);
    KeyIff(s, Lost(ops), id, protocol);
    InTable(s.routes, Route(protocol, "1.0", id, 0));
    var x :| x in s.routes && x.protocol == protocol && x.plugin == id;
    assert Offered(x, Offers(ops));
    var k := FirstServing(s.routes, protocol, version);
    if k < |s.routes| {
      ServesExact(ops, s.routes[k]);
    }
  }
}
