/**
  Plugin lifecycle on the bus: start with dependency and conflict checks,
  registration and rollback; stop; unload; boot in a fixed order
  (bus/src/loader.c, bus/src/bus.c).
 */
module PluginBus {
  import opened CText
  import opened Metaproto

  const EILSEQ: int := -84
  const ECONFLICT: int := -0x1001

  datatype PluginState = Uninstalled | Installed | Loaded | Started | Stopped | Error

  datatype Plugin = Plugin(id: string, provided: seq<string>, requirements: seq<string>,
                           conflicts: seq<string>, state: PluginState)

  /**
    What a plugin's code does when it is started: the codes init and start
    return (0 also stands for an absent callback), the interface it offers for a
    protocol, and which of its registrations runs out of memory, if any.
   */
  datatype Callbacks = Callbacks(init: int, start: int, iface: string -> nat, failAt: nat)

  /** The route table and the plugin list. */
  datatype State = State(routes: seq<Route>, plugins: seq<Plugin>)

  const BUS_ID: string := "bus"
  const BUILTINS: seq<string> := ["METAPROTO", "BUS", "PARAM", "LOG", "GIT"]

  const BOOT_ORDER: seq<string> := [
    "metaproto", "bus", "param", "log", "git",
    "hap", "pmp", "fsp", "np", "sp",
    "crypto", "loader", "compress", "cluster", "instance",
    "sandbox", "input", "display", "audio", "power",
    "storage", "permission", "consensus", "fs_transfer", "node_discovery",
    "driver", "hotplug", "terminal", "audit", "packages",
    "monitor", "ui", "console", "desktop", "shell"
  ]

  // ---------------------------------------------------------------- specification

  /** The provides list registered from its i-th entry on; a negative count means "roll back that many". */
  function RegisterProvides(routes: seq<Route>, p: Plugin, cb: Callbacks, i: nat): (r: (seq<Route>, int))
    requires i <= |p.provided|
    decreases |p.provided| - i
  {
    if i == |p.provided| then (routes, i)
    else if i == cb.failAt && FindKey(routes, p.provided[i], p.id) == |routes| then (routes, -(i as int))
    else RegisterProvides(Register(routes, p.provided[i], p.id, cb.iface(p.provided[i])), p, cb, i + 1)
  }

  /** The routes without the first n entries of the provides list. */
  function UnregisterProvides(routes: seq<Route>, p: Plugin, n: nat): seq<Route>
    requires n <= |p.provided|
  {
    if n == 0 then routes else Unregister(UnregisterProvides(routes, p, n - 1), p.provided[n - 1], p.id)
  }

  lemma UnregisterOne(routes: seq<Route>, p: Plugin, i: nat)
    requires i < |p.provided|
    ensures var before := UnregisterProvides(routes, p, i);
      UnregisterProvides(routes, p, i + 1) == Without(before, FindRoute(before, p.provided[i], Some(p.id)))
  {
  }

  predicate Conflicting(routes: seq<Route>, p: Plugin) {
    exists i | 0 <= i < |p.conflicts| :: Registered(routes, p.conflicts[i])
  }

  function WithState(s: State, i: nat, st: PluginState): State
    requires i < |s.plugins|
  {
    s.(plugins := s.plugins[i := s.plugins[i].(state := st)])
  }

  /** From registration on: the routes and the code the start ends with. */
  function Activate(routes: seq<Route>, p: Plugin, cb: Callbacks): (seq<Route>, int) {
    var (registered, n) := RegisterProvides(routes, p, cb, 0);
    RegisterProvidesCount(routes, p, cb, 0);
    if n < 0 then (UnregisterProvides(registered, p, -n), ECONFLICT)
    else if cb.start != 0 then (UnregisterProvides(registered, p, |p.provided|), cb.start)
    else (registered, 0)
  }

  /** hw_plugin_start on the i-th plugin. */
  function StartSpec(s: State, i: nat, cb: Callbacks): (r: (State, int))
    requires i < |s.plugins|
  {
    var p := s.plugins[i];
    if !DepsMet(s.routes, p.requirements) then (WithState(s, i, Error), EILSEQ)
    else if Conflicting(s.routes, p) then (WithState(s, i, Error), ECONFLICT)
    else if cb.init != 0 then (WithState(s, i, Error), cb.init)
    else
      var (routes, rc) := Activate(s.routes, p, cb);
      (WithState(s.(routes := routes), i, if rc == 0 then Started else Error), rc)
  }

  lemma {:induction false} RegisterProvidesCount(routes: seq<Route>, p: Plugin, cb: Callbacks, i: nat)
    requires i <= |p.provided|
    ensures -(|p.provided| as int) <= RegisterProvides(routes, p, cb, i).1 <= |p.provided|
    decreases |p.provided| - i
  {
    if i < |p.provided| && !(i == cb.failAt && FindKey(routes, p.provided[i], p.id) == |routes|) {
      RegisterProvidesCount(Register(routes, p.provided[i], p.id, cb.iface(p.provided[i])), p, cb, i + 1);
    }
  }

  function StopSpec(s: State, i: nat): State
    requires i < |s.plugins|
  {
    var p := s.plugins[i];
    WithState(s.(routes := UnregisterProvides(s.routes, p, |p.provided|)), i, Stopped)
  }

  function UnloadSpec(s: State, i: nat): State
    requires i < |s.plugins|
  {
    var st := s.plugins[i].state;
    WithState(if st == Started || st == Loaded then StopSpec(s, i) else s, i, Uninstalled)
  }

  /** hw_bus_find: the first plugin with that id, or the length of the list. */
  function Find(plugins: seq<Plugin>, id: string): (i: nat)
    ensures i <= |plugins|
    ensures i < |plugins| ==> plugins[i].id == id
    ensures forall j | 0 <= j < i :: plugins[j].id != id
  {
    if plugins == [] || plugins[0].id == id then 0 else 1 + Find(plugins[1..], id)
  }

  function LoadSpec(s: State, id: string, cb: Callbacks): (State, int) {
    var i := Find(s.plugins, id);
    if i == |s.plugins| then (s, ENOENT)
    else if s.plugins[i].state == Started then (s, 0)
    else StartSpec(s, i, cb)
  }

  /** The boot loop over a start order; each plugin's callbacks are looked up by id. */
  function BootSpec(s: State, order: seq<string>, cbs: string -> Callbacks): State {
    if order == [] then s
    else
      var n := |order| - 1;
      LoadSpec(BootSpec(s, order[..n], cbs), order[n], cbs(order[n])).0
  }

  // ---------------------------------------------------------------- implementation

  class Bus {
    const meta: Registry
    var plugins: seq<Plugin>

    ghost function View(): State
      reads this, meta
    {
      State(meta.routes, plugins)
    }

    /** hw_bus_init: the built-in subsystems are registered under the id "bus". */
    constructor (discovered: seq<Plugin>)
      ensures fresh(meta)
      ensures View() == State(BuiltinRoutes(|BUILTINS|), discovered)
    {
      meta := new Registry();
      plugins := discovered;
      new;
      var i := 0;
      while i < |BUILTINS|
        invariant 0 <= i <= |BUILTINS| && plugins == discovered && fresh(meta)
        invariant meta.routes == BuiltinRoutes(i)
      {
        var rc := meta.RegisterRoute(BUILTINS[i], Some(PROTOCOL_VERSION), BUS_ID, 0, true);
        i := i + 1;
      }
    }

    method SetState(i: nat, st: PluginState)
      requires i < |plugins|
      modifies this`plugins
      ensures View() == WithState(old(View()), i, st)
    {
      plugins := plugins[i := plugins[i].(state := st)];
    }

    method RegisterAll(p: Plugin, cb: Callbacks) returns (n: int)
      modifies meta
      ensures (meta.routes, n) == RegisterProvides(old(meta.routes), p, cb, 0)
    {
      var done := 0;
      while done < |p.provided|
        invariant 0 <= done <= |p.provided|
        invariant RegisterProvides(meta.routes, p, cb, done) == RegisterProvides(old(meta.routes), p, cb, 0)
      {
        var proto := p.provided[done];
        var rc := meta.RegisterRoute(proto, Some(PROTOCOL_VERSION), p.id, cb.iface(proto), done != cb.failAt);
        if rc != 0 { return -(done as int); }
        done := done + 1;
      }
      n := done;
    }

    method UnregisterFirst(p: Plugin, n: nat)
      requires n <= |p.provided|
      modifies meta
      ensures meta.routes == UnregisterProvides(old(meta.routes), p, n)
    {
      var i := 0;
      while i < n && i < |p.provided|
        invariant 0 <= i <= n
        invariant meta.routes == UnregisterProvides(old(meta.routes), p, i)
      {
        UnregisterOne(old(meta.routes), p, i);
        var rc := meta.UnregisterRoute(p.provided[i], Some(p.id));
        i := i + 1;
      }
    }

    method FindConflict(p: Plugin) returns (found: bool)
      ensures found == Conflicting(meta.routes, p)
    {
      var i := 0;
      while i < |p.conflicts|
        invariant 0 <= i <= |p.conflicts|
        invariant forall j | 0 <= j < i :: !Registered(meta.routes, p.conflicts[j])
      {
        var rc, r := meta.Resolve(p.conflicts[i], None);
        if rc == 0 {
          return true;
        }
        assert forall j | 0 <= j < |meta.routes| :: !Serves(meta.routes[j], p.conflicts[i], None);
        i := i + 1;
      }
      found := false;
    }

    /** The part of hw_plugin_start that touches the routes: register, start, roll back. */
    method ActivatePlugin(p: Plugin, cb: Callbacks) returns (rc: int)
      modifies meta
      ensures (meta.routes, rc) == Activate(old(meta.routes), p, cb)
    {
      RegisterProvidesCount(meta.routes, p, cb, 0);
      var n := RegisterAll(p, cb);
      if n < 0 {
        UnregisterFirst(p, -n);
        return ECONFLICT;
      }
      if cb.start != 0 {
        UnregisterFirst(p, |p.provided|);
        return cb.start;
      }
      rc := 0;
    }

    /** hw_plugin_start */
    method Start(i: nat, cb: Callbacks) returns (rc: int)
      requires i < |plugins|
      modifies this`plugins, meta
      ensures (View(), rc) == StartSpec(old(View()), i, cb)
    {
      var p := plugins[i];
      var missing;
      rc, missing := meta.CheckDeps(p.requirements);
      if rc != 0 {
        SetState(i, Error);
        return EILSEQ;
      }
      var conflict := FindConflict(p);
      if conflict {
        SetState(i, Error);
        return ECONFLICT;
      }
      if cb.init != 0 {
        SetState(i, Error);
        return cb.init;
      }
      StateTwice(View(), i, Loaded, Error);
      StateTwice(View(), i, Loaded, Started);
      SetState(i, Loaded);
      rc := ActivatePlugin(p, cb);
      SetState(i, if rc == 0 then Started else Error);
    }

    /** hw_plugin_stop */
    method Stop(i: nat)
      requires i < |plugins|
      modifies this`plugins, meta
      ensures View() == StopSpec(old(View()), i)
    {
      UnregisterFirst(plugins[i], |plugins[i].provided|);
      SetState(i, Stopped);
    }

    /** hw_plugin_unload */
    method Unload(i: nat)
      requires i < |plugins|
      modifies this`plugins, meta
      ensures View() == UnloadSpec(old(View()), i)
    {
      if plugins[i].state == Started || plugins[i].state == Loaded {
        Stop(i);
      }
      SetState(i, Uninstalled);
    }

    method FindPlugin(id: string) returns (i: nat)
      ensures i == Find(plugins, id)
    {
      i := 0;
      while i < |plugins| && plugins[i].id != id
        invariant 0 <= i <= |plugins|
        invariant forall j | 0 <= j < i :: plugins[j].id != id
      {
        i := i + 1;
      }
    }

    /** hw_bus_load */
    method Load(id: string, cb: Callbacks) returns (rc: int)
      modifies this`plugins, meta
      ensures (View(), rc) == LoadSpec(old(View()), id, cb)
    {
      var i := FindPlugin(id);
      if i == |plugins| { return ENOENT; }
      if plugins[i].state == Started { return 0; }
      rc := Start(i, cb);
    }

    /** The boot loop: one pass over a start order, failures skipped. */
    method StartInOrder(order: seq<string>, cbs: string -> Callbacks)
      modifies this`plugins, meta
      ensures View() == BootSpec(old(View()), order, cbs)
    {
      var i := 0;
      while i < |order|
        invariant 0 <= i <= |order|
        invariant View() == BootSpec(old(View()), order[..i], cbs)
      {
        BootNext(old(View()), order, i, cbs);
        var at := FindPlugin(order[i]);
        if at < |plugins| && plugins[at].state != Started {
          var rc := Start(at, cbs(order[i]));
        }
        i := i + 1;
      }
      assert order[..|order|] == order;
    }

    /** hw_bus_boot_chain after the scan. */
    method BootChain(cbs: string -> Callbacks)
      modifies this`plugins, meta
      ensures View() == BootSpec(old(View()), BOOT_ORDER, cbs)
    {
      StartInOrder(BOOT_ORDER, cbs);
    }
  }

  lemma BootNext(s: State, order: seq<string>, i: nat, cbs: string -> Callbacks)
    requires i < |order|
    ensures BootSpec(s, order[..i + 1], cbs) == LoadSpec(BootSpec(s, order[..i], cbs), order[i], cbs(order[i])).0
  {
    assert order[..i + 1][..i] == order[..i];
  }

  lemma StateTwice(s: State, i: nat, first: PluginState, second: PluginState)
    requires i < |s.plugins|
    ensures WithState(WithState(s, i, first), i, second) == WithState(s, i, second)
  {
    var p := s.plugins[i];
    assert s.plugins[i := p.(state := first)][i := p.(state := second)] == s.plugins[i := p.(state := second)];
  }

  /** The routes hw_bus_init has registered after the first n built-in protocols. */
  function BuiltinRoutes(n: nat): seq<Route>
    requires n <= |BUILTINS|
  {
    if n == 0 then [] else Register(BuiltinRoutes(n - 1), BUILTINS[n - 1], BUS_ID, 0)
  }

  // ---------------------------------------------------------------- the route table

  /** Plugin ids are distinct, and none is the one the built-in routes use. */
  ghost predicate DistinctIds(plugins: seq<Plugin>) {
    && (forall i | 0 <= i < |plugins| :: plugins[i].id != BUS_ID)
    && (forall i, j | 0 <= i < j < |plugins| :: plugins[i].id != plugins[j].id)
  }

  ghost function BuiltinKeys(): set<(string, string)> {
    set i | 0 <= i < |BUILTINS| :: (BUILTINS[i], BUS_ID)
  }

  /** The first n protocols a plugin provides, as keys of its routes. */
  ghost function OwnKeys(p: Plugin, n: nat): set<(string, string)>
    requires n <= |p.provided|
  {
    set j | 0 <= j < n :: (p.provided[j], p.id)
  }

  ghost function StartedKeys(plugins: seq<Plugin>): set<(string, string)> {
    set i, j | 0 <= i < |plugins| && plugins[i].state == Started && 0 <= j < |plugins[i].provided| ::
      (plugins[i].provided[j], plugins[i].id)
  }

  /** The table holds one route per key, for exactly the built-in protocols and what started plugins provide. */
  ghost predicate Exact(s: State) {
    DistinctIds(s.plugins) && Unique(s.routes) && Keys(s.routes) == BuiltinKeys() + StartedKeys(s.plugins)
  }

  /** Running out of memory at the very first registration of a plugin goes unnoticed: -0 is not negative. */
  predicate LosesRoutes(p: Plugin, cb: Callbacks) {
    cb.failAt == 0 && p.provided != []
  }

  lemma OwnKeysNext(p: Plugin, n: nat)
    requires n < |p.provided|
    ensures OwnKeys(p, n + 1) == OwnKeys(p, n) + {(p.provided[n], p.id)}
  {
  }

  /** Registering keeps keys unique and adds exactly the plugin's own keys, up to where it stops. */
  lemma {:induction false} RegisterProvidesKeys(routes: seq<Route>, p: Plugin, cb: Callbacks, i: nat)
      returns (done: nat)
    requires i <= |p.provided| && Unique(routes)
    requires OwnKeys(p, i) <= Keys(routes)
    ensures i <= done <= |p.provided|
    ensures var r := RegisterProvides(routes, p, cb, i);
      Unique(r.0) && Keys(r.0) == Keys(routes) + OwnKeys(p, done)
      && (if done == |p.provided| then r.1 == done else r.1 == -(done as int) && done == cb.failAt)
    decreases |p.provided| - i
  {
    if i == |p.provided| || (i == cb.failAt && FindKey(routes, p.provided[i], p.id) == |routes|) {
      done := i;
    } else {
      var next := RegisterNext(routes, p, cb, i);
      OwnKeysNext(p, i);
      done := RegisterProvidesKeys(next, p, cb, i + 1);
      OneMoreKey(Keys(routes), (p.provided[i], p.id), OwnKeys(p, done));
    }
  }

  lemma RegisterNext(routes: seq<Route>, p: Plugin, cb: Callbacks, i: nat) returns (next: seq<Route>)
    requires i < |p.provided| && Unique(routes)
    requires !(i == cb.failAt && FindKey(routes, p.provided[i], p.id) == |routes|)
    ensures RegisterProvides(routes, p, cb, i) == RegisterProvides(next, p, cb, i + 1)
    ensures Unique(next) && Keys(next) == Keys(routes) + {(p.provided[i], p.id)}
  {
    next := Register(routes, p.provided[i], p.id, cb.iface(p.provided[i]));
    RegisterKeys(routes, p.provided[i], p.id, cb.iface(p.provided[i]));
  }

  lemma OneMoreKey<T>(keys: set<T>, k: T, own: set<T>)
    requires k in own
    ensures keys + {k} + own == keys + own
  {
  }

  lemma FailFirst(routes: seq<Route>, p: Plugin, cb: Callbacks)
    requires LosesRoutes(p, cb)
    requires forall k | k in Keys(routes) :: k.1 != p.id
    ensures RegisterProvides(routes, p, cb, 0) == (routes, 0)
  {
    forall j | 0 <= j < |routes|
      ensures !HasKey(routes[j], p.provided[0], p.id)
    {
      assert (routes[j].protocol, routes[j].plugin) in Keys(routes);
    }
  }

  lemma {:induction false} UnregisterProvidesKeys(routes: seq<Route>, p: Plugin, n: nat)
    requires n <= |p.provided| && Unique(routes)
    ensures Unique(UnregisterProvides(routes, p, n))
    ensures Keys(UnregisterProvides(routes, p, n)) == Keys(routes) - OwnKeys(p, n)
  {
    if n == 0 {
      UnregisterNone(routes, p);
    } else {
      UnregisterProvidesKeys(routes, p, n - 1);
      UnregisterNext(routes, p, n);
    }
  }

  lemma UnregisterNone(routes: seq<Route>, p: Plugin)
    ensures UnregisterProvides(routes, p, 0) == routes
    ensures Keys(routes) == Keys(routes) - OwnKeys(p, 0)
  {
  }

  lemma UnregisterNext(routes: seq<Route>, p: Plugin, n: nat)
    requires 0 < n <= |p.provided| && Unique(UnregisterProvides(routes, p, n - 1))
    requires Keys(UnregisterProvides(routes, p, n - 1)) == Keys(routes) - OwnKeys(p, n - 1)
    ensures Unique(UnregisterProvides(routes, p, n))
    ensures Keys(UnregisterProvides(routes, p, n)) == Keys(routes) - OwnKeys(p, n)
  {
    var before := UnregisterProvides(routes, p, n - 1);
    UnregisterKeys(before, p.provided[n - 1], p.id);
    OwnKeysNext(p, n - 1);
    MinusBoth(Keys(routes), OwnKeys(p, n - 1), {(p.provided[n - 1], p.id)});
  }

  lemma MinusBoth<T>(a: set<T>, b: set<T>, c: set<T>)
    ensures a - b - c == a - (b + c)
  {
  }

  /** The keys of one plugin are apart from every other's and from the built-in ones. */
  lemma ForeignKeys(s: State, i: nat)
    requires Exact(s) && i < |s.plugins| && s.plugins[i].state != Started
    ensures forall k | k in Keys(s.routes) :: k.1 != s.plugins[i].id
  {
  }

  lemma StartedKeysUpdate(s: State, i: nat, st: PluginState)
    requires DistinctIds(s.plugins) && i < |s.plugins|
    ensures var p := s.plugins[i]; var own := OwnKeys(p, |p.provided|);
      StartedKeys(WithState(s, i, st).plugins) ==
        if st == Started then StartedKeys(s.plugins) + own else StartedKeys(s.plugins) - own
    ensures DistinctIds(WithState(s, i, st).plugins)
  {
    var before, after := s.plugins, WithState(s, i, st).plugins;
    var p := s.plugins[i];
    var own := OwnKeys(p, |p.provided|);
    forall k
      ensures k in StartedKeys(after) <==> if st == Started then k in StartedKeys(before) || k in own else k in StartedKeys(before) && k !in own
    {
      if k in StartedKeys(before) && k !in own {
        var a, b :| 0 <= a < |before| && before[a].state == Started && 0 <= b < |before[a].provided|
                    && k == (before[a].provided[b], before[a].id);
        assert a != i;
        assert after[a] == before[a];
        assert k in StartedKeys(after);
      }
      if k in own && st == Started {
        var b :| 0 <= b < |p.provided| && k == (p.provided[b], p.id);
        assert after[i].state == Started && k == (after[i].provided[b], after[i].id);
      }
      if k in StartedKeys(after) {
        var a, b :| 0 <= a < |after| && after[a].state == Started && 0 <= b < |after[a].provided|
                    && k == (after[a].provided[b], after[a].id);
        if a == i {
          assert k in own;
        } else {
          assert before[a] == after[a] && k in StartedKeys(before);
          assert before[a].id != before[i].id;
        }
      }
    }
  }

  /** Unregistering what was registered, or more, restores the keys. */
  lemma RolledBack(before: seq<Route>, routes: seq<Route>, p: Plugin, done: nat, n: nat)
    requires done <= n <= |p.provided| && Unique(routes)
    requires Keys(routes) == Keys(before) + OwnKeys(p, done)
    requires forall k | k in Keys(before) :: k.1 != p.id
    ensures Unique(UnregisterProvides(routes, p, n)) && Keys(UnregisterProvides(routes, p, n)) == Keys(before)
  {
    UnregisterProvidesKeys(routes, p, n);
    assert OwnKeys(p, done) <= OwnKeys(p, n);
  }

  lemma ActivateKeys(routes: seq<Route>, p: Plugin, cb: Callbacks)
    requires Unique(routes) && forall k | k in Keys(routes) :: k.1 != p.id
    ensures var r := Activate(routes, p, cb);
      && Unique(r.0)
      && Keys(r.0) == Keys(routes) + (if r.1 == 0 && !LosesRoutes(p, cb) then OwnKeys(p, |p.provided|) else {})
  {
    var done := RegisterProvidesKeys(routes, p, cb, 0);
    if 0 < done < |p.provided| || cb.start != 0 {
      ActivateUndone(routes, p, cb, done);
    } else if LosesRoutes(p, cb) {
      FailFirst(routes, p, cb);
    }
  }

  lemma ActivateUndone(routes: seq<Route>, p: Plugin, cb: Callbacks, done: nat)
    requires done <= |p.provided| && forall k | k in Keys(routes) :: k.1 != p.id
    requires var r := RegisterProvides(routes, p, cb, 0);
      && Unique(r.0) && Keys(r.0) == Keys(routes) + OwnKeys(p, done)
      && r.1 == if done == |p.provided| then done else -(done as int)
    requires 0 < done < |p.provided| || cb.start != 0
    ensures var r := Activate(routes, p, cb); r.1 != 0 && Unique(r.0) && Keys(r.0) == Keys(routes)
  {
    RolledBack(routes, RegisterProvides(routes, p, cb, 0).0, p, done, if 0 < done < |p.provided| then done else |p.provided|);
  }

  /** What a start does to the routes: nothing when it fails, the plugin's own keys when it succeeds. */
  lemma StartRoutes(s: State, i: nat, cb: Callbacks)
    requires Unique(s.routes) && i < |s.plugins|
    requires forall k | k in Keys(s.routes) :: k.1 != s.plugins[i].id
    ensures var r := StartSpec(s, i, cb); var p := s.plugins[i];
      && Unique(r.0.routes)
      && Keys(r.0.routes) ==
           Keys(s.routes) + (if r.1 == 0 && !LosesRoutes(p, cb) then OwnKeys(p, |p.provided|) else {})
      && r.0.plugins == WithState(s, i, if r.1 == 0 then Started else Error).plugins
  {
    ActivateKeys(s.routes, s.plugins[i], cb);
  }

  /**
    Whatever init and start return and whichever registration runs out of
    memory, the table stays exact: a failing start leaves every key as it was, a
    succeeding one adds exactly the plugin's own.  The one exception is memory
    running out at the very first registration of a start that nothing else
    stops.
   */
  lemma StartExact(s: State, i: nat, cb: Callbacks)
    requires Exact(s) && i < |s.plugins| && s.plugins[i].state != Started
    ensures var r := StartSpec(s, i, cb);
      && (Exact(r.0) <==> !(LosesRoutes(s.plugins[i], cb) && NothingStops(s, i, cb)))
      && r.0.plugins[i].state == (if r.1 == 0 then Started else Error)
      && (r.1 != 0 ==> Keys(r.0.routes) == Keys(s.routes))
  {
    var p := s.plugins[i];
    ForeignKeys(s, i);
    StartRoutes(s, i, cb);
    StartedKeysUpdate(s, i, Error);
    StartedKeysUpdate(s, i, Started);
    NotStarted(s, i);
    if LosesRoutes(p, cb) {
      LosingStart(s, i, cb);
      assert (p.provided[0], p.id) in OwnKeys(p, |p.provided|);
    }
  }

  /** Nothing that can be looked at beforehand refuses the start, and the plugin's code returns no error. */
  predicate NothingStops(s: State, i: nat, cb: Callbacks)
    requires i < |s.plugins|
  {
    var p := s.plugins[i];
    DepsMet(s.routes, p.requirements) && !Conflicting(s.routes, p) && cb.init == 0 && cb.start == 0
  }

  /** A start whose first registration runs out of memory leaves the routes alone, and succeeds if nothing else stops it. */
  lemma LosingStart(s: State, i: nat, cb: Callbacks)
    requires i < |s.plugins| && LosesRoutes(s.plugins[i], cb)
    requires forall k | k in Keys(s.routes) :: k.1 != s.plugins[i].id
    ensures StartSpec(s, i, cb).1 == 0 <==> NothingStops(s, i, cb)
    ensures NothingStops(s, i, cb) ==> StartSpec(s, i, cb).0 == WithState(s, i, Started)
  {
    FailFirst(s.routes, s.plugins[i], cb);
  }

  lemma NotStarted(s: State, i: nat)
    requires DistinctIds(s.plugins) && i < |s.plugins| && s.plugins[i].state != Started
    ensures var p := s.plugins[i]; OwnKeys(p, |p.provided|) !! StartedKeys(s.plugins)
    ensures var p := s.plugins[i]; OwnKeys(p, |p.provided|) !! BuiltinKeys()
  {
  }
}
