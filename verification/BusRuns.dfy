/** Runs of the bus: discovery, load, stop, unload and boot in any order, with arbitrary plugin code. */
module BusRuns {
  import opened Metaproto
  import opened PluginBus

  datatype Op =
    | Discover(plugin: Plugin)
    | Load(id: string, cb: Callbacks)
    | Stop(id: string)
    | Unload(id: string)
    | Boot(order: seq<string>, cbs: string -> Callbacks)

  /** A scan puts a plugin it does not know yet at the head of the list. */
  function DiscoverSpec(s: State, p: Plugin): State {
    if Find(s.plugins, p.id) < |s.plugins| then s
    else s.(plugins := [p.(state := Installed)] + s.plugins)
  }

  function Step(s: State, op: Op): State {
    match op
    case Discover(p) => DiscoverSpec(s, p)
    case Load(id, cb) => LoadSpec(s, id, cb).0
    case Stop(id) => var i := Find(s.plugins, id); if i == |s.plugins| then s else StopSpec(s, i)
    case Unload(id) => var i := Find(s.plugins, id); if i == |s.plugins| then s else UnloadSpec(s, i)
    case Boot(order, cbs) => BootSpec(s, order, cbs)
  }

  function Execute(ops: seq<Op>): State {
    if ops == [] then State(BuiltinRoutes(|BUILTINS|), [])
    else Step(Execute(ops[..|ops| - 1]), ops[|ops| - 1])
  }

  /** No plugin is called "bus", and memory does not run out at a plugin's first registration. */
  ghost predicate Allowed(op: Op) {
    match op
    case Discover(p) => p.id != BUS_ID
    case Load(_, cb) => cb.failAt != 0
    case Boot(_, cbs) => forall id :: cbs(id).failAt != 0
    case _ => true
  }

  lemma {:induction false} BuiltinExact(n: nat)
    requires n <= |BUILTINS|
    ensures Unique(BuiltinRoutes(n))
    ensures Keys(BuiltinRoutes(n)) == set i | 0 <= i < n :: (BUILTINS[i], BUS_ID)
  {
    if n > 0 {
      BuiltinExact(n - 1);
      RegisterKeys(BuiltinRoutes(n - 1), BUILTINS[n - 1], BUS_ID, 0);
    }
  }

  lemma InitExact()
    ensures Exact(State(BuiltinRoutes(|BUILTINS|), []))
  {
    BuiltinExact(|BUILTINS|);
  }

  lemma DiscoverExact(s: State, p: Plugin)
    requires Exact(s) && p.id != BUS_ID
    ensures Exact(DiscoverSpec(s, p))
  {
    var before, after := s.plugins, DiscoverSpec(s, p).plugins;
    if after != before {
      forall k
        ensures k in StartedKeys(after) <==> k in StartedKeys(before)
      {
        if k in StartedKeys(before) {
          var a, b :| 0 <= a < |before| && before[a].state == Started && 0 <= b < |before[a].provided|
                      && k == (before[a].provided[b], before[a].id);
          assert after[a + 1] == before[a];
        }
      }
    }
  }

  lemma LoadExact(s: State, id: string, cb: Callbacks)
    requires Exact(s) && cb.failAt != 0
    ensures Exact(LoadSpec(s, id, cb).0)
  {
    var i := Find(s.plugins, id);
    if i < |s.plugins| && s.plugins[i].state != Started {
      StartExact(s, i, cb);
    }
  }

  lemma ShedRoutes(s: State, i: nat, st: PluginState)
    requires Exact(s) && i < |s.plugins| && st != Started
    ensures Exact(WithState(s.(routes := UnregisterProvides(s.routes, s.plugins[i], |s.plugins[i].provided|)), i, st))
  {
    var p := s.plugins[i];
    UnregisterProvidesKeys(s.routes, p, |p.provided|);
    StartedKeysUpdate(s, i, st);
    assert OwnKeys(p, |p.provided|) !! BuiltinKeys();
  }

  lemma UnloadExact(s: State, i: nat)
    requires Exact(s) && i < |s.plugins|
    ensures Exact(UnloadSpec(s, i))
  {
    var st := s.plugins[i].state;
    if st == Started || st == Loaded {
      ShedRoutes(s, i, Stopped);
      var stopped := StopSpec(s, i);
      NotStarted(stopped, i);
      StartedKeysUpdate(stopped, i, Uninstalled);
    } else {
      NotStarted(s, i);
      StartedKeysUpdate(s, i, Uninstalled);
    }
  }

  lemma {:induction false} BootExact(s: State, order: seq<string>, cbs: string -> Callbacks)
    requires Exact(s) && forall id :: cbs(id).failAt != 0
    ensures Exact(BootSpec(s, order, cbs))
  {
    if order != [] {
      var n := |order| - 1;
      BootExact(s, order[..n], cbs);
      LoadExact(BootSpec(s, order[..n], cbs), order[n], cbs(order[n]));
    }
  }

  lemma StepExact(s: State, op: Op)
    requires Exact(s) && Allowed(op)
    ensures Exact(Step(s, op))
  {
    match op
    case Discover(p) => DiscoverExact(s, p);
    case Load(id, cb) => LoadExact(s, id, cb);
    case Stop(id) =>
      var i := Find(s.plugins, id);
      if i < |s.plugins| { ShedRoutes(s, i, Stopped); }
    case Unload(id) =>
      var i := Find(s.plugins, id);
      if i < |s.plugins| { UnloadExact(s, i); }
    case Boot(order, cbs) => BootExact(s, order, cbs);
  }

  lemma {:induction false} AllowedExact(ops: seq<Op>)
    requires forall i | 0 <= i < |ops| :: Allowed(ops[i])
    ensures Exact(Execute(ops))
  {
    if ops == [] {
      InitExact();
    } else {
      AllowedExact(ops[..|ops| - 1]);
      StepExact(Execute(ops[..|ops| - 1]), ops[|ops| - 1]);
    }
  }

  // ---------------------------------------------------------------- memory running out at a first registration

  /** Plugins that run without their routes are taken for not started. */
  function Shown(p: Plugin, lost: set<string>): Plugin {
    if p.id in lost then p.(state := Error) else p
  }

  ghost function Seen(s: State, lost: set<string>): (r: State)
    ensures r.routes == s.routes && |r.plugins| == |s.plugins|
    ensures forall i | 0 <= i < |s.plugins| :: r.plugins[i] == Shown(s.plugins[i], lost)
  {
    s.(plugins := seq(|s.plugins|, i requires 0 <= i < |s.plugins| => Shown(s.plugins[i], lost)))
  }

  /** Which plugins run without their routes after a load, a boot, any operation, a run. */
  ghost function LostByLoad(s: State, lost: set<string>, id: string, cb: Callbacks): set<string> {
    var i := Find(s.plugins, id);
    if i < |s.plugins| && s.plugins[i].state != Started && LosesRoutes(s.plugins[i], cb) && NothingStops(s, i, cb)
    then lost + {id}
    else lost
  }

  ghost function LostByBoot(s: State, lost: set<string>, order: seq<string>, cbs: string -> Callbacks): set<string> {
    if order == [] then lost
    else
      var n := |order| - 1;
      LostByLoad(BootSpec(s, order[..n], cbs), LostByBoot(s, lost, order[..n], cbs), order[n], cbs(order[n]))
  }

  ghost function LostBy(s: State, lost: set<string>, op: Op): set<string> {
    match op
    case Discover(_) => lost
    case Load(id, cb) => LostByLoad(s, lost, id, cb)
    case Stop(id) => lost - {id}
    case Unload(id) => lost - {id}
    case Boot(order, cbs) => LostByBoot(s, lost, order, cbs)
  }

  ghost function Lost(ops: seq<Op>): set<string> {
    if ops == [] then {}
    else LostBy(Execute(ops[..|ops| - 1]), Lost(ops[..|ops| - 1]), ops[|ops| - 1])
  }

  /** The routes are exact but for the lost plugins, which all run and provide something. */
  ghost predicate ExactBut(s: State, lost: set<string>) {
    && Exact(Seen(s, lost))
    && AllLostRun(s, lost)
  }

  ghost predicate LostRuns(s: State, i: int, id: string) {
    0 <= i < |s.plugins| && s.plugins[i].id == id && s.plugins[i].state == Started && s.plugins[i].provided != []
  }

  ghost predicate AllLostRun(s: State, lost: set<string>) {
    forall id | id in lost :: exists i :: LostRuns(s, i, id)
  }

  /** Changing a plugin that is not lost leaves the lost ones running. */
  lemma StillRun(s: State, after: State, lost: set<string>, i: nat)
    requires AllLostRun(s, lost) && i < |s.plugins| && s.plugins[i].id !in lost && |after.plugins| == |s.plugins|
    requires forall k | 0 <= k < |s.plugins| && k != i :: after.plugins[k] == s.plugins[k]
    ensures AllLostRun(after, lost)
  {
    forall o | o in lost
      ensures exists k :: LostRuns(after, k, o)
    {
      var k :| LostRuns(s, k, o);
      assert LostRuns(after, k, o);
    }
  }

  lemma SeenIds(s: State, lost: set<string>, id: string)
    ensures Find(Seen(s, lost).plugins, id) == Find(s.plugins, id)
    ensures DistinctIds(Seen(s, lost).plugins) <==> DistinctIds(s.plugins)
  {
    var a, b := s.plugins, Seen(s, lost).plugins;
    assert forall i | 0 <= i < |a| :: a[i].id == b[i].id;
    var i, j := Find(a, id), Find(b, id);
    assert i < |a| ==> b[i].id == id;
    assert j < |b| ==> a[j].id == id;
  }

  /** Unregistering does not look at the state of the plugin. */
  lemma {:induction false} UnregisterAnyState(routes: seq<Route>, p: Plugin, st: PluginState, n: nat)
    requires n <= |p.provided|
    ensures UnregisterProvides(routes, p.(state := st), n) == UnregisterProvides(routes, p, n)
  {
    if n > 0 {
      UnregisterAnyState(routes, p, st, n - 1);
    }
  }

  /** A plugin that is not running is none of the lost ones. */
  lemma NotLost(s: State, lost: set<string>, i: nat)
    requires ExactBut(s, lost) && i < |s.plugins| && s.plugins[i].state != Started
    ensures s.plugins[i].id !in lost && Seen(s, lost).plugins[i] == s.plugins[i]
  {
    SeenIds(s, lost, "");
  }

  lemma LosingLoad(s: State, lost: set<string>, i: nat, cb: Callbacks)
    requires ExactBut(s, lost) && i < |s.plugins| && s.plugins[i].state != Started
    requires LosesRoutes(s.plugins[i], cb) && NothingStops(s, i, cb)
    ensures ExactBut(StartSpec(s, i, cb).0, lost + {s.plugins[i].id})
  {
    var id, seen := s.plugins[i].id, Seen(s, lost);
    NotLost(s, lost, i);
    ForeignKeys(seen, i);
    LosingStart(s, i, cb);
    var after := StartSpec(s, i, cb).0;
    SeenIds(s, lost, "");
    assert Seen(after, lost + {id}).plugins == WithState(seen, i, Error).plugins;
    StartedKeysUpdate(seen, i, Error);
    NotStarted(seen, i);
    MoreLost(s, lost, i);
  }

  lemma MoreLost(s: State, lost: set<string>, i: nat)
    requires AllLostRun(s, lost) && i < |s.plugins| && s.plugins[i].provided != []
    ensures AllLostRun(WithState(s, i, Started), lost + {s.plugins[i].id})
  {
    var after := WithState(s, i, Started);
    assert LostRuns(after, i, s.plugins[i].id);
    forall o | o in lost
      ensures exists k :: LostRuns(after, k, o)
    {
      var k :| LostRuns(s, k, o);
      assert LostRuns(after, k, o);
    }
  }

  lemma KeepingStart(s: State, lost: set<string>, i: nat, cb: Callbacks)
    requires ExactBut(s, lost) && i < |s.plugins| && s.plugins[i].state != Started
    requires !(LosesRoutes(s.plugins[i], cb) && NothingStops(s, i, cb))
    ensures ExactBut(StartSpec(s, i, cb).0, lost)
  {
    var seen, after := Seen(s, lost), StartSpec(s, i, cb).0;
    NotLost(s, lost, i);
    StartExact(seen, i, cb);
    assert Seen(after, lost).plugins == StartSpec(seen, i, cb).0.plugins;
    StillRun(s, after, lost, i);
  }

  lemma LoadExactBut(s: State, lost: set<string>, id: string, cb: Callbacks)
    requires ExactBut(s, lost)
    ensures ExactBut(LoadSpec(s, id, cb).0, LostByLoad(s, lost, id, cb))
  {
    var i := Find(s.plugins, id);
    if i < |s.plugins| && s.plugins[i].state != Started {
      if LosesRoutes(s.plugins[i], cb) && NothingStops(s, i, cb) {
        LosingLoad(s, lost, i, cb);
      } else {
        KeepingStart(s, lost, i, cb);
      }
    }
  }

  lemma {:induction false} BootExactBut(s: State, lost: set<string>, order: seq<string>, cbs: string -> Callbacks)
    requires ExactBut(s, lost)
    ensures ExactBut(BootSpec(s, order, cbs), LostByBoot(s, lost, order, cbs))
  {
    if order != [] {
      var n := |order| - 1;
      BootExactBut(s, lost, order[..n], cbs);
      LoadExactBut(BootSpec(s, order[..n], cbs), LostByBoot(s, lost, order[..n], cbs), order[n], cbs(order[n]));
    }
  }

  /** A plugin whose routes go is no longer one that runs without them. */
  lemma ShedExactBut(s: State, lost: set<string>, i: nat, st: PluginState)
    requires ExactBut(s, lost) && i < |s.plugins| && st != Started
    ensures var p := s.plugins[i];
      ExactBut(WithState(s.(routes := UnregisterProvides(s.routes, p, |p.provided|)), i, st), lost - {p.id})
  {
    var p, seen := s.plugins[i], Seen(s, lost);
    UnregisterAnyState(s.routes, p, Error, |p.provided|);
    ShedRoutes(seen, i, st);
    SeenIds(s, lost, "");
    var after := WithState(s.(routes := UnregisterProvides(s.routes, p, |p.provided|)), i, st);
    assert Seen(after, lost - {p.id}).plugins == WithState(seen, i, st).plugins;
    StillRun(s, after, lost - {p.id}, i);
  }

  lemma RelabelExactBut(s: State, lost: set<string>, i: nat, st: PluginState)
    requires ExactBut(s, lost) && i < |s.plugins| && st != Started && s.plugins[i].state != Started
    ensures ExactBut(WithState(s, i, st), lost) && s.plugins[i].id !in lost
  {
    var seen := Seen(s, lost);
    NotLost(s, lost, i);
    NotStarted(seen, i);
    StartedKeysUpdate(seen, i, st);
    assert Seen(WithState(s, i, st), lost).plugins == WithState(seen, i, st).plugins;
    StillRun(s, WithState(s, i, st), lost, i);
  }

  lemma UnloadExactBut(s: State, lost: set<string>, i: nat)
    requires ExactBut(s, lost) && i < |s.plugins|
    ensures ExactBut(UnloadSpec(s, i), lost - {s.plugins[i].id})
  {
    var st := s.plugins[i].state;
    if st == Started || st == Loaded {
      ShedExactBut(s, lost, i, Stopped);
      RelabelExactBut(StopSpec(s, i), lost - {s.plugins[i].id}, i, Uninstalled);
    } else {
      RelabelExactBut(s, lost, i, Uninstalled);
      assert lost - {s.plugins[i].id} == lost;
    }
  }

  lemma DiscoverExactBut(s: State, lost: set<string>, p: Plugin)
    requires ExactBut(s, lost) && p.id != BUS_ID
    ensures ExactBut(DiscoverSpec(s, p), lost)
  {
    SeenIds(s, lost, p.id);
    DiscoverExact(Seen(s, lost), p);
    var after := DiscoverSpec(s, p);
    assert Seen(after, lost).plugins == DiscoverSpec(Seen(s, lost), p).plugins;
    DiscoverLost(s, lost, p);
  }

  lemma DiscoverLost(s: State, lost: set<string>, p: Plugin)
    requires AllLostRun(s, lost)
    ensures AllLostRun(DiscoverSpec(s, p), lost)
  {
    var after := DiscoverSpec(s, p);
    forall o | o in lost
      ensures exists k :: LostRuns(after, k, o)
    {
      var k :| LostRuns(s, k, o);
      assert LostRuns(after, if after == s then k else k + 1, o);
    }
  }

  lemma UnknownNotLost(s: State, lost: set<string>, id: string)
    requires ExactBut(s, lost) && Find(s.plugins, id) == |s.plugins|
    ensures lost - {id} == lost
  {
  }

  lemma StepExactBut(s: State, lost: set<string>, op: Op)
    requires ExactBut(s, lost) && (op.Discover? ==> op.plugin.id != BUS_ID)
    ensures ExactBut(Step(s, op), LostBy(s, lost, op))
  {
    match op
    case Discover(p) => DiscoverExactBut(s, lost, p);
    case Load(id, cb) => LoadExactBut(s, lost, id, cb);
    case Stop(id) =>
      var i := Find(s.plugins, id);
      if i < |s.plugins| { ShedExactBut(s, lost, i, Stopped); } else { UnknownNotLost(s, lost, id); }
    case Unload(id) =>
      var i := Find(s.plugins, id);
      if i < |s.plugins| { UnloadExactBut(s, lost, i); } else { UnknownNotLost(s, lost, id); }
    case Boot(order, cbs) => BootExactBut(s, lost, order, cbs);
  }

  lemma {:induction false} RunExactBut(ops: seq<Op>)
    requires forall i | 0 <= i < |ops| && ops[i].Discover? :: ops[i].plugin.id != BUS_ID
    ensures ExactBut(Execute(ops), Lost(ops))
  {
    if ops == [] {
      InitExact();
      assert Seen(Execute(ops), {}) == Execute(ops);
    } else {
      RunExactBut(ops[..|ops| - 1]);
      StepExactBut(Execute(ops[..|ops| - 1]), Lost(ops[..|ops| - 1]), ops[|ops| - 1]);
    }
  }

  /** A lost plugin makes the table inexact: it runs, and its first protocol has no route of its own. */
  lemma LostNotExact(s: State, lost: set<string>)
    requires ExactBut(s, lost) && lost != {}
    ensures !Exact(s)
  {
    var id :| id in lost;
    var i :| LostRuns(s, i, id);
    var seen := Seen(s, lost);
    assert seen.plugins[i].state == Error;
    ForeignKeys(seen, i);
    assert (s.plugins[i].provided[0], id) in StartedKeys(s.plugins);
  }

  /**
    After every run, whatever codes the plugins return and wherever memory runs
    out: keys are unique, and they are exactly the five built-in protocols and
    what the started plugins provide, but for the plugins whose last start ran
    out of memory at its first registration with nothing else to stop it.  The
    table is exact if and only if there are none, in particular when memory
    never runs out there.  Failed starts leave nothing behind.
   */
  lemma RoutesExact(ops: seq<Op>)
    requires forall i | 0 <= i < |ops| && ops[i].Discover? :: ops[i].plugin.id != BUS_ID
    ensures var s := Execute(ops);
      && Unique(s.routes) && Keys(s.routes) == BuiltinKeys() + StartedKeys(Seen(s, Lost(ops)).plugins)
      && (Exact(s) <==> Lost(ops) == {})
    ensures (forall i | 0 <= i < |ops| :: Allowed(ops[i])) ==> Exact(Execute(ops))
  {
    RunExactBut(ops);
    if Lost(ops) == {} {
      assert Seen(Execute(ops), {}) == Execute(ops);
    } else {
      LostNotExact(Execute(ops), Lost(ops));
    }
    if forall i | 0 <= i < |ops| :: Allowed(ops[i]) {
      AllowedExact(ops);
    }
  }

  const LOSER: Plugin := Plugin("p", ["X"], ["BUS"], [], Installed)

  /** One such run: a plugin that provides X is discovered and started, memory running out once; it runs, and X has no route. */
  lemma StartLosesRoutes(cb: Callbacks)
    requires cb.init == 0 && cb.start == 0 && cb.failAt == 0
    ensures var s := Execute([Discover(LOSER), Load("p", cb)]);
      s.plugins == [LOSER.(state := Started)] && !Exact(s)
  {
    var before := State(BuiltinRoutes(|BUILTINS|), [LOSER]);
    var ops: seq<Op> := [Discover(LOSER), Load("p", cb)];
    assert ops[..1] == [Discover(LOSER)] && [Discover(LOSER)][..0] == [];
    InitExact();
    DiscoverExact(State(BuiltinRoutes(|BUILTINS|), []), LOSER);
    assert [LOSER] + [] == [LOSER];
    assert Execute(ops[..1]) == before;
    BuiltinExact(|BUILTINS|);
    assert (BUILTINS[1], BUS_ID) in Keys(before.routes);
    RegisteredByKeys(before.routes, "BUS");
    assert Find(before.plugins, "p") == 0;
    ForeignKeys(before, 0);
    LosingStart(before, 0, cb);
    StartExact(before, 0, cb);
  }

  lemma {:induction false} ProvidesAdds(routes: seq<Route>, p: Plugin, cb: Callbacks, i: nat)
    requires i <= |p.provided|
    ensures Keys(routes) <= Keys(RegisterProvides(routes, p, cb, i).0) <= Keys(routes) + OwnKeys(p, |p.provided|)
    decreases |p.provided| - i
  {
    if i < |p.provided| && !(i == cb.failAt && FindKey(routes, p.provided[i], p.id) == |routes|) {
      var next := OneAdded(routes, p, cb, i);
      ProvidesAdds(next, p, cb, i + 1);
      OwnKeyAdded(Keys(routes), p, i);
    }
  }

  lemma OneAdded(routes: seq<Route>, p: Plugin, cb: Callbacks, i: nat) returns (next: seq<Route>)
    requires i < |p.provided| && !(i == cb.failAt && FindKey(routes, p.provided[i], p.id) == |routes|)
    ensures RegisterProvides(routes, p, cb, i) == RegisterProvides(next, p, cb, i + 1)
    ensures Keys(next) == Keys(routes) + {(p.provided[i], p.id)}
  {
    next := Register(routes, p.provided[i], p.id, cb.iface(p.provided[i]));
    RegisterAdds(routes, p.provided[i], p.id, cb.iface(p.provided[i]));
  }

  lemma OwnKeyAdded(keys: set<(string, string)>, p: Plugin, i: nat)
    requires i < |p.provided|
    ensures keys + {(p.provided[i], p.id)} + OwnKeys(p, |p.provided|) == keys + OwnKeys(p, |p.provided|)
  {
    assert (p.provided[i], p.id) in OwnKeys(p, |p.provided|);
  }

  /**
    At the moment a plugin starts, whatever state the bus is in and whether or not
    memory runs out, no protocol it conflicts with has a provider other than itself,
    and all it requires is there.
   */
  lemma StartedWithoutConflict(s: State, i: nat, cb: Callbacks)
    requires i < |s.plugins| && StartSpec(s, i, cb).1 == 0
    ensures var p := s.plugins[i]; var after := StartSpec(s, i, cb).0;
      && (forall k | k in Keys(after.routes) && k.0 in p.conflicts :: k in OwnKeys(p, |p.provided|))
      && DepsMet(after.routes, p.requirements)
  {
    var p, after := s.plugins[i], StartSpec(s, i, cb).0;
    ProvidesAdds(s.routes, p, cb, 0);
    forall k | k in Keys(after.routes) && k.0 in p.conflicts
      ensures k in OwnKeys(p, |p.provided|)
    {
      var c :| 0 <= c < |p.conflicts| && p.conflicts[c] == k.0;
      RegisteredByKeys(s.routes, p.conflicts[c]);
    }
    forall r | 0 <= r < |p.requirements|
      ensures Registered(after.routes, p.requirements[r])
    {
      RegisteredByKeys(s.routes, p.requirements[r]);
      RegisteredByKeys(after.routes, p.requirements[r]);
    }
  }

  /** Every running plugin requires something. */
  ghost predicate RunningRequire(plugins: seq<Plugin>) {
    forall i | 0 <= i < |plugins| && plugins[i].state == Started :: plugins[i].requirements != []
  }

  lemma LoadRequires(s: State, id: string, cb: Callbacks)
    requires RunningRequire(s.plugins)
    ensures RunningRequire(LoadSpec(s, id, cb).0.plugins)
  {
    var i := Find(s.plugins, id);
    if i < |s.plugins| && s.plugins[i].state != Started {
      var r := StartSpec(s, i, cb);
      assert r.0.plugins == WithState(s, i, if r.1 == 0 then Started else Error).plugins;
      assert r.1 == 0 ==> DepsMet(s.routes, s.plugins[i].requirements);
    }
  }

  lemma {:induction false} BootRequires(s: State, order: seq<string>, cbs: string -> Callbacks)
    requires RunningRequire(s.plugins)
    ensures RunningRequire(BootSpec(s, order, cbs).plugins)
  {
    if order != [] {
      var n := |order| - 1;
      BootRequires(s, order[..n], cbs);
      LoadRequires(BootSpec(s, order[..n], cbs), order[n], cbs(order[n]));
    }
  }

  /** A plugin that requires nothing is refused by the dependency check and never runs. */
  lemma {:induction false} NoRequirementsNeverStarts(ops: seq<Op>)
    ensures RunningRequire(Execute(ops).plugins)
  {
    if ops != [] {
      NoRequirementsNeverStarts(ops[..|ops| - 1]);
      var s, op := Execute(ops[..|ops| - 1]), ops[|ops| - 1];
      match op
      case Load(id, cb) => LoadRequires(s, id, cb);
      case Boot(order, cbs) => BootRequires(s, order, cbs);
      case _ =>
    }
  }
}
