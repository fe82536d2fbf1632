/**
  What one pass of the boot loop starts: the least set of plugins closed under
  "everything required is built in or provided by a plugin of the set", when
  providers come before their users in the start order.
 */
module BusBoot {
  import opened Metaproto
  import opened PluginBus
  import opened BusRuns

  /** The ids of the running plugins. */
  ghost function StartedIds(plugins: seq<Plugin>): set<string> {
    set i | 0 <= i < |plugins| && plugins[i].state == Started :: plugins[i].id
  }

  /** Some plugin of the set provides the protocol. */
  ghost predicate ProvidedBy(plugins: seq<Plugin>, ids: set<string>, protocol: string) {
    exists j | 0 <= j < |plugins| :: plugins[j].id in ids && protocol in plugins[j].provided
  }

  /** All the i-th plugin requires is built in or provided by a plugin of the set. */
  ghost predicate Supported(plugins: seq<Plugin>, ids: set<string>, i: nat)
    requires i < |plugins|
  {
    && plugins[i].requirements != []
    && forall r | r in plugins[i].requirements :: r in BUILTINS || ProvidedBy(plugins, ids, r)
  }

  /** The plugins of the start order that the set supports. */
  ghost function Support(plugins: seq<Plugin>, order: seq<string>, ids: set<string>): set<string> {
    set i | 0 <= i < |plugins| && plugins[i].id in order && Supported(plugins, ids, i) :: plugins[i].id
  }

  /** The same plugins, whatever their states. */
  ghost predicate SamePlugins(a: seq<Plugin>, b: seq<Plugin>) {
    |a| == |b| && forall i | 0 <= i < |a| :: a[i].(state := Installed) == b[i].(state := Installed)
  }

  /** Nothing runs yet and only the built-in protocols are registered. */
  ghost predicate Fresh(s: State) {
    Exact(s) && forall i | 0 <= i < |s.plugins| :: s.plugins[i].state != Started
  }

  // ---------------------------------------------------------------- one start

  lemma FindExact(plugins: seq<Plugin>, i: nat)
    requires DistinctIds(plugins) && i < |plugins|
    ensures Find(plugins, plugins[i].id) == i
  {
  }

  /** A protocol is registered exactly when it is built in or a running plugin provides it. */
  lemma RegisteredIff(s: State, protocol: string)
    requires Exact(s)
    ensures Registered(s.routes, protocol) <==>
            protocol in BUILTINS || ProvidedBy(s.plugins, StartedIds(s.plugins), protocol)
  {
    RegisteredByKeys(s.routes, protocol);
    var ids := StartedIds(s.plugins);
    if protocol in BUILTINS {
      var b :| 0 <= b < |BUILTINS| && BUILTINS[b] == protocol;
      assert (BUILTINS[b], BUS_ID) in BuiltinKeys();
    }
    if ProvidedBy(s.plugins, ids, protocol) {
      var j :| 0 <= j < |s.plugins| && s.plugins[j].id in ids && protocol in s.plugins[j].provided;
      StartedById(s.plugins, j);
      var b :| 0 <= b < |s.plugins[j].provided| && s.plugins[j].provided[b] == protocol;
      assert (s.plugins[j].provided[b], s.plugins[j].id) in StartedKeys(s.plugins);
    }
    if Registered(s.routes, protocol) {
      var k :| k in Keys(s.routes) && k.0 == protocol;
      if k in StartedKeys(s.plugins) {
        var a, b :| 0 <= a < |s.plugins| && s.plugins[a].state == Started && 0 <= b < |s.plugins[a].provided|
                    && k == (s.plugins[a].provided[b], s.plugins[a].id);
        assert s.plugins[a].id in ids;
      }
    }
  }

  lemma StartedById(plugins: seq<Plugin>, j: nat)
    requires DistinctIds(plugins) && j < |plugins|
    ensures plugins[j].id in StartedIds(plugins) <==> plugins[j].state == Started
  {
    if plugins[j].id in StartedIds(plugins) {
      var i :| 0 <= i < |plugins| && plugins[i].state == Started && plugins[i].id == plugins[j].id;
      assert i == j;
    }
  }

  lemma DepsMetIff(s: State, i: nat)
    requires Exact(s) && i < |s.plugins|
    ensures DepsMet(s.routes, s.plugins[i].requirements) <==> Supported(s.plugins, StartedIds(s.plugins), i)
  {
    var reqs := s.plugins[i].requirements;
    forall r | 0 <= r < |reqs|
      ensures Registered(s.routes, reqs[r]) <==>
              reqs[r] in BUILTINS || ProvidedBy(s.plugins, StartedIds(s.plugins), reqs[r])
    {
      RegisteredIff(s, reqs[r]);
    }
    if Supported(s.plugins, StartedIds(s.plugins), i) {
      assert forall r | 0 <= r < |reqs| :: reqs[r] in reqs;
    }
  }

  // ---------------------------------------------------------------- soundness

  ghost predicate NoLoss(cbs: string -> Callbacks) {
    forall id :: cbs(id).failAt != 0
  }

  lemma LoadGrows(s: State, id: string, cb: Callbacks)
    requires Exact(s) && cb.failAt != 0
    ensures var after := LoadSpec(s, id, cb).0;
      && SamePlugins(s.plugins, after.plugins)
      && StartedIds(s.plugins) <= StartedIds(after.plugins) <= StartedIds(s.plugins) + {id}
      && (id in StartedIds(after.plugins) && id !in StartedIds(s.plugins) ==>
            var i := Find(s.plugins, id);
            i < |s.plugins| && Supported(s.plugins, StartedIds(s.plugins), i))
  {
    var before, after := s.plugins, LoadSpec(s, id, cb).0.plugins;
    var i := Find(before, id);
    if i < |before| && before[i].state != Started {
      StartRoutesOnly(s, i, cb);
      forall x | x in StartedIds(before)
        ensures x in StartedIds(after)
      {
        var j :| 0 <= j < |before| && before[j].state == Started && before[j].id == x;
        assert after[j] == before[j];
      }
      if StartSpec(s, i, cb).1 == 0 {
        DepsMetIff(s, i);
      }
    }
  }

  lemma StartRoutesOnly(s: State, i: nat, cb: Callbacks)
    requires i < |s.plugins|
    ensures var r := StartSpec(s, i, cb);
      && r.0.plugins == s.plugins[i := s.plugins[i].(state := if r.1 == 0 then Started else Error)]
      && (r.1 == 0 ==> DepsMet(s.routes, s.plugins[i].requirements))
  {
  }

  /** More running plugins support no less. */
  lemma SupportedMonotone(a: seq<Plugin>, b: seq<Plugin>, x: set<string>, y: set<string>, i: nat)
    requires SamePlugins(a, b) && x <= y && i < |a| && Supported(a, x, i)
    ensures Supported(b, y, i)
  {
    forall r | r in b[i].requirements
      ensures r in BUILTINS || ProvidedBy(b, y, r)
    {
      assert a[i].(state := Installed).requirements == b[i].(state := Installed).requirements;
      if r !in BUILTINS {
        var j :| 0 <= j < |a| && a[j].id in x && r in a[j].provided;
        assert a[j].(state := Installed) == b[j].(state := Installed);
        assert b[j].id in y && r in b[j].provided;
      }
    }
    assert a[i].(state := Installed) == b[i].(state := Installed);
  }

  /**
    Whatever the plugins return and whatever the order: every plugin the pass
    has started is in the order and supported by plugins it has started, and
    belongs to every set closed under support.
   */
  lemma {:induction false} BootSound(s: State, order: seq<string>, cbs: string -> Callbacks, closed: set<string>)
    requires Fresh(s) && NoLoss(cbs)
    requires Support(s.plugins, order, closed) <= closed
    ensures var b := BootSpec(s, order, cbs); var started := StartedIds(b.plugins);
      && Exact(b) && SamePlugins(s.plugins, b.plugins)
      && started <= Support(s.plugins, order, started)
      && started <= closed
  {
    BootExact(s, order, cbs);
    if order == [] {
      assert StartedIds(s.plugins) == {};
    } else {
      var n := |order| - 1;
      var front, last := order[..n], order[n];
      SupportOrderMonotone(s.plugins, front, order, closed);
      BootSound(s, front, cbs, closed);
      var mid := BootSpec(s, front, cbs);
      LoadGrows(mid, last, cbs(last));
      var b := BootSpec(s, order, cbs);
      assert b == LoadSpec(mid, last, cbs(last)).0;
      SupportGrows(s.plugins, mid.plugins, front, order, StartedIds(mid.plugins), StartedIds(b.plugins));
      if last in StartedIds(b.plugins) && last !in StartedIds(mid.plugins) {
        var i := Find(mid.plugins, last);
        SameIds(s.plugins, mid.plugins);
        SupportedMonotone(mid.plugins, s.plugins, StartedIds(mid.plugins), StartedIds(b.plugins), i);
        SupportedMonotone(mid.plugins, s.plugins, StartedIds(mid.plugins), closed, i);
        assert last in order;
        assert s.plugins[i].id == last;
        assert last in Support(s.plugins, order, closed);
      }
    }
  }

  lemma SameIds(a: seq<Plugin>, b: seq<Plugin>)
    requires SamePlugins(a, b)
    ensures forall i | 0 <= i < |a| :: a[i].id == b[i].id && a[i].provided == b[i].provided
                                      && a[i].requirements == b[i].requirements && a[i].conflicts == b[i].conflicts
  {
    forall i | 0 <= i < |a|
      ensures a[i].id == b[i].id && a[i].provided == b[i].provided
              && a[i].requirements == b[i].requirements && a[i].conflicts == b[i].conflicts
    {
      assert a[i].(state := Installed) == b[i].(state := Installed);
    }
  }

  lemma SupportOrderMonotone(plugins: seq<Plugin>, front: seq<string>, order: seq<string>, ids: set<string>)
    requires front <= order && Support(plugins, order, ids) <= ids
    ensures Support(plugins, front, ids) <= ids
  {
    forall x | x in Support(plugins, front, ids)
      ensures x in ids
    {
      var i :| 0 <= i < |plugins| && plugins[i].id in front && Supported(plugins, ids, i) && plugins[i].id == x;
      assert plugins[i].id in order;
      assert x in Support(plugins, order, ids);
    }
  }

  lemma SupportGrows(plugins: seq<Plugin>, mid: seq<Plugin>, front: seq<string>, order: seq<string>,
                     x: set<string>, y: set<string>)
    requires front <= order && x <= y
    ensures Support(plugins, front, x) <= Support(plugins, order, y)
  {
    forall id | id in Support(plugins, front, x)
      ensures id in Support(plugins, order, y)
    {
      var i :| 0 <= i < |plugins| && plugins[i].id in front && Supported(plugins, x, i) && plugins[i].id == id;
      SupportedMonotone(plugins, plugins, x, y, i);
      assert plugins[i].id in order;
    }
  }

  /** After a boot everything a running plugin requires is registered. */
  lemma StartedDepsRegistered(s: State, order: seq<string>, cbs: string -> Callbacks, i: nat)
    requires Fresh(s) && NoLoss(cbs)
    requires i < |BootSpec(s, order, cbs).plugins| && BootSpec(s, order, cbs).plugins[i].state == Started
    ensures DepsMet(BootSpec(s, order, cbs).routes, BootSpec(s, order, cbs).plugins[i].requirements)
  {
    var b := BootSpec(s, order, cbs);
    var all := set j | 0 <= j < |s.plugins| :: s.plugins[j].id;
    BootSound(s, order, cbs, all);
    var started := StartedIds(b.plugins);
    assert b.plugins[i].id in started;
    var j :| 0 <= j < |s.plugins| && s.plugins[j].id in order && Supported(s.plugins, started, j)
             && s.plugins[j].id == b.plugins[i].id;
    SameIds(s.plugins, b.plugins);
    assert i == j;
    SupportedMonotone(s.plugins, b.plugins, started, started, i);
    DepsMetIff(b, i);
  }

  // ---------------------------------------------------------------- completeness

  ghost predicate AllSucceed(cbs: string -> Callbacks) {
    forall id :: cbs(id).init == 0 && cbs(id).start == 0
  }

  ghost predicate NoConflicts(plugins: seq<Plugin>) {
    forall i | 0 <= i < |plugins| :: plugins[i].conflicts == []
  }

  /** No registration runs out of memory. */
  ghost predicate MemoryHolds(plugins: seq<Plugin>, cbs: string -> Callbacks) {
    NoLoss(cbs) && forall i | 0 <= i < |plugins| :: cbs(plugins[i].id).failAt >= |plugins[i].provided|
  }

  /** Position in the start order of the first entry for an id. */
  function Position(order: seq<string>, id: string): (k: nat)
    ensures k <= |order| && id !in order[..k]
    ensures k < |order| ==> order[k] == id
    ensures id in order ==> k < |order|
  {
    if order == [] || order[0] == id then 0
    else
      var k := 1 + Position(order[1..], id);
      assert order[..k] == [order[0]] + order[1..][..k - 1];
      k
  }

  lemma {:induction false} PositionLeast(order: seq<string>, id: string, k: nat)
    requires k < |order| && order[k] == id
    ensures Position(order, id) <= k
  {
    if order[0] != id {
      PositionLeast(order[1..], id, k - 1);
    }
  }

  /** Whoever provides a protocol comes before everyone who requires it, built-in protocols aside. */
  ghost predicate ProvidersFirst(plugins: seq<Plugin>, order: seq<string>) {
    forall i, j, r | 0 <= i < |plugins| && 0 <= j < |plugins|
      && r in plugins[i].requirements && r in plugins[j].provided && r !in BUILTINS
      && plugins[i].id in order && plugins[j].id in order ::
      Position(order, plugins[j].id) < Position(order, plugins[i].id)
  }

  lemma {:induction false} RegisterAllSucceeds(routes: seq<Route>, p: Plugin, cb: Callbacks, i: nat)
    requires i <= |p.provided| && cb.failAt >= |p.provided|
    ensures RegisterProvides(routes, p, cb, i).1 == |p.provided|
    decreases |p.provided| - i
  {
    if i < |p.provided| {
      RegisterAllSucceeds(Register(routes, p.provided[i], p.id, cb.iface(p.provided[i])), p, cb, i + 1);
    }
  }

  lemma StartSucceeds(s: State, i: nat, cb: Callbacks)
    requires i < |s.plugins| && DepsMet(s.routes, s.plugins[i].requirements) && s.plugins[i].conflicts == []
    requires cb.init == 0 && cb.start == 0 && cb.failAt >= |s.plugins[i].provided|
    ensures StartSpec(s, i, cb).1 == 0 && StartSpec(s, i, cb).0.plugins[i].state == Started
  {
    RegisterAllSucceeds(s.routes, s.plugins[i], cb, 0);
  }

  /** At its turn a supported plugin is started. */
  lemma LoadStarts(s: State, i: nat, cb: Callbacks)
    requires Exact(s) && i < |s.plugins| && Supported(s.plugins, StartedIds(s.plugins), i)
    requires s.plugins[i].conflicts == [] && cb.init == 0 && cb.start == 0 && cb.failAt >= |s.plugins[i].provided|
    ensures s.plugins[i].id in StartedIds(LoadSpec(s, s.plugins[i].id, cb).0.plugins)
  {
    var id := s.plugins[i].id;
    DepsMetIff(s, i);
    FindExact(s.plugins, i);
    if s.plugins[i].state != Started {
      StartSucceeds(s, i, cb);
    }
    var after := LoadSpec(s, id, cb).0;
    assert after.plugins[i].state == Started && after.plugins[i].id == id;
  }

  /** A provider in a supported set has had its turn before its user's. */
  lemma ProviderBefore(plugins: seq<Plugin>, order: seq<string>, ids: set<string>, k: nat, i: nat, j: nat, r: string)
    requires DistinctIds(plugins) && ProvidersFirst(plugins, order) && ids <= Support(plugins, order, ids)
    requires k < |order| && i < |plugins| && j < |plugins| && plugins[i].id == order[k] && plugins[j].id in ids
    requires r in plugins[i].requirements && r in plugins[j].provided && r !in BUILTINS
    ensures plugins[j].id in order[..k] && Supported(plugins, ids, j)
  {
    var j' :| 0 <= j' < |plugins| && plugins[j'].id in order && Supported(plugins, ids, j')
              && plugins[j'].id == plugins[j].id;
    assert j' == j;
    assert plugins[i].id in order;
    PositionLeast(order, plugins[i].id, k);
    assert order[..k][Position(order, plugins[j].id)] == plugins[j].id;
  }

  /** The plugins already running support whatever a supported set supports at its turn. */
  lemma SupportedAtTurn(plugins: seq<Plugin>, order: seq<string>, ids: set<string>, k: nat, i: nat, running: set<string>)
    requires DistinctIds(plugins) && ProvidersFirst(plugins, order) && ids <= Support(plugins, order, ids)
    requires k < |order| && i < |plugins| && plugins[i].id == order[k] && Supported(plugins, ids, i)
    requires forall j | 0 <= j < |plugins| && plugins[j].id in order[..k] && Supported(plugins, ids, j) :: plugins[j].id in running
    ensures Supported(plugins, running, i)
  {
    forall r | r in plugins[i].requirements
      ensures r in BUILTINS || ProvidedBy(plugins, running, r)
    {
      if r !in BUILTINS {
        var j :| 0 <= j < |plugins| && plugins[j].id in ids && r in plugins[j].provided;
        ProviderBefore(plugins, order, ids, k, i, j, r);
      }
    }
  }

  /** Of the plugins with a place in the order so far, all that the set supports are running. */
  ghost predicate Reached(plugins: seq<Plugin>, order: seq<string>, ids: set<string>, running: set<string>) {
    forall i | 0 <= i < |plugins| && plugins[i].id in order && Supported(plugins, ids, i) :: plugins[i].id in running
  }

  lemma ReachStep(s: State, order: seq<string>, cbs: string -> Callbacks, ids: set<string>, k: nat, mid: State)
    requires DistinctIds(s.plugins) && AllSucceed(cbs) && MemoryHolds(s.plugins, cbs) && NoConflicts(s.plugins)
    requires ProvidersFirst(s.plugins, order) && ids <= Support(s.plugins, order, ids) && k < |order|
    requires Exact(mid) && SamePlugins(s.plugins, mid.plugins)
    requires Reached(s.plugins, order[..k], ids, StartedIds(mid.plugins))
    ensures Reached(s.plugins, order[..k + 1], ids, StartedIds(LoadSpec(mid, order[k], cbs(order[k])).0.plugins))
  {
    LoadGrows(mid, order[k], cbs(order[k]));
    assert order[..k + 1] == order[..k] + [order[k]];
    forall i | 0 <= i < |s.plugins| && s.plugins[i].id in order[..k + 1] && Supported(s.plugins, ids, i)
      ensures s.plugins[i].id in StartedIds(LoadSpec(mid, order[k], cbs(order[k])).0.plugins)
    {
      if s.plugins[i].id !in order[..k] {
        SupportedAtTurn(s.plugins, order, ids, k, i, StartedIds(mid.plugins));
        ReachedAtTurn(s, mid, i, cbs);
      }
    }
  }

  /** Every plugin a supported set supports is running once its first turn is over. */
  lemma {:induction false} BootReaches(s: State, order: seq<string>, cbs: string -> Callbacks, ids: set<string>, k: nat)
    requires Fresh(s) && AllSucceed(cbs) && MemoryHolds(s.plugins, cbs) && NoConflicts(s.plugins)
    requires ProvidersFirst(s.plugins, order) && ids <= Support(s.plugins, order, ids) && k <= |order|
    ensures Reached(s.plugins, order[..k], ids, StartedIds(BootSpec(s, order[..k], cbs).plugins))
    decreases k
  {
    if k > 0 {
      BootReaches(s, order, cbs, ids, k - 1);
      BootKeepsExact(s, order[..k - 1], cbs);
      BootNext(s, order, k - 1, cbs);
      ReachStep(s, order, cbs, ids, k - 1, BootSpec(s, order[..k - 1], cbs));
    }
  }

  lemma BootKeepsExact(s: State, order: seq<string>, cbs: string -> Callbacks)
    requires Fresh(s) && NoLoss(cbs)
    ensures Exact(BootSpec(s, order, cbs)) && SamePlugins(s.plugins, BootSpec(s, order, cbs).plugins)
  {
    BootSound(s, order, cbs, set j | 0 <= j < |s.plugins| :: s.plugins[j].id);
  }

  lemma ReachedAtTurn(s: State, mid: State, i: nat, cbs: string -> Callbacks)
    requires Exact(mid) && SamePlugins(s.plugins, mid.plugins) && i < |s.plugins|
    requires AllSucceed(cbs) && MemoryHolds(s.plugins, cbs) && NoConflicts(s.plugins)
    requires Supported(s.plugins, StartedIds(mid.plugins), i)
    ensures s.plugins[i].id in StartedIds(LoadSpec(mid, s.plugins[i].id, cbs(s.plugins[i].id)).0.plugins)
  {
    SameIds(s.plugins, mid.plugins);
    SupportedMonotone(s.plugins, mid.plugins, StartedIds(mid.plugins), StartedIds(mid.plugins), i);
    LoadStarts(mid, i, cbs(s.plugins[i].id));
  }

  /**
    If every start succeeds, nothing conflicts and providers come first, the
    single pass starts exactly the least set closed under support: it is a
    fixpoint, and it is contained in every closed set.
   */
  lemma BootIsLeastFixpoint(s: State, order: seq<string>, cbs: string -> Callbacks)
    requires Fresh(s) && AllSucceed(cbs) && MemoryHolds(s.plugins, cbs) && NoConflicts(s.plugins)
    requires ProvidersFirst(s.plugins, order)
    ensures var started := StartedIds(BootSpec(s, order, cbs).plugins);
      && Support(s.plugins, order, started) == started
      && forall closed: set<string> | Support(s.plugins, order, closed) <= closed :: started <= closed
  {
    var started := StartedIds(BootSpec(s, order, cbs).plugins);
    forall closed: set<string> | Support(s.plugins, order, closed) <= closed
      ensures started <= closed
    {
      BootSound(s, order, cbs, closed);
    }
    var all := set j | 0 <= j < |s.plugins| :: s.plugins[j].id;
    BootSound(s, order, cbs, all);
    assert order[..|order|] == order;
    BootReaches(s, order, cbs, started, |order|);
    assert Reached(s.plugins, order, started, started);
  }
}
