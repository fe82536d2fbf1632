/**
  The protocol registry: a list of routes, at most one per (protocol, plugin)
  (bus/src/metaproto.c).
 */
module Metaproto {
  import opened CText

  const EINVAL: int := -22
  const ENOENT: int := -2
  const ENOMEM: int := -12
  const PROTOCOL_VERSION: string := "1.0"

  /** impl identifies the implementation pointer. */
  datatype Route = Route(protocol: string, version: string, plugin: string, impl: nat)

  predicate HasKey(r: Route, protocol: string, plugin: string) {
    r.protocol == protocol && r.plugin == plugin
  }

  // ---------------------------------------------------------------- versions

  /** major, minor, patch and how many were recognised (0: not a version). */
  datatype Segments = Segments(count: nat, major: int, minor: int, patch: int)

  function VersionSegments(v: string): Segments {
    var a := ScanNumber(v);
    if a.end == 0 then Segments(0, 0, 0, 0)
    else if a.end == |v| || v[a.end] != '.' then Segments(1, Strtoll(v), 0, 0)
    else
      var rest := v[a.end + 1..];
      var b := ScanNumber(rest);
      if b.end == |rest| || rest[b.end] != '.' then Segments(2, Strtoll(v), Strtoll(rest), 0)
      else Segments(3, Strtoll(v), Strtoll(rest), Strtoll(rest[b.end + 1..]))
  }

  predicate VersionCompat(have: string, req: string) {
    var h, r := VersionSegments(have), VersionSegments(req);
    h.count != 0 && r.count != 0 && h.major == r.major
    && h.minor >= r.minor && !(h.minor == r.minor && h.patch < r.patch)
  }

  /** Compatibility is a preorder on versions: a provider that satisfies a request satisfies every weaker one. */
  lemma CompatPreorder(a: string, b: string, c: string)
    ensures VersionCompat(a, a) <==> VersionSegments(a).count != 0
    ensures VersionCompat(a, b) && VersionCompat(b, c) ==> VersionCompat(a, c)
    ensures VersionCompat(a, b) && VersionCompat(b, a) ==>
      VersionSegments(a).(count := 0) == VersionSegments(b).(count := 0)
  {
  }

  /** The text begins with a number, and this comes behind it. */
  ghost predicate NumberThen(v: string, n: int, tail: string) {
    var end := ScanNumber(v).end;
    end > 0 && v[end..] == tail && Strtoll(v) == n
  }

  lemma NumberBefore(n: nat, tail: string)
    requires n < TWO_POW_63 && (tail == "" || !IsDigit(tail[0]))
    ensures NumberThen(Dec(n) + tail, n, tail)
  {
    ScanBefore(n, tail);
  }

  lemma SegmentsOf(v: string, a: int, rest: string, b: int, tail: string)
    requires NumberThen(v, a, "." + rest) && NumberThen(rest, b, tail)
    ensures VersionSegments(v) ==
      if tail != "" && tail[0] == '.' then Segments(3, a, b, Strtoll(tail[1..])) else Segments(2, a, b, 0)
  {
    Behind(v, ScanNumber(v).end, "." + rest);
    Behind(rest, ScanNumber(rest).end, tail);
  }

  lemma Behind(s: string, n: nat, tail: string)
    requires n <= |s| && s[n..] == tail
    ensures n == |s| <==> tail == ""
    ensures tail != "" ==> s[n] == tail[0] && s[n + 1..] == tail[1..]
  {
    if tail != "" {
      assert s[n..][0] == s[n] && s[n..][1..] == s[n + 1..];
    }
  }

  function Version(major: nat, minor: nat): string {
    Dec(major) + ("." + Dec(minor))
  }

  function FullVersion(major: nat, minor: nat, patch: nat): string {
    Dec(major) + ("." + (Dec(minor) + ("." + Dec(patch))))
  }

  /** A version with two numbers, or three. */
  lemma VersionNumbers(a: nat, b: nat, c: nat)
    requires a < TWO_POW_63 && b < TWO_POW_63 && c < TWO_POW_63
    ensures VersionSegments(Version(a, b)) == Segments(2, a, b, 0)
    ensures VersionSegments(FullVersion(a, b, c)) == Segments(3, a, b, c)
  {
    var third := "." + Dec(c);
    NumberBefore(a, "." + Dec(b));
    NumberBefore(b, "");
    assert Dec(b) + "" == Dec(b);
    SegmentsOf(Version(a, b), a, Dec(b), b, "");
    NumberBefore(a, "." + (Dec(b) + third));
    NumberBefore(b, third);
    SegmentsOf(FullVersion(a, b, c), a, Dec(b) + third, b, third);
    assert third[1..] == Dec(c);
    SignedRoundTrip(c);
  }

  /** The same major number, and the rest no smaller than asked for; a missing patch number is 0. */
  lemma CompatNumbers(a: nat, b: nat, c: nat, x: nat, y: nat, z: nat)
    requires a < TWO_POW_63 && b < TWO_POW_63 && c < TWO_POW_63 && x < TWO_POW_63 && y < TWO_POW_63 && z < TWO_POW_63
    ensures VersionCompat(FullVersion(a, b, c), FullVersion(x, y, z)) <==> a == x && (b > y || (b == y && c >= z))
    ensures VersionCompat(FullVersion(a, b, c), Version(x, y)) <==> a == x && b >= y
    ensures VersionCompat(Version(a, b), Version(x, y)) <==> a == x && b >= y
  {
    VersionNumbers(a, b, c);
    VersionNumbers(x, y, z);
    CompatOfSegments(FullVersion(a, b, c), FullVersion(x, y, z));
    CompatOfSegments(FullVersion(a, b, c), Version(x, y));
    CompatOfSegments(Version(a, b), Version(x, y));
  }

  lemma CompatOfSegments(have: string, req: string)
    ensures var h, r := VersionSegments(have), VersionSegments(req);
      VersionCompat(have, req) <==>
      h.count > 0 && r.count > 0 && h.major == r.major && (h.minor > r.minor || (h.minor == r.minor && h.patch >= r.patch))
  {
  }

  // ---------------------------------------------------------------- specification

  function FindKey(routes: seq<Route>, protocol: string, plugin: string): (i: nat)
    ensures i <= |routes|
    ensures i < |routes| ==> HasKey(routes[i], protocol, plugin)
    ensures forall j | 0 <= j < i :: !HasKey(routes[j], protocol, plugin)
  {
    if routes == [] || HasKey(routes[0], protocol, plugin) then 0
    else 1 + FindKey(routes[1..], protocol, plugin)
  }

  function Registered(routes: seq<Route>, protocol: string): bool {
    exists i | 0 <= i < |routes| :: routes[i].protocol == protocol
  }

  /** An existing route of the same plugin is updated; otherwise a new one is put at the head. */
  function RegisterAs(routes: seq<Route>, protocol: string, version: Option<string>, plugin: string, impl: nat): seq<Route> {
    var i := FindKey(routes, protocol, plugin);
    if i < |routes| then
      routes[i := routes[i].(impl := impl, version := if version.Some? then version.value else routes[i].version)]
    else
      [Route(protocol, if version.Some? then version.value else PROTOCOL_VERSION, plugin, impl)] + routes
  }

  /** What the bus and plugins register has the current protocol version. */
  function Register(routes: seq<Route>, protocol: string, plugin: string, impl: nat): seq<Route> {
    RegisterAs(routes, protocol, Some(PROTOCOL_VERSION), plugin, impl)
  }

  /** Index of the first route of a protocol, whichever plugin provides it. */
  function FindProtocol(routes: seq<Route>, protocol: string): (i: nat)
    ensures i <= |routes|
    ensures i < |routes| ==> routes[i].protocol == protocol
    ensures forall j | 0 <= j < i :: routes[j].protocol != protocol
  {
    if routes == [] || routes[0].protocol == protocol then 0 else 1 + FindProtocol(routes[1..], protocol)
  }

  /** Without a plugin id the first route of the protocol is the one to go. */
  function FindRoute(routes: seq<Route>, protocol: string, plugin: Option<string>): (i: nat)
    ensures i <= |routes|
  {
    if plugin.Some? then FindKey(routes, protocol, plugin.value) else FindProtocol(routes, protocol)
  }

  function Without(routes: seq<Route>, i: nat): seq<Route> {
    if i < |routes| then routes[..i] + routes[i + 1..] else routes
  }

  function Unregister(routes: seq<Route>, protocol: string, plugin: string): seq<Route> {
    Without(routes, FindKey(routes, protocol, plugin))
  }

  ghost predicate Unique(routes: seq<Route>) {
    forall i, j | 0 <= i < j < |routes| :: !HasKey(routes[j], routes[i].protocol, routes[i].plugin)
  }

  ghost function Keys(routes: seq<Route>): set<(string, string)> {
    set i | 0 <= i < |routes| :: (routes[i].protocol, routes[i].plugin)
  }

  lemma RegisterKeys(routes: seq<Route>, protocol: string, plugin: string, impl: nat)
    requires Unique(routes)
    ensures Unique(Register(routes, protocol, plugin, impl))
    ensures Keys(Register(routes, protocol, plugin, impl)) == Keys(routes) + {(protocol, plugin)}
  {
    RegisterAsKeys(routes, protocol, Some(PROTOCOL_VERSION), plugin, impl);
  }

  lemma RegisterAdds(routes: seq<Route>, protocol: string, plugin: string, impl: nat)
    ensures Keys(Register(routes, protocol, plugin, impl)) == Keys(routes) + {(protocol, plugin)}
  {
    RegisterAsAdds(routes, protocol, Some(PROTOCOL_VERSION), plugin, impl);
  }

  lemma RegisterAsKeys(routes: seq<Route>, protocol: string, version: Option<string>, plugin: string, impl: nat)
    requires Unique(routes)
    ensures Unique(RegisterAs(routes, protocol, version, plugin, impl))
    ensures Keys(RegisterAs(routes, protocol, version, plugin, impl)) == Keys(routes) + {(protocol, plugin)}
  {
    RegisterAsAdds(routes, protocol, version, plugin, impl);
  }

  lemma RegisterAsAdds(routes: seq<Route>, protocol: string, version: Option<string>, plugin: string, impl: nat)
    ensures Keys(RegisterAs(routes, protocol, version, plugin, impl)) == Keys(routes) + {(protocol, plugin)}
  {
    var after := RegisterAs(routes, protocol, version, plugin, impl);
    var i := FindKey(routes, protocol, plugin);
    forall k: (string, string)
      ensures k in Keys(after) <==> k in Keys(routes) || k == (protocol, plugin)
    {
      if k in Keys(routes) {
        var j :| 0 <= j < |routes| && k == (routes[j].protocol, routes[j].plugin);
        var j' := if i < |routes| then j else j + 1;
        assert k == (after[j'].protocol, after[j'].plugin);
      }
      if k == (protocol, plugin) {
        var j' := if i < |routes| then i else 0;
        assert k == (after[j'].protocol, after[j'].plugin);
      }
    }
  }

  lemma UnregisterKeys(routes: seq<Route>, protocol: string, plugin: string)
    requires Unique(routes)
    ensures Unique(Unregister(routes, protocol, plugin))
    ensures Keys(Unregister(routes, protocol, plugin)) == Keys(routes) - {(protocol, plugin)}
  {
    var after := Unregister(routes, protocol, plugin);
    var i := FindKey(routes, protocol, plugin);
    if i < |routes| {
      assert forall j | 0 <= j < |after| :: after[j] == routes[if j < i then j else j + 1];
      forall k | k in Keys(routes) && k != (protocol, plugin)
        ensures k in Keys(after)
      {
        var j :| 0 <= j < |routes| && k == (routes[j].protocol, routes[j].plugin);
        var j' := if j < i then j else j - 1;
        assert after[j'] == routes[j];
      }
    }
  }

  /** A protocol is registered exactly when some plugin provides a route for it. */
  /** What is in the table after a registration: the new route in place of one with its key, and all others as they were. */
  lemma RegisterRoutes(routes: seq<Route>, protocol: string, plugin: string, impl: nat)
    requires Unique(routes)
    ensures forall r :: r in Register(routes, protocol, plugin, impl) <==>
              if r.protocol == protocol && r.plugin == plugin then r == Route(protocol, "1.0", plugin, impl) else r in routes
  {
    var i, after := FindKey(routes, protocol, plugin), Register(routes, protocol, plugin, impl);
    var at := if i < |routes| then i else 0;
    assert after[at] == Route(protocol, PROTOCOL_VERSION, plugin, impl);
    forall r | r in routes && !HasKey(r, protocol, plugin)
      ensures r in after
    {
      var j :| 0 <= j < |routes| && routes[j] == r;
      assert after[if i < |routes| then j else j + 1] == r;
    }
  }

  /** What is in the table after an unregistration: all but the route with that key. */
  lemma UnregisterRoutes(routes: seq<Route>, protocol: string, plugin: string)
    requires Unique(routes)
    ensures forall r :: r in Unregister(routes, protocol, plugin) <==>
              r in routes && !(r.protocol == protocol && r.plugin == plugin)
  {
    var i, after := FindKey(routes, protocol, plugin), Unregister(routes, protocol, plugin);
    forall r | r in routes && !HasKey(r, protocol, plugin)
      ensures r in after
    {
      var j :| 0 <= j < |routes| && routes[j] == r;
      if i < |routes| {
        assert after[if j < i then j else j - 1] == r;
      }
    }
  }

  lemma RegisteredByKeys(routes: seq<Route>, protocol: string)
    ensures Registered(routes, protocol) <==> exists k :: k in Keys(routes) && k.0 == protocol
  {
    if Registered(routes, protocol) {
      var i :| 0 <= i < |routes| && routes[i].protocol == protocol;
      assert (routes[i].protocol, routes[i].plugin) in Keys(routes);
    }
  }

  // ---------------------------------------------------------------- implementation

  class Registry {
    var routes: seq<Route>

    constructor ()
      ensures routes == []
    {
      routes := [];
    }

    /** hw_metaproto_register; allocOk is false when calloc fails. */
    method RegisterRoute(protocol: string, version: Option<string>, plugin: string, impl: nat, allocOk: bool) returns (rc: int)
      modifies this
      ensures var found := FindKey(old(routes), protocol, plugin) < |old(routes)|;
        rc == (if found || allocOk then 0 else ENOMEM)
        && routes == (if rc == 0 then RegisterAs(old(routes), protocol, version, plugin, impl) else old(routes))
    {
      var i := 0;
      while i < |routes|
        invariant 0 <= i <= |routes| && routes == old(routes)
        invariant forall j | 0 <= j < i :: !HasKey(routes[j], protocol, plugin)
      {
        if HasKey(routes[i], protocol, plugin) {
          assert i == FindKey(routes, protocol, plugin);
          routes := routes[i := routes[i].(impl := impl)];
          if version.Some? {
            routes := routes[i := routes[i].(version := version.value)];
          }
          return 0;
        }
        i := i + 1;
      }
      if !allocOk { return ENOMEM; }
      routes := [Route(protocol, if version.Some? then version.value else PROTOCOL_VERSION, plugin, impl)] + routes;
      rc := 0;
    }

    /** hw_metaproto_unregister; the plugin id may be left out. */
    method UnregisterRoute(protocol: string, plugin: Option<string>) returns (rc: int)
      modifies this
      ensures routes == Without(old(routes), FindRoute(old(routes), protocol, plugin))
      ensures rc == if FindRoute(old(routes), protocol, plugin) < |old(routes)| then 0 else ENOENT
    {
      var i := 0;
      while i < |routes|
        invariant 0 <= i <= |routes| && routes == old(routes)
        invariant forall j | 0 <= j < i :: routes[j].protocol != protocol || (plugin.Some? && routes[j].plugin != plugin.value)
      {
        if routes[i].protocol == protocol && (plugin.None? || routes[i].plugin == plugin.value) {
          assert i == FindRoute(routes, protocol, plugin);
          routes := routes[..i] + routes[i + 1..];
          return 0;
        }
        i := i + 1;
      }
      rc := ENOENT;
    }

    /** hw_metaproto_resolve: the first route of the protocol whose version will do. */
    method Resolve(protocol: string, versionReq: Option<string>) returns (rc: int, out: Option<Route>)
      ensures var i := FirstServing(routes, protocol, versionReq);
        (rc, out) == if i < |routes| then (0, Some(routes[i])) else (ENOENT, None)
    {
      var i := 0;
      while i < |routes|
        invariant 0 <= i <= |routes|
        invariant forall j | 0 <= j < i :: !Serves(routes[j], protocol, versionReq)
      {
        if Serves(routes[i], protocol, versionReq) {
          assert i == FirstServing(routes, protocol, versionReq);
          return 0, Some(routes[i]);
        }
        i := i + 1;
      }
      rc, out := ENOENT, None;
    }

    /** hw_metaproto_check_deps; a plugin without requirements passes a null array (copy_str_arr), which is refused. */
    method CheckDeps(requirements: seq<string>) returns (rc: int, missing: Option<string>)
      ensures rc == 0 <==> DepsMet(routes, requirements)
      ensures rc == 0 || requirements == [] ==> missing == None
      ensures requirements == [] ==> rc == EINVAL
      ensures rc != 0 && requirements != [] ==> rc == ENOENT && FirstMissing(routes, requirements, missing)
    {
      missing := None;
      if requirements == [] { return EINVAL, None; }
      var i := 0;
      while i < |requirements|
        invariant 0 <= i <= |requirements|
        invariant forall j | 0 <= j < i :: Registered(routes, requirements[j])
      {
        var k := 0;
        while k < |routes| && routes[k].protocol != requirements[i]
          invariant 0 <= k <= |routes|
          invariant forall j | 0 <= j < k :: routes[j].protocol != requirements[i]
        {
          k := k + 1;
        }
        if k == |routes| { return ENOENT, Some(requirements[i]); }
        i := i + 1;
      }
      rc := 0;
    }
  }

  predicate Serves(r: Route, protocol: string, versionReq: Option<string>) {
    r.protocol == protocol && (versionReq.Some? && versionReq.value != [] ==> VersionCompat(r.version, versionReq.value))
  }

  /** Index of the first route that serves the request, or the length. */
  function FirstServing(routes: seq<Route>, protocol: string, versionReq: Option<string>): (i: nat)
    ensures i <= |routes|
    ensures i < |routes| ==> Serves(routes[i], protocol, versionReq)
    ensures forall j | 0 <= j < i :: !Serves(routes[j], protocol, versionReq)
  {
    if routes == [] || Serves(routes[0], protocol, versionReq) then 0
    else 1 + FirstServing(routes[1..], protocol, versionReq)
  }

  /** The first requirement without a route. */
  ghost predicate FirstMissing(routes: seq<Route>, requirements: seq<string>, missing: Option<string>) {
    exists i | 0 <= i < |requirements| ::
      && missing == Some(requirements[i]) && !Registered(routes, requirements[i])
      && forall j | 0 <= j < i :: Registered(routes, requirements[j])
  }

  predicate DepsMet(routes: seq<Route>, requirements: seq<string>) {
    requirements != [] && forall i | 0 <= i < |requirements| :: Registered(routes, requirements[i])
  }
}
