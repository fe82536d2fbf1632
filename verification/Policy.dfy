/**
  Role-based policy: roles with permission entries, bindings of subjects to
  roles, default deny (permission/src/permission_impl.c, the *_locked mutators
  and ops_check).
 */
module Policy {
  import opened CText
  import Glob

  const NAME_MAX: nat := 64
  const DESC_MAX: nat := 256
  const SUBJECT_MAX: nat := 128
  const ACTION_MAX: nat := 64
  const RESOURCE_MAX: nat := 256
  const ROLE_MAX_PERMS: nat := 64

  const ENOENT: int := -2
  const EACCES: int := -13
  const EEXIST: int := -17
  const EINVAL: int := -22
  const ENOSPC: int := -28

  datatype Perm = Perm(action: string, resource: string)
  datatype Role = Role(name: string, description: string, perms: seq<Perm>)
  datatype Binding = Binding(subject: string, role: string)
  datatype State = State(roles: seq<Role>, bindings: seq<Binding>)

  const EMPTY: State := State([], [])

  // ---------------------------------------------------------------- validity of fields

  predicate TokenChar(c: char) {
    !IsEdge(c) && c != '#' && c != NUL
  }

  /** token_ok: non-empty, shorter than max, no blanks and no '#'. */
  predicate TokenOk(s: string, max: nat) {
    0 < |s| < max && forall i | 0 <= i < |s| :: TokenChar(s[i])
  }

  predicate TextChar(c: char) {
    c != '\n' && c != '\r' && c != NUL
  }

  /** free_text_ok: shorter than max, no line ends. */
  predicate FreeTextOk(s: string, max: nat) {
    |s| < max && forall i | 0 <= i < |s| :: TextChar(s[i])
  }

  // ---------------------------------------------------------------- specification

  function FindRole(roles: seq<Role>, name: string): (i: nat)
    ensures i <= |roles|
    ensures i < |roles| ==> roles[i].name == name
    ensures forall j | 0 <= j < i :: roles[j].name != name
  {
    if roles == [] || roles[0].name == name then 0 else 1 + FindRole(roles[1..], name)
  }

  predicate HasRole(roles: seq<Role>, name: string) {
    FindRole(roles, name) < |roles|
  }

  function IndexOfItem<T(==)>(items: seq<T>, x: T): (i: nat)
    ensures i <= |items|
    ensures i < |items| ==> items[i] == x
    ensures x !in items[..i]
    ensures i == |items| <==> x !in items
  {
    if items == [] then 0
    else if items[0] == x then 0
    else
      var i := 1 + IndexOfItem(items[1..], x);
      assert items[..i] == [items[0]] + items[1..][..i - 1];
      i
  }

  lemma {:induction false} IndexOfItemIs<T>(items: seq<T>, x: T, i: nat)
    requires i <= |items| && (i < |items| ==> items[i] == x)
    requires forall j | 0 <= j < i :: items[j] != x
    ensures IndexOfItem(items, x) == i
  {
    if i > 0 {
      IndexOfItemIs(items[1..], x, i - 1);
    }
  }

  lemma {:induction false} FindRoleIs(roles: seq<Role>, name: string, i: nat)
    requires i <= |roles| && (i < |roles| ==> roles[i].name == name)
    requires forall j | 0 <= j < i :: roles[j].name != name
    ensures FindRole(roles, name) == i
  {
    if i > 0 {
      FindRoleIs(roles[1..], name, i - 1);
    }
  }

  /** The list without its first x. */
  function Without<T(==)>(items: seq<T>, x: T): seq<T> {
    var i := IndexOfItem(items, x);
    if i < |items| then items[..i] + items[i + 1..] else items
  }

  /** The bindings of every other role. */
  function Unbound(bindings: seq<Binding>, role: string): seq<Binding> {
    if bindings == [] then []
    else if bindings[0].role == role then Unbound(bindings[1..], role)
    else [bindings[0]] + Unbound(bindings[1..], role)
  }

  function RoleAdd(s: State, name: string, description: string): (State, int) {
    if !TokenOk(name, NAME_MAX) then (s, EINVAL)
    else if !FreeTextOk(description, DESC_MAX) then (s, EINVAL)
    else if HasRole(s.roles, name) then (s, EEXIST)
    else (s.(roles := s.roles + [Role(name, description, [])]), 0)
  }

  function RoleRemove(s: State, name: string): (State, int) {
    var i := FindRole(s.roles, name);
    if i == |s.roles| then (s, ENOENT)
    else (State(s.roles[..i] + s.roles[i + 1..], Unbound(s.bindings, name)), 0)
  }

  function RoleAddPerm(s: State, role: string, action: string, resource: string): (State, int) {
    var i := FindRole(s.roles, role);
    if i == |s.roles| then (s, ENOENT)
    else if !TokenOk(action, ACTION_MAX) then (s, EINVAL)
    else if !FreeTextOk(resource, RESOURCE_MAX) then (s, EINVAL)
    else if Perm(action, resource) in s.roles[i].perms then (s, EEXIST)
    else if |s.roles[i].perms| >= ROLE_MAX_PERMS then (s, ENOSPC)
    else (WithPerms(s, i, s.roles[i].perms + [Perm(action, resource)]), 0)
  }

  function RoleRemovePerm(s: State, role: string, action: string, resource: string): (State, int) {
    var i := FindRole(s.roles, role);
    if i == |s.roles| then (s, ENOENT)
    else if !TokenOk(action, ACTION_MAX) then (s, EINVAL)
    else if !FreeTextOk(resource, RESOURCE_MAX) then (s, EINVAL)
    else if Perm(action, resource) !in s.roles[i].perms then (s, ENOENT)
    else (WithPerms(s, i, Without(s.roles[i].perms, Perm(action, resource))), 0)
  }

  function WithPerms(s: State, i: nat, perms: seq<Perm>): State
    requires i < |s.roles|
  {
    s.(roles := s.roles[i := s.roles[i].(perms := perms)])
  }

  function Grant(s: State, subject: string, role: string): (State, int) {
    if !TokenOk(subject, SUBJECT_MAX) || !TokenOk(role, NAME_MAX) then (s, EINVAL)
    else if !HasRole(s.roles, role) then (s, ENOENT)
    else if Binding(subject, role) in s.bindings then (s, EEXIST)
    else (s.(bindings := s.bindings + [Binding(subject, role)]), 0)
  }

  function Revoke(s: State, subject: string, role: string): (State, int) {
    if !TokenOk(subject, SUBJECT_MAX) || !TokenOk(role, NAME_MAX) then (s, EINVAL)
    else if Binding(subject, role) !in s.bindings then (s, ENOENT)
    else (s.(bindings := Without(s.bindings, Binding(subject, role))), 0)
  }

  /** One entry covers an action on a resource; an empty resource pattern covers every resource. */
  predicate Covers(p: Perm, action: string, resource: string) {
    Glob.Match(p.action, action) && (p.resource == [] || Glob.Match(p.resource, resource))
  }

  /** Some role bound to the subject has an entry that covers the action on the resource. */
  ghost predicate Permitted(s: State, subject: string, action: string, resource: string) {
    exists b, i, j | 0 <= b < |s.bindings| && 0 <= i < |s.roles| && 0 <= j < |s.roles[i].perms| ::
      s.bindings[b] == Binding(subject, s.roles[i].name) && Covers(s.roles[i].perms[j], action, resource)
  }

  // ---------------------------------------------------------------- implementation

  class Store {
    var roles: seq<Role>
    var bindings: seq<Binding>

    ghost function View(): State
      reads this
    {
      State(roles, bindings)
    }

    constructor ()
      ensures View() == EMPTY
    {
      roles, bindings := [], [];
    }

    method LookupRole(name: string) returns (i: nat)
      ensures i == FindRole(roles, name)
    {
      i := 0;
      while i < |roles| && roles[i].name != name
        invariant 0 <= i <= |roles|
        invariant forall j | 0 <= j < i :: roles[j].name != name
      {
        i := i + 1;
      }
    }

    method AddRole(name: string, description: string) returns (rc: int)
      modifies this
      ensures (View(), rc) == RoleAdd(old(View()), name, description)
    {
      if !TokenOk(name, NAME_MAX) { return EINVAL; }
      if !FreeTextOk(description, DESC_MAX) { return EINVAL; }
      var i := LookupRole(name);
      if i < |roles| { return EEXIST; }
      roles := roles + [Role(name, description, [])];
      rc := 0;
    }

    /** The role goes, and with it every binding to it. */
    method RemoveRole(name: string) returns (rc: int)
      modifies this
      ensures (View(), rc) == RoleRemove(old(View()), name)
    {
      var i := LookupRole(name);
      if i == |roles| { return ENOENT; }
      roles := roles[..i] + roles[i + 1..];
      Unbind(name);
      rc := 0;
    }

    method Unbind(role: string)
      modifies this`bindings
      ensures bindings == Unbound(old(bindings), role)
    {
      var k := 0;
      ghost var goal := Unbound(bindings, role);
      while k < |bindings|
        invariant 0 <= k <= |bindings|
        invariant bindings[..k] + Unbound(bindings[k..], role) == goal
        decreases |bindings| - k
      {
        UnboundStep(bindings, k, role);
        ghost var rest := Unbound(bindings[k + 1..], role);
        if bindings[k].role == role {
          ghost var was := bindings;
          bindings := bindings[..k] + bindings[k + 1..];
          assert bindings[..k] == was[..k] && bindings[k..] == was[k + 1..];
        } else {
          ConcatAssoc(bindings[..k], [bindings[k]], rest);
          assert bindings[..k + 1] == bindings[..k] + [bindings[k]];
          k := k + 1;
        }
      }
      assert bindings[..k] + [] == bindings;
    }

    method AddPerm(role: string, action: string, resource: string) returns (rc: int)
      modifies this
      ensures (View(), rc) == RoleAddPerm(old(View()), role, action, resource)
    {
      var i := LookupRole(role);
      if i == |roles| { return ENOENT; }
      if !TokenOk(action, ACTION_MAX) { return EINVAL; }
      if !FreeTextOk(resource, RESOURCE_MAX) { return EINVAL; }
      var at := FindItem(roles[i].perms, Perm(action, resource));
      if at < |roles[i].perms| { return EEXIST; }
      if |roles[i].perms| >= ROLE_MAX_PERMS { return ENOSPC; }
      roles := roles[i := roles[i].(perms := roles[i].perms + [Perm(action, resource)])];
      rc := 0;
    }

    method RemovePerm(role: string, action: string, resource: string) returns (rc: int)
      modifies this
      ensures (View(), rc) == RoleRemovePerm(old(View()), role, action, resource)
    {
      var i := LookupRole(role);
      if i == |roles| { return ENOENT; }
      if !TokenOk(action, ACTION_MAX) { return EINVAL; }
      if !FreeTextOk(resource, RESOURCE_MAX) { return EINVAL; }
      var perms := roles[i].perms;
      var at := FindItem(perms, Perm(action, resource));
      if at == |perms| { return ENOENT; }
      roles := roles[i := roles[i].(perms := perms[..at] + perms[at + 1..])];
      rc := 0;
    }

    method AddBinding(subject: string, role: string) returns (rc: int)
      modifies this
      ensures (View(), rc) == Grant(old(View()), subject, role)
    {
      if !TokenOk(subject, SUBJECT_MAX) || !TokenOk(role, NAME_MAX) { return EINVAL; }
      var i := LookupRole(role);
      if i == |roles| { return ENOENT; }
      var at := FindItem(bindings, Binding(subject, role));
      if at < |bindings| { return EEXIST; }
      bindings := bindings + [Binding(subject, role)];
      rc := 0;
    }

    method RemoveBinding(subject: string, role: string) returns (rc: int)
      modifies this
      ensures (View(), rc) == Revoke(old(View()), subject, role)
    {
      if !TokenOk(subject, SUBJECT_MAX) || !TokenOk(role, NAME_MAX) { return EINVAL; }
      var at := FindItem(bindings, Binding(subject, role));
      if at == |bindings| { return ENOENT; }
      bindings := bindings[..at] + bindings[at + 1..];
      rc := 0;
    }

    /** ops_check: allowed exactly when some bound role has a covering entry. */
    method Check(subject: string, action: string, resource: string) returns (rc: int)
      requires WellFormed(View())
      ensures rc == if subject == [] || action == [] then EINVAL
                    else if Permitted(View(), subject, action, resource) then 0 else EACCES
    {
      if subject == [] || action == [] { return EINVAL; }
      var b := 0;
      while b < |bindings|
        invariant 0 <= b <= |bindings|
        invariant !PermittedBefore(View(), b, subject, action, resource)
      {
        if bindings[b].subject == subject {
          var i := LookupRole(bindings[b].role);
          if i < |roles| {
            var hit := RoleCovers(roles[i], action, resource);
            if hit { return 0; }
          }
          BoundRole(View(), b, i);
        }
        b := b + 1;
      }
      rc := EACCES;
    }

    method RoleCovers(r: Role, action: string, resource: string) returns (hit: bool)
      ensures hit <==> exists j | 0 <= j < |r.perms| :: Covers(r.perms[j], action, resource)
    {
      var j := 0;
      while j < |r.perms|
        invariant 0 <= j <= |r.perms|
        invariant forall k | 0 <= k < j :: !Covers(r.perms[k], action, resource)
      {
        if Covers(r.perms[j], action, resource) { return true; }
        j := j + 1;
      }
      hit := false;
    }
  }

  method FindItem<T(==)>(items: seq<T>, x: T) returns (i: nat)
    ensures i == IndexOfItem(items, x)
  {
    i := 0;
    while i < |items| && items[i] != x
      invariant 0 <= i <= |items|
      invariant forall j | 0 <= j < i :: items[j] != x
    {
      i := i + 1;
    }
    IndexOfItemIs(items, x, i);
  }

  lemma UnboundStep(bindings: seq<Binding>, k: nat, role: string)
    requires k < |bindings|
    ensures var rest := Unbound(bindings[k + 1..], role);
      Unbound(bindings[k..], role) == if bindings[k].role == role then rest else [bindings[k]] + rest
  {
    assert bindings[k..][1..] == bindings[k + 1..];
  }

  /** A permission that one of the first n bindings gives. */
  ghost predicate PermittedBefore(s: State, n: nat, subject: string, action: string, resource: string)
    requires n <= |s.bindings|
  {
    exists b, i, j | 0 <= b < n && 0 <= i < |s.roles| && 0 <= j < |s.roles[i].perms| ::
      s.bindings[b] == Binding(subject, s.roles[i].name) && Covers(s.roles[i].perms[j], action, resource)
  }

  lemma BoundRole(s: State, b: nat, i: nat)
    requires UniqueRoles(s.roles) && b < |s.bindings| && i == FindRole(s.roles, s.bindings[b].role)
    ensures forall k | 0 <= k < |s.roles| && s.roles[k].name == s.bindings[b].role :: k == i
  {
  }

  // ---------------------------------------------------------------- the invariant

  ghost predicate UniqueRoles(roles: seq<Role>) {
    forall i, j | 0 <= i < j < |roles| :: roles[i].name != roles[j].name
  }

  ghost predicate Distinct<T>(items: seq<T>) {
    forall i, j | 0 <= i < j < |items| :: items[i] != items[j]
  }

  ghost predicate RoleOk(r: Role) {
    && TokenOk(r.name, NAME_MAX) && FreeTextOk(r.description, DESC_MAX)
    && |r.perms| <= ROLE_MAX_PERMS && Distinct(r.perms)
    && forall j | 0 <= j < |r.perms| :: TokenOk(r.perms[j].action, ACTION_MAX) && FreeTextOk(r.perms[j].resource, RESOURCE_MAX)
  }

  /** What a word of a state file can hold; a subject read from a file is no more than that. */
  predicate WordChar(c: char) {
    c != ' ' && c != '\t' && c != '\n' && c != NUL
  }

  predicate WordOk(s: string, max: nat) {
    0 < |s| < max && forall i | 0 <= i < |s| :: WordChar(s[i])
  }

  /** Unique roles, unique entries (at most 64 a role), unique bindings, none of them dangling. */
  ghost predicate WellFormed(s: State) {
    && UniqueRoles(s.roles) && Distinct(s.bindings)
    && (forall i | 0 <= i < |s.roles| :: RoleOk(s.roles[i]))
    && (forall b | 0 <= b < |s.bindings| :: WordOk(s.bindings[b].subject, SUBJECT_MAX) && HasRole(s.roles, s.bindings[b].role))
  }

  datatype Op =
    | AddRole(name: string, description: string)
    | RemoveRole(name: string)
    | AddPerm(role: string, action: string, resource: string)
    | RemovePerm(role: string, action: string, resource: string)
    | AddBinding(subject: string, role: string)
    | RemoveBinding(subject: string, role: string)

  function Apply(s: State, op: Op): (State, int) {
    match op
    case AddRole(n, d) => RoleAdd(s, n, d)
    case RemoveRole(n) => RoleRemove(s, n)
    case AddPerm(r, a, x) => RoleAddPerm(s, r, a, x)
    case RemovePerm(r, a, x) => RoleRemovePerm(s, r, a, x)
    case AddBinding(u, r) => Grant(s, u, r)
    case RemoveBinding(u, r) => Revoke(s, u, r)
  }

  lemma HasRoleIff(roles: seq<Role>, name: string)
    ensures HasRole(roles, name) <==> exists i | 0 <= i < |roles| :: roles[i].name == name
  {
  }

  lemma WithoutMembers<T>(items: seq<T>, x: T)
    requires Distinct(items)
    ensures x !in Without(items, x)
    ensures forall y :: y in Without(items, x) <==> y in items && y != x
  {
    var i := IndexOfItem(items, x);
    if i < |items| {
      assert items == items[..i] + [x] + items[i + 1..];
      assert forall k | i < k < |items| :: items[k] != items[i];
    }
  }

  lemma DistinctWithout<T>(items: seq<T>, x: T)
    requires Distinct(items)
    ensures Distinct(Without(items, x)) && x !in Without(items, x)
    ensures forall y :: y in Without(items, x) <==> y in items && y != x
  {
    WithoutMembers(items, x);
    var i := IndexOfItem(items, x);
    if i < |items| {
      var w := Without(items, x);
      assert forall k | 0 <= k < |w| :: w[k] == items[if k < i then k else k + 1];
    }
  }

  lemma {:induction false} UnboundMembers(bindings: seq<Binding>, role: string)
    ensures forall b :: b in Unbound(bindings, role) <==> b in bindings && b.role != role
  {
    if bindings != [] {
      UnboundMembers(bindings[1..], role);
      assert bindings == [bindings[0]] + bindings[1..];
    }
  }

  lemma {:induction false} UnboundDistinct(bindings: seq<Binding>, role: string)
    requires Distinct(bindings)
    ensures Distinct(Unbound(bindings, role))
  {
    if bindings != [] {
      UnboundDistinct(bindings[1..], role);
      UnboundMembers(bindings[1..], role);
      forall i | 0 <= i < |Unbound(bindings[1..], role)|
        ensures Unbound(bindings[1..], role)[i] != bindings[0]
      {
        assert Unbound(bindings[1..], role)[i] in bindings[1..];
      }
    }
  }

  lemma RolesWithout(roles: seq<Role>, i: nat)
    requires UniqueRoles(roles) && i < |roles|
    ensures var left := roles[..i] + roles[i + 1..];
      && UniqueRoles(left)
      && (forall k | 0 <= k < |left| :: left[k] == roles[if k < i then k else k + 1])
      && (forall name :: HasRole(left, name) <==> HasRole(roles, name) && name != roles[i].name)
  {
    var left := roles[..i] + roles[i + 1..];
    forall name | HasRole(roles, name) && name != roles[i].name
      ensures HasRole(left, name)
    {
      var k := FindRole(roles, name);
      assert left[if k < i then k else k - 1].name == name;
    }
  }

  lemma RoleRemoveWellFormed(s: State, name: string)
    requires WellFormed(s)
    ensures WellFormed(RoleRemove(s, name).0)
  {
    var i := FindRole(s.roles, name);
    if i < |s.roles| {
      var bindings := Unbound(s.bindings, name);
      RolesWithout(s.roles, i);
      UnboundDistinct(s.bindings, name);
      UnboundMembers(s.bindings, name);
      forall b | 0 <= b < |bindings|
        ensures bindings[b] in s.bindings && bindings[b].role != name
      {
        assert bindings[b] in bindings;
      }
    }
  }

  lemma WithPermsWellFormed(s: State, i: nat, perms: seq<Perm>)
    requires WellFormed(s) && i < |s.roles| && RoleOk(s.roles[i].(perms := perms))
    ensures WellFormed(WithPerms(s, i, perms))
  {
    var roles := WithPerms(s, i, perms).roles;
    assert forall k | 0 <= k < |roles| :: roles[k].name == s.roles[k].name;
    forall b | 0 <= b < |s.bindings|
      ensures HasRole(roles, s.bindings[b].role)
    {
      assert roles[FindRole(s.roles, s.bindings[b].role)].name == s.bindings[b].role;
    }
  }

  lemma RoleAddWellFormed(s: State, name: string, description: string)
    requires WellFormed(s)
    ensures WellFormed(RoleAdd(s, name, description).0)
  {
    var after := RoleAdd(s, name, description).0;
    forall b | 0 <= b < |s.bindings|
      ensures HasRole(after.roles, s.bindings[b].role)
    {
      assert after.roles[FindRole(s.roles, s.bindings[b].role)].name == s.bindings[b].role;
    }
  }

  lemma AddPermWellFormed(s: State, role: string, action: string, resource: string)
    requires WellFormed(s)
    ensures WellFormed(RoleAddPerm(s, role, action, resource).0)
  {
    if RoleAddPerm(s, role, action, resource).1 == 0 {
      var i := FindRole(s.roles, role);
      WithPermsWellFormed(s, i, s.roles[i].perms + [Perm(action, resource)]);
    }
  }

  lemma RemovePermWellFormed(s: State, role: string, action: string, resource: string)
    requires WellFormed(s)
    ensures WellFormed(RoleRemovePerm(s, role, action, resource).0)
  {
    var i := FindRole(s.roles, role);
    if RoleRemovePerm(s, role, action, resource).1 == 0 {
      var perms := s.roles[i].perms;
      var left := Without(perms, Perm(action, resource));
      DistinctWithout(perms, Perm(action, resource));
      assert forall k | 0 <= k < |left| :: left[k] in left;
      WithPermsWellFormed(s, i, left);
    }
  }

  lemma RevokeWellFormed(s: State, subject: string, role: string)
    requires WellFormed(s)
    ensures WellFormed(Revoke(s, subject, role).0)
  {
    DistinctWithout(s.bindings, Binding(subject, role));
    var left := Without(s.bindings, Binding(subject, role));
    assert forall k | 0 <= k < |left| :: left[k] in left;
  }

  /** Every operation, whatever its arguments and its outcome, keeps the policy well-formed. */
  lemma ApplyWellFormed(s: State, op: Op)
    requires WellFormed(s)
    ensures WellFormed(Apply(s, op).0)
  {
    match op
    case AddRole(n, d) => RoleAddWellFormed(s, n, d);
    case RemoveRole(n) => RoleRemoveWellFormed(s, n);
    case AddPerm(r, a, x) => AddPermWellFormed(s, r, a, x);
    case RemovePerm(r, a, x) => RemovePermWellFormed(s, r, a, x);
    case AddBinding(u, r) =>
    case RemoveBinding(u, r) => RevokeWellFormed(s, u, r);
  }

  /** An operation succeeds exactly when it changes the policy. */
  lemma SucceedsIffChanges(s: State, op: Op)
    ensures Apply(s, op).1 == 0 <==> Apply(s, op).0 != s
  {
    if Apply(s, op).1 == 0 {
      match op
      case AddRole(_, _) => assert |Apply(s, op).0.roles| > |s.roles|;
      case RemoveRole(_) => assert |Apply(s, op).0.roles| < |s.roles|;
      case AddPerm(role, action, resource) =>
        var i := FindRole(s.roles, role);
        assert |Apply(s, op).0.roles[i].perms| > |s.roles[i].perms|;
      case RemovePerm(role, action, resource) =>
        var i := FindRole(s.roles, role);
        assert |Apply(s, op).0.roles[i].perms| < |s.roles[i].perms|;
      case AddBinding(_, _) => assert |Apply(s, op).0.bindings| > |s.bindings|;
      case RemoveBinding(_, _) => assert |Apply(s, op).0.bindings| < |s.bindings|;
    }
  }

  // ---------------------------------------------------------------- what operations do to access

  /** Granting a role and adding an entry never take access away. */
  lemma AccessMonotone(s: State, op: Op, subject: string, action: string, resource: string)
    requires op.AddBinding? || op.AddPerm? || op.AddRole?
    requires Permitted(s, subject, action, resource)
    ensures Permitted(Apply(s, op).0, subject, action, resource)
  {
    AddingKeeps(s, op);
    PermittedIn(s, Apply(s, op).0, subject, action, resource);
  }

  /** t has everything s has, at the same places. */
  ghost predicate Extends(t: State, s: State) {
    && s.bindings <= t.bindings && |s.roles| <= |t.roles|
    && forall i | 0 <= i < |s.roles| :: t.roles[i].name == s.roles[i].name && s.roles[i].perms <= t.roles[i].perms
  }

  lemma AddingKeeps(s: State, op: Op)
    requires op.AddBinding? || op.AddPerm? || op.AddRole?
    ensures Extends(Apply(s, op).0, s)
  {
  }

  lemma PermittedIn(s: State, t: State, subject: string, action: string, resource: string)
    requires Extends(t, s) && Permitted(s, subject, action, resource)
    ensures Permitted(t, subject, action, resource)
  {
    var b, i, j :| 0 <= b < |s.bindings| && 0 <= i < |s.roles| && 0 <= j < |s.roles[i].perms|
      && s.bindings[b] == Binding(subject, s.roles[i].name) && Covers(s.roles[i].perms[j], action, resource);
    assert t.bindings[b] == s.bindings[b];
    assert t.roles[i].name == s.roles[i].name && t.roles[i].perms[j] == s.roles[i].perms[j];
  }

  /**
    Removing a role and adding it again, and giving it any entry, restores
    nobody's access: nobody is bound to it, and a subject is permitted exactly
    what the roles that stayed permit.
   */
  lemma ReAddedRoleGrantsNothing(s: State, name: string, description: string, perms: seq<Perm>,
                                 subject: string, action: string, resource: string)
    requires WellFormed(s) && HasRole(s.roles, name)
    requires TokenOk(name, NAME_MAX) && FreeTextOk(description, DESC_MAX)
    ensures var removed := RoleRemove(s, name).0;
      var again := RoleAdd(removed, name, description).0;
      var filled := again.(roles := removed.roles + [Role(name, description, perms)]);
      && again.roles == removed.roles + [Role(name, description, [])]
      && (forall b | b in filled.bindings :: b.role != name)
      && (Permitted(filled, subject, action, resource) <==> Permitted(removed, subject, action, resource))
      && (Permitted(removed, subject, action, resource) ==> Permitted(s, subject, action, resource))
  {
    var i := FindRole(s.roles, name);
    var removed := RoleRemove(s, name).0;
    UnboundMembers(s.bindings, name);
    assert forall k | 0 <= k < |removed.roles| :: removed.roles[k] == s.roles[if k < i then k else k + 1];
    assert !HasRole(removed.roles, name);
    var filled := removed.(roles := removed.roles + [Role(name, description, perms)]);
    FilledPermits(removed, filled, name, subject, action, resource);
    if Permitted(removed, subject, action, resource) {
      RemovedPermits(s, removed, i, subject, action, resource);
    }
  }

  lemma FilledPermits(removed: State, filled: State, name: string, subject: string, action: string, resource: string)
    requires filled.bindings == removed.bindings && |filled.roles| == |removed.roles| + 1
    requires removed.roles <= filled.roles && filled.roles[|removed.roles|].name == name
    requires forall b | b in removed.bindings :: b.role != name
    ensures Permitted(filled, subject, action, resource) <==> Permitted(removed, subject, action, resource)
  {
    if Permitted(filled, subject, action, resource) {
      var b, i, j :| 0 <= b < |filled.bindings| && 0 <= i < |filled.roles| && 0 <= j < |filled.roles[i].perms|
        && filled.bindings[b] == Binding(subject, filled.roles[i].name) && Covers(filled.roles[i].perms[j], action, resource);
      assert filled.bindings[b] in removed.bindings;
      assert removed.roles[i] == filled.roles[i];
    }
    if Permitted(removed, subject, action, resource) {
      var b, i, j :| 0 <= b < |removed.bindings| && 0 <= i < |removed.roles| && 0 <= j < |removed.roles[i].perms|
        && removed.bindings[b] == Binding(subject, removed.roles[i].name) && Covers(removed.roles[i].perms[j], action, resource);
      assert removed.roles[i] == filled.roles[i];
    }
  }

  lemma RemovedPermits(s: State, removed: State, at: nat, subject: string, action: string, resource: string)
    requires at < |s.roles| && removed.roles == s.roles[..at] + s.roles[at + 1..]
    requires forall b | b in removed.bindings :: b in s.bindings
    requires Permitted(removed, subject, action, resource)
    ensures Permitted(s, subject, action, resource)
  {
    var b, i, j :| 0 <= b < |removed.bindings| && 0 <= i < |removed.roles| && 0 <= j < |removed.roles[i].perms|
      && removed.bindings[b] == Binding(subject, removed.roles[i].name) && Covers(removed.roles[i].perms[j], action, resource);
    assert removed.bindings[b] in s.bindings;
    var c :| 0 <= c < |s.bindings| && s.bindings[c] == removed.bindings[b];
    var k := if i < at then i else i + 1;
    assert s.roles[k] == removed.roles[i];
  }

  /** Each adding operation is undone exactly by its removing one. */
  lemma Undo(s: State, name: string, text: string, role: string, action: string, resource: string, subject: string)
    requires WellFormed(s)
    ensures RoleAdd(s, name, text).1 == 0 ==> RoleRemove(RoleAdd(s, name, text).0, name) == (s, 0)
    ensures RoleAddPerm(s, role, action, resource).1 == 0 ==>
      RoleRemovePerm(RoleAddPerm(s, role, action, resource).0, role, action, resource) == (s, 0)
    ensures Grant(s, subject, role).1 == 0 ==> Revoke(Grant(s, subject, role).0, subject, role) == (s, 0)
  {
    if RoleAdd(s, name, text).1 == 0 {
      UndoRole(s, name, text);
    }
    if RoleAddPerm(s, role, action, resource).1 == 0 {
      UndoPerm(s, role, action, resource);
    }
    if Grant(s, subject, role).1 == 0 {
      WithoutLast(s.bindings, Binding(subject, role));
    }
  }

  lemma WithoutLast<T>(items: seq<T>, x: T)
    requires x !in items
    ensures Without(items + [x], x) == items
  {
    IndexOfItemIs(items + [x], x, |items|);
  }

  lemma UndoRole(s: State, name: string, text: string)
    requires WellFormed(s) && RoleAdd(s, name, text).1 == 0
    ensures RoleRemove(RoleAdd(s, name, text).0, name) == (s, 0)
  {
    var roles := RoleAdd(s, name, text).0.roles;
    assert forall k | 0 <= k < |s.roles| :: roles[k].name != name;
    FindRoleIs(roles, name, |s.roles|);
    assert roles[..|s.roles|] + roles[|s.roles| + 1..] == s.roles;
    NobodyBound(s, name);
    UnboundNone(s.bindings, name);
  }

  lemma NobodyBound(s: State, name: string)
    requires WellFormed(s) && !HasRole(s.roles, name)
    ensures forall b | 0 <= b < |s.bindings| :: s.bindings[b].role != name
  {
  }

  lemma {:induction false} UnboundNone(bindings: seq<Binding>, role: string)
    requires forall b | 0 <= b < |bindings| :: bindings[b].role != role
    ensures Unbound(bindings, role) == bindings
  {
    if bindings != [] {
      UnboundNone(bindings[1..], role);
    }
  }

  lemma UndoPerm(s: State, role: string, action: string, resource: string)
    requires RoleAddPerm(s, role, action, resource).1 == 0
    ensures RoleRemovePerm(RoleAddPerm(s, role, action, resource).0, role, action, resource) == (s, 0)
  {
    var i := FindRole(s.roles, role);
    var perms, p := s.roles[i].perms, Perm(action, resource);
    var roles := RoleAddPerm(s, role, action, resource).0.roles;
    assert forall k | 0 <= k < i :: roles[k].name != role;
    FindRoleIs(roles, role, i);
    WithoutLast(perms, p);
    assert roles[i := roles[i].(perms := perms)] == s.roles;
  }
}
