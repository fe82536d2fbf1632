/**
  Who may do what, and what each operation does to that: which bindings and entries
  there are afterwards, whose access changes, and when an operation is refused
  (permission/src/permission_impl.c, role_add_locked .. revoke_locked, ops_check).
 */
module PolicyAccess {
  import opened CText
  import opened Policy
  import Glob

  /** The role has the entry. */
  ghost predicate Entry(s: State, role: string, p: Perm) {
    exists r | r in s.roles :: r.name == role && p in r.perms
  }

  ghost predicate Described(s: State, role: string, description: string) {
    exists r | r in s.roles :: r.name == role && r.description == description
  }

  /** The action is one of the action pattern, and so is the resource, unless there is no resource pattern. */
  ghost predicate Grants(p: Perm, action: string, resource: string) {
    Glob.InLanguage(p.action, action) && (p.resource == "" || Glob.InLanguage(p.resource, resource))
  }

  /** By this role and this entry of it. */
  ghost predicate By(s: State, subject: string, role: string, p: Perm, action: string, resource: string) {
    Binding(subject, role) in s.bindings && Entry(s, role, p) && Grants(p, action, resource)
  }

  /** A subject may do what some entry of some role it is bound to grants. */
  lemma AccessIff(s: State, subject: string, action: string, resource: string)
    ensures Permitted(s, subject, action, resource) <==>
            exists role, p :: By(s, subject, role, p, action, resource)
  {
    if Permitted(s, subject, action, resource) {
      var b, i, j :| 0 <= b < |s.bindings| && 0 <= i < |s.roles| && 0 <= j < |s.roles[i].perms|
        && s.bindings[b] == Binding(subject, s.roles[i].name) && Covers(s.roles[i].perms[j], action, resource);
      CoversGrants(s.roles[i].perms[j], action, resource);
      assert s.roles[i] in s.roles && s.bindings[b] in s.bindings;
      assert By(s, subject, s.roles[i].name, s.roles[i].perms[j], action, resource);
    }
    if exists role, p :: By(s, subject, role, p, action, resource) {
      var role, p :| By(s, subject, role, p, action, resource);
      CoversGrants(p, action, resource);
      var b :| 0 <= b < |s.bindings| && s.bindings[b] == Binding(subject, role);
      var r :| r in s.roles && r.name == role && p in r.perms;
      var i :| 0 <= i < |s.roles| && s.roles[i] == r;
      var j :| 0 <= j < |r.perms| && r.perms[j] == p;
    }
  }

  lemma CoversGrants(p: Perm, action: string, resource: string)
    ensures Covers(p, action, resource) <==> Grants(p, action, resource)
  {
    Glob.MatchIffInLanguage(p.action, action);
    Glob.MatchIffInLanguage(p.resource, resource);
  }

  // ---------------------------------------------------------------- what each operation leaves

  /** The list without one x, the others in their order. */
  ghost predicate OneOut<T>(items: seq<T>, left: seq<T>, x: T) {
    exists i | 0 <= i < |items| :: items[i] == x && left == items[..i] + items[i + 1..]
  }

  lemma WithoutOne<T>(items: seq<T>, x: T)
    requires x in items
    ensures OneOut(items, Without(items, x), x)
  {
    var i := IndexOfItem(items, x);
  }

  /** The bindings after an operation that succeeds. */
  lemma BindingsAfter(s: State, op: Op, b: Binding)
    requires WellFormed(s) && Apply(s, op).1 == 0
    ensures b in Apply(s, op).0.bindings <==>
      match op
      case AddBinding(subject, role) => b in s.bindings || b == Binding(subject, role)
      case RemoveBinding(subject, role) => b in s.bindings && b != Binding(subject, role)
      case RemoveRole(name) => b in s.bindings && b.role != name
      case _ => b in s.bindings
  {
    match op
    case RemoveBinding(subject, role) => WithoutMembers(s.bindings, Binding(subject, role));
    case RemoveRole(name) => UnboundMembers(s.bindings, name);
    case _ =>
  }

  lemma RoleAt(roles: seq<Role>, name: string)
    requires UniqueRoles(roles) && HasRole(roles, name)
    ensures roles[FindRole(roles, name)] in roles
    ensures forall r | r in roles && r.name == name :: r == roles[FindRole(roles, name)]
  {
  }

  /** The roles after entries of one have changed. */
  lemma PermsChanged(s: State, role: string, perms: seq<Perm>, p: Perm, d: string, other: string)
    requires UniqueRoles(s.roles) && HasRole(s.roles, role)
    ensures var t := WithPerms(s, FindRole(s.roles, role), perms);
      && (Entry(t, other, p) <==> if other == role then p in perms else Entry(s, other, p))
      && (Described(t, other, d) <==> Described(s, other, d))
  {
    var i := FindRole(s.roles, role);
    var t := WithPerms(s, i, perms);
    RoleAt(s.roles, role);
    assert t.roles[i] in t.roles;
    forall k | 0 <= k < |s.roles| && k != i
      ensures t.roles[k] == s.roles[k] && t.roles[k] in t.roles && t.roles[k].name != role
    {
    }
    assert forall r | r in t.roles :: r == t.roles[i] || (r in s.roles && r.name != role);
    assert forall r | r in s.roles && r.name != role :: r in t.roles;
  }

  lemma RolesLeft(s: State, name: string, r: Role)
    requires WellFormed(s) && HasRole(s.roles, name)
    ensures r in RoleRemove(s, name).0.roles <==> r in s.roles && r.name != name
  {
    var i := FindRole(s.roles, name);
    var left := RoleRemove(s, name).0.roles;
    RolesWithout(s.roles, i);
    if r in s.roles && r.name != name {
      StillIn(s.roles, i, left, r);
    }
    if r in left {
      CameFrom(s.roles, i, left, r);
    }
  }

  lemma StillIn(roles: seq<Role>, i: nat, left: seq<Role>, r: Role)
    requires i < |roles| && left == roles[..i] + roles[i + 1..] && r in roles && r != roles[i]
    ensures r in left
  {
    var k :| 0 <= k < |roles| && roles[k] == r;
    assert left[if k < i then k else k - 1] == r;
  }

  lemma CameFrom(roles: seq<Role>, i: nat, left: seq<Role>, r: Role)
    requires i < |roles| && left == roles[..i] + roles[i + 1..] && r in left && UniqueRoles(roles)
    ensures r in roles && r.name != roles[i].name
  {
    var k :| 0 <= k < |left| && left[k] == r;
    assert r == roles[if k < i then k else k + 1];
  }

  lemma RoleGone(s: State, name: string, p: Perm, d: string, other: string)
    requires WellFormed(s) && HasRole(s.roles, name)
    ensures var t := RoleRemove(s, name).0;
      && (Entry(t, other, p) <==> other != name && Entry(s, other, p))
      && (Described(t, other, d) <==> other != name && Described(s, other, d))
  {
    forall r
      ensures r in RoleRemove(s, name).0.roles <==> r in s.roles && r.name != name
    {
      RolesLeft(s, name, r);
    }
  }

  lemma RoleNew(s: State, name: string, d: string, r: Role)
    requires RoleAdd(s, name, d).1 == 0
    ensures r in RoleAdd(s, name, d).0.roles <==> r in s.roles || r == Role(name, d, [])
  {
  }

  lemma PermAdded(s: State, role: string, action: string, resource: string, other: string, p: Perm)
    requires WellFormed(s) && RoleAddPerm(s, role, action, resource).1 == 0
    ensures Entry(RoleAddPerm(s, role, action, resource).0, other, p) <==>
            Entry(s, other, p) || (other == role && p == Perm(action, resource))
  {
    var perms := s.roles[FindRole(s.roles, role)].perms;
    PermHeld(s, role, p);
    PermsChanged(s, role, perms + [Perm(action, resource)], p, "", other);
  }

  lemma PermTaken(s: State, role: string, action: string, resource: string, other: string, p: Perm)
    requires WellFormed(s) && RoleRemovePerm(s, role, action, resource).1 == 0
    ensures Entry(RoleRemovePerm(s, role, action, resource).0, other, p) <==>
            Entry(s, other, p) && !(other == role && p == Perm(action, resource))
  {
    var perms := s.roles[FindRole(s.roles, role)].perms;
    PermHeld(s, role, p);
    WithoutMembers(perms, Perm(action, resource));
    PermsChanged(s, role, Without(perms, Perm(action, resource)), p, "", other);
  }

  /** The entries after an operation that succeeds. */
  lemma EntriesAfter(s: State, op: Op, role: string, p: Perm)
    requires WellFormed(s) && Apply(s, op).1 == 0
    ensures Entry(Apply(s, op).0, role, p) <==>
      match op
      case AddPerm(r, action, resource) => Entry(s, role, p) || (role == r && p == Perm(action, resource))
      case RemovePerm(r, action, resource) => Entry(s, role, p) && !(role == r && p == Perm(action, resource))
      case RemoveRole(name) => Entry(s, role, p) && role != name
      case _ => Entry(s, role, p)
  {
    match op
    case AddRole(name, description) =>
      forall r
        ensures r in Apply(s, op).0.roles <==> r in s.roles || r == Role(name, description, [])
      {
        RoleNew(s, name, description, r);
      }
    case RemoveRole(name) => RoleGone(s, name, p, "", role);
    case AddPerm(r, action, resource) => PermAdded(s, r, action, resource, role, p);
    case RemovePerm(r, action, resource) => PermTaken(s, r, action, resource, role, p);
    case _ =>
  }

  /** The roles and their descriptions after an operation that succeeds. */
  lemma RolesAfter(s: State, op: Op, role: string, description: string)
    requires WellFormed(s) && Apply(s, op).1 == 0
    ensures Described(Apply(s, op).0, role, description) <==>
      match op
      case AddRole(name, d) => Described(s, role, description) || (role == name && description == d)
      case RemoveRole(name) => Described(s, role, description) && role != name
      case _ => Described(s, role, description)
  {
    match op
    case AddRole(name, d) =>
      forall r
        ensures r in Apply(s, op).0.roles <==> r in s.roles || r == Role(name, d, [])
      {
        RoleNew(s, name, d, r);
      }
    case RemoveRole(name) => RoleGone(s, name, Perm("", ""), description, role);
    case AddPerm(r, action, resource) =>
      PermsChanged(s, r, s.roles[FindRole(s.roles, r)].perms + [Perm(action, resource)], Perm("", ""), description, role);
    case RemovePerm(r, action, resource) =>
      PermsChanged(s, r, Without(s.roles[FindRole(s.roles, r)].perms, Perm(action, resource)), Perm("", ""), description, role);
    case _ =>
  }

  /** Removing takes one thing out and keeps the order of the rest; adding puts one thing at the end. */
  lemma OrderKept(s: State, op: Op)
    requires Apply(s, op).1 == 0
    ensures var t := Apply(s, op).0;
      match op
      case AddRole(name, d) => t.roles == s.roles + [Role(name, d, [])] && t.bindings == s.bindings
      case RemoveRole(name) => exists r: Role :: r.name == name && OneOut(s.roles, t.roles, r)
      case AddPerm(role, action, resource) =>
        exists i | 0 <= i < |s.roles| :: s.roles[i].name == role && t.bindings == s.bindings
          && t.roles == s.roles[i := s.roles[i].(perms := s.roles[i].perms + [Perm(action, resource)])]
      case RemovePerm(role, action, resource) =>
        exists i | 0 <= i < |s.roles| == |t.roles| :: s.roles[i].name == role && t.bindings == s.bindings
          && t.roles == s.roles[i := s.roles[i].(perms := t.roles[i].perms)]
          && OneOut(s.roles[i].perms, t.roles[i].perms, Perm(action, resource))
      case AddBinding(subject, role) => t.roles == s.roles && t.bindings == s.bindings + [Binding(subject, role)]
      case RemoveBinding(subject, role) => t.roles == s.roles && OneOut(s.bindings, t.bindings, Binding(subject, role))
  {
    match op
    case RemoveRole(name) => assert OneOut(s.roles, Apply(s, op).0.roles, s.roles[FindRole(s.roles, name)]);
    case RemovePerm(role, action, resource) =>
      WithoutOne(s.roles[FindRole(s.roles, role)].perms, Perm(action, resource));
    case RemoveBinding(subject, role) => WithoutOne(s.bindings, Binding(subject, role));
    case _ =>
  }

  // ---------------------------------------------------------------- whose access changes

  /** Some role and entry other than this one grant it. */
  ghost predicate PermittedBut(s: State, subject: string, action: string, resource: string, out: (string, Perm) -> bool) {
    exists role, p :: By(s, subject, role, p, action, resource) && !out(role, p)
  }

  lemma ByAfter(s: State, op: Op, subject: string, role: string, p: Perm, action: string, resource: string)
    requires WellFormed(s) && Apply(s, op).1 == 0
    ensures By(Apply(s, op).0, subject, role, p, action, resource) <==>
      Grants(p, action, resource) &&
      match op
      case AddRole(_, _) => Binding(subject, role) in s.bindings && Entry(s, role, p)
      case RemoveRole(name) => Binding(subject, role) in s.bindings && Entry(s, role, p) && role != name
      case AddPerm(r, a, x) => Binding(subject, role) in s.bindings && (Entry(s, role, p) || (role == r && p == Perm(a, x)))
      case RemovePerm(r, a, x) => Binding(subject, role) in s.bindings && Entry(s, role, p) && !(role == r && p == Perm(a, x))
      case AddBinding(u, r) => (Binding(subject, role) in s.bindings || (subject == u && role == r)) && Entry(s, role, p)
      case RemoveBinding(u, r) => Binding(subject, role) in s.bindings && !(subject == u && role == r) && Entry(s, role, p)
  {
    BindingsAfter(s, op, Binding(subject, role));
    EntriesAfter(s, op, role, p);
  }

  lemma LessAccess(s: State, t: State, subject: string, action: string, resource: string, out: (string, Perm) -> bool)
    requires forall role, p :: By(t, subject, role, p, action, resource) <==> By(s, subject, role, p, action, resource) && !out(role, p)
    ensures Permitted(t, subject, action, resource) <==> PermittedBut(s, subject, action, resource, out)
  {
    AccessIff(t, subject, action, resource);
  }

  lemma MoreAccess(s: State, t: State, subject: string, action: string, resource: string, extra: (string, Perm) -> bool)
    requires forall role, p :: By(t, subject, role, p, action, resource) <==> By(s, subject, role, p, action, resource) || extra(role, p)
    ensures Permitted(t, subject, action, resource) <==> Permitted(s, subject, action, resource) || exists role, p :: extra(role, p)
  {
    AccessIff(s, subject, action, resource);
    AccessIff(t, subject, action, resource);
    if exists role, p :: extra(role, p) {
      var role, p :| extra(role, p);
      assert By(t, subject, role, p, action, resource);
    }
  }

  lemma TakenAccess(s: State, op: Op, subject: string, action: string, resource: string, out: (string, Perm) -> bool)
    requires WellFormed(s) && Apply(s, op).1 == 0
    requires match op
      case RemoveRole(name) => forall role, p :: out(role, p) <==> role == name
      case RemovePerm(r, a, x) => forall role, p :: out(role, p) <==> role == r && p == Perm(a, x)
      case RemoveBinding(u, r) => forall role, p :: out(role, p) <==> subject == u && role == r
      case _ => false
    ensures Permitted(Apply(s, op).0, subject, action, resource) <==> PermittedBut(s, subject, action, resource, out)
  {
    var t := Apply(s, op).0;
    forall role, p
      ensures By(t, subject, role, p, action, resource) <==> By(s, subject, role, p, action, resource) && !out(role, p)
    {
      ByAfter(s, op, subject, role, p, action, resource);
    }
    LessAccess(s, t, subject, action, resource, out);
  }

  lemma GivenAccess(s: State, op: Op, subject: string, action: string, resource: string, extra: (string, Perm) -> bool)
    requires WellFormed(s) && Apply(s, op).1 == 0
    requires match op
      case AddRole(_, _) => forall role, p :: !extra(role, p)
      case AddPerm(r, a, x) => forall role, p ::
        extra(role, p) <==> Binding(subject, r) in s.bindings && role == r && p == Perm(a, x) && Grants(p, action, resource)
      case AddBinding(u, r) => forall role, p ::
        extra(role, p) <==> subject == u && role == r && Entry(s, r, p) && Grants(p, action, resource)
      case _ => false
    ensures Permitted(Apply(s, op).0, subject, action, resource) <==>
            Permitted(s, subject, action, resource) || exists role, p :: extra(role, p)
  {
    var t := Apply(s, op).0;
    forall role, p
      ensures By(t, subject, role, p, action, resource) <==> By(s, subject, role, p, action, resource) || extra(role, p)
    {
      ByAfter(s, op, subject, role, p, action, resource);
    }
    MoreAccess(s, t, subject, action, resource, extra);
  }

  /**
    What a subject may do after an operation that succeeds: removing a role takes
    what only that role granted, from those bound to it; removing an entry takes what
    only that entry granted; revoking takes from the one subject what only that role
    granted it, and from nobody else anything; adding gives accordingly.
   */
  lemma AccessAfter(s: State, op: Op, subject: string, action: string, resource: string)
    requires WellFormed(s) && Apply(s, op).1 == 0
    ensures Permitted(Apply(s, op).0, subject, action, resource) <==>
      match op
      case AddRole(_, _) => Permitted(s, subject, action, resource)
      case RemoveRole(name) => PermittedBut(s, subject, action, resource, (role, p) => role == name)
      case AddPerm(r, a, x) =>
        Permitted(s, subject, action, resource) || (Binding(subject, r) in s.bindings && Grants(Perm(a, x), action, resource))
      case RemovePerm(r, a, x) =>
        PermittedBut(s, subject, action, resource, (role, p) => role == r && p == Perm(a, x))
      case AddBinding(u, r) =>
        Permitted(s, subject, action, resource) || (subject == u && exists p :: Entry(s, r, p) && Grants(p, action, resource))
      case RemoveBinding(u, r) =>
        PermittedBut(s, subject, action, resource, (role, p) => subject == u && role == r)
  {
    match op
    case AddRole(_, _) => GivenAccess(s, op, subject, action, resource, (role, p) => false);
    case RemoveRole(name) => TakenAccess(s, op, subject, action, resource, (role, p) => role == name);
    case AddPerm(r, a, x) =>
      var extra := (role, p) => Binding(subject, r) in s.bindings && role == r && p == Perm(a, x) && Grants(p, action, resource);
      GivenAccess(s, op, subject, action, resource, extra);
      assert (exists role, p :: extra(role, p)) <==> extra(r, Perm(a, x));
    case RemovePerm(r, a, x) => TakenAccess(s, op, subject, action, resource, (role, p) => role == r && p == Perm(a, x));
    case AddBinding(u, r) =>
      var extra := (role, p) => subject == u && role == r && Entry(s, r, p) && Grants(p, action, resource);
      GivenAccess(s, op, subject, action, resource, extra);
      assert forall p :: extra(r, p) <==> subject == u && Entry(s, r, p) && Grants(p, action, resource);
      assert forall role, p :: extra(role, p) ==> extra(r, p);
    case RemoveBinding(u, r) => TakenAccess(s, op, subject, action, resource, (role, p) => subject == u && role == r);
  }

  /** In particular a revocation changes nobody else's access. */
  lemma RevokeTouchesOne(s: State, subject: string, role: string, other: string, action: string, resource: string)
    requires WellFormed(s) && Revoke(s, subject, role).1 == 0 && other != subject
    ensures Permitted(Revoke(s, subject, role).0, other, action, resource) <==> Permitted(s, other, action, resource)
  {
    AccessAfter(s, RemoveBinding(subject, role), other, action, resource);
    AccessIff(s, other, action, resource);
  }

  // ---------------------------------------------------------------- when operations are refused

  /** A name: not empty, shorter than its buffer, no blank, line end or comment sign in it. */
  lemma TokensAre(s: string, max: nat)
    ensures TokenOk(s, max) <==> s != "" && |s| < max && forall c | c in s :: c !in " \t\r\n#" && c != NUL
  {
    if TokenOk(s, max) {
      assert forall c | c in s :: TokenChar(c);
    }
    if forall c | c in s :: c !in " \t\r\n#" && c != NUL {
      forall i | 0 <= i < |s|
        ensures TokenChar(s[i])
      {
        EdgeChars(s[i]);
      }
    }
  }

  lemma EdgeChars(c: char)
    requires c !in " \t\r\n#" && c != NUL
    ensures TokenChar(c)
  {
    var signs := " \t\r\n#";
    assert signs[0] in signs && signs[1] in signs && signs[2] in signs && signs[3] in signs && signs[4] in signs;
  }

  /** A free text: shorter than its buffer and on one line. */
  lemma TextsAre(s: string, max: nat)
    ensures FreeTextOk(s, max) <==> |s| < max && '\n' !in s && '\r' !in s && NUL !in s
  {
  }

  lemma PermHeld(s: State, role: string, p: Perm)
    requires WellFormed(s) && HasRole(s.roles, role)
    ensures Entry(s, role, p) <==> p in s.roles[FindRole(s.roles, role)].perms
  {
    RoleAt(s.roles, role);
  }

  ghost predicate Named(s: State, name: string) {
    exists r | r in s.roles :: r.name == name
  }

  lemma NamedIff(s: State, name: string)
    ensures Named(s, name) <==> HasRole(s.roles, name)
  {
    if Named(s, name) {
      var r :| r in s.roles && r.name == name;
      var i :| 0 <= i < |s.roles| && s.roles[i] == r;
    }
    if HasRole(s.roles, name) {
      assert s.roles[FindRole(s.roles, name)] in s.roles;
    }
  }

  ghost predicate Full(s: State, role: string) {
    exists r | r in s.roles :: r.name == role && |r.perms| >= 64
  }

  lemma FullIff(s: State, role: string)
    requires WellFormed(s) && HasRole(s.roles, role)
    ensures Full(s, role) <==> |s.roles[FindRole(s.roles, role)].perms| >= ROLE_MAX_PERMS
  {
    RoleAt(s.roles, role);
  }

  /** The code of every operation: what it is refused for, in the order the checks are made. */
  lemma CodeOf(s: State, op: Op)
    requires WellFormed(s)
    ensures Apply(s, op).1 ==
      match op
      case AddRole(name, d) =>
        if !TokenOk(name, 64) || !FreeTextOk(d, 256) then EINVAL else if Named(s, name) then EEXIST else 0
      case RemoveRole(name) => if Named(s, name) then 0 else ENOENT
      case AddPerm(role, action, resource) =>
        if !Named(s, role) then ENOENT else if !TokenOk(action, 64) || !FreeTextOk(resource, 256) then EINVAL
        else if Entry(s, role, Perm(action, resource)) then EEXIST else if Full(s, role) then ENOSPC else 0
      case RemovePerm(role, action, resource) =>
        if !Named(s, role) then ENOENT else if !TokenOk(action, 64) || !FreeTextOk(resource, 256) then EINVAL
        else if Entry(s, role, Perm(action, resource)) then 0 else ENOENT
      case AddBinding(subject, role) =>
        if !TokenOk(subject, 128) || !TokenOk(role, 64) then EINVAL else if !Named(s, role) then ENOENT
        else if Binding(subject, role) in s.bindings then EEXIST else 0
      case RemoveBinding(subject, role) =>
        if !TokenOk(subject, 128) || !TokenOk(role, 64) then EINVAL
        else if Binding(subject, role) in s.bindings then 0 else ENOENT
  {
    match op
    case AddRole(name, _) => NamedIff(s, name);
    case RemoveRole(name) => NamedIff(s, name);
    case AddPerm(role, action, resource) =>
      NamedIff(s, role);
      if HasRole(s.roles, role) {
        PermHeld(s, role, Perm(action, resource));
        FullIff(s, role);
      }
    case RemovePerm(role, action, resource) =>
      NamedIff(s, role);
      if HasRole(s.roles, role) {
        PermHeld(s, role, Perm(action, resource));
      }
    case AddBinding(_, role) => NamedIff(s, role);
    case RemoveBinding(_, _) =>
  }
}
