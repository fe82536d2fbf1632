/**
  Saving a policy and loading it back: what comes back, exactly, and when it is
  the policy that was saved.
 */
module PolicyRoundTrip {
  import opened CText
  import opened Policy
  import opened PolicyText
  import opened PolicyPasses

  // ---------------------------------------------------------------- lines as they are kept

  predicate GoodLine(l: string) {
    l != [] && '\n' !in l && NUL !in l && |l| + 1 < LINE_MAX && !IsEdge(l[0])
  }

  function Bare(lines: seq<string>): seq<string> {
    if lines == [] then []
    else if lines[0] != [] && lines[0][0] == '#' then Bare(lines[1..])
    else [TrimEnd(lines[0])] + Bare(lines[1..])
  }

  lemma {:induction false} BareAppend(a: seq<string>, b: seq<string>)
    ensures Bare(a + b) == Bare(a) + Bare(b)
  {
    if a == [] {
      assert a + b == b;
    } else {
      BareAppend(a[1..], b);
      AppendHead(a, b);
    }
  }

  lemma TrimKept(l: string)
    requires GoodLine(l)
    ensures Trim(CStr(l + "\n")) == TrimEnd(l)
    ensures TrimEnd(l) != [] && TrimEnd(l)[0] == l[0]
  {
    CStrId(l + "\n");
    assert SkipBlanks(l + "\n") == l + "\n";
    assert (l + "\n")[..|l|] == l;
    assert TrimEnd(l + "\n") == TrimEnd(l);
    TrimEndAfter([l[0]], l[1..]);
    assert [l[0]] + l[1..] == l;
  }

  /** A text written line by line is kept line by line, trimmed, without its comments. */
  lemma {:induction false} KeptText(lines: seq<string>)
    requires forall i | 0 <= i < |lines| :: GoodLine(lines[i])
    ensures Kept(FileLines(ConcatMap(Terminated, lines), LINE_MAX)) == Bare(lines)
  {
    if lines != [] {
      var l, rest := lines[0], ConcatMap(Terminated, lines[1..]);
      KeptText(lines[1..]);
      FileLinesCons(l, rest, LINE_MAX);
      TrimKept(l);
      var buffers := FileLines(l + "\n" + rest, LINE_MAX);
      assert buffers[0] == l + "\n" && buffers[1..] == FileLines(rest, LINE_MAX);
    }
  }

  // ---------------------------------------------------------------- tokens

  predicate Word(w: string) {
    w != [] && forall i | 0 <= i < |w| :: !IsBlank(w[i])
  }

  lemma {:induction false} WordLengthOf(w: string, rest: string)
    requires forall i | 0 <= i < |w| :: !IsBlank(w[i])
    requires rest == [] || IsBlank(rest[0])
    ensures WordLength(w + rest) == |w|
  {
    if w != [] {
      WordLengthOf(w[1..], rest);
      assert (w + rest)[1..] == w[1..] + rest;
    } else {
      assert w + rest == rest;
    }
  }

  lemma TokenFirst(w: string, rest: string, cap: nat)
    requires Word(w) && |w| < cap && (rest == [] || IsBlank(rest[0]))
    ensures TakeToken(w + rest, cap) == Token(w, rest)
  {
    WordLengthOf(w, rest);
    assert SkipBlanks(w + rest) == w + rest;
    assert (w + rest)[..|w|] == w && (w + rest)[|w|..] == rest;
  }

  lemma TokenAfterBlank(t: string, cap: nat)
    ensures TakeToken(" " + t, cap) == TakeToken(t, cap)
  {
    assert (" " + t)[1..] == t;
  }

  lemma TokenNext(w: string, rest: string, cap: nat)
    requires Word(w) && |w| < cap && (rest == [] || IsBlank(rest[0]))
    ensures TakeToken(" " + w + rest, cap) == Token(w, rest)
  {
    TokenFirst(w, rest, cap);
    TokenAfterBlank(w + rest, cap);
    ConcatAssoc(" ", w, rest);
  }

  lemma TokenIsWordOk(s: string, max: nat)
    requires TokenOk(s, max)
    ensures Word(s) && !IsEdge(s[0]) && !IsEdge(s[|s| - 1]) && '\n' !in s && NUL !in s
  {
    assert TokenChar(s[0]) && TokenChar(s[|s| - 1]);
    assert forall i | 0 <= i < |s| :: TokenChar(s[i]);
  }

  // ---------------------------------------------------------------- single lines

  lemma TrimFree(text: string, max: nat)
    requires FreeTextOk(text, max)
    ensures FreeTextOk(Trim(text), max)
  {
    var b := SkipBlanks(text);
    var t := Trim(text);
    assert t <= b;
    forall i | 0 <= i < |t|
      ensures TextChar(t[i])
    {
      assert t[i] == b[i] == text[|text| - |b| + i];
    }
  }

  /** The trimmed last field of a line is a blank or nothing, and trims to the trimmed field. */
  lemma TailTrim(text: string)
    ensures TrimEnd(Tail(text)) == [] || IsBlank(TrimEnd(Tail(text))[0])
    ensures Trim(TrimEnd(Tail(text))) == Trim(text)
  {
    TrimAfterTrimEnd(Tail(text));
    if text != [] {
      TrimBlankFront(text);
    }
  }

  lemma Kind(s: State, kind: string, rest: string)
    requires kind in {"role", "perm", "grant"} && (rest == [] || IsBlank(rest[0]))
    ensures ApplyLine(s, kind + rest) == ApplyDirective(s, kind, rest)
  {
    TokenFirst(kind, rest, KIND_MAX);
  }

  /** The first letter alone tells the directives apart. */
  lemma KindPass(kind: string, rest: string)
    requires kind in {"role", "perm", "grant"}
    ensures ForRoles(kind + rest) <==> kind == "role"
    ensures ForEntries(kind + rest) <==> kind == "perm" || kind == "grant"
  {
    var line := kind + rest;
    assert line[0] == kind[0] && kind <= line;
    assert "role"[0] == 'r' && "perm"[0] == 'p' && "grant"[0] == 'g';
  }

  lemma RoleDirective(s: State, rest: string)
    requires rest == [] || IsBlank(rest[0])
    ensures RoleStep(s, "role" + rest) == ApplyRole(s, rest) && EntryStep(s, "role" + rest) == s
  {
    Kind(s, "role", rest);
    KindPass("role", rest);
  }

  lemma PermDirective(s: State, rest: string)
    requires rest == [] || IsBlank(rest[0])
    ensures RoleStep(s, "perm" + rest) == s && EntryStep(s, "perm" + rest) == ApplyPerm(s, rest)
  {
    Kind(s, "perm", rest);
    KindPass("perm", rest);
  }

  lemma GrantDirective(s: State, rest: string)
    requires rest == [] || IsBlank(rest[0])
    ensures RoleStep(s, "grant" + rest) == s && EntryStep(s, "grant" + rest) == ApplyGrant(s, rest)
  {
    Kind(s, "grant", rest);
    KindPass("grant", rest);
  }

  lemma RoleFields(s: State, name: string, tail: string, description: string)
    requires TokenOk(name, NAME_MAX) && FreeTextOk(description, DESC_MAX) && !HasRole(s.roles, name)
    requires (tail == [] || IsBlank(tail[0])) && Trim(tail) == description
    ensures ApplyRole(s, " " + name + tail) == s.(roles := s.roles + [Role(name, description, [])])
  {
    TokenIsWordOk(name, NAME_MAX);
    TokenNext(name, tail, NAME_MAX);
  }

  lemma PermTokens(s: State, rest: string, name: string, tail: string)
    requires TakeToken(rest, NAME_MAX) == Token(name, tail)
    ensures ApplyPerm(s, rest) == ApplyEntry(s, name, tail)
  {
  }

  lemma EntryTokens(s: State, name: string, tail: string, action: string, last: string)
    requires TakeToken(tail, ACTION_MAX) == Token(action, last) && |Trim(last)| < RESOURCE_MAX
    ensures ApplyEntry(s, name, tail) == RoleAddPerm(s, name, action, Trim(last)).0
  {
  }

  /** The name and, after it, any text that starts with a blank. */
  lemma NameToken(name: string, rest: string)
    requires TokenOk(name, NAME_MAX) && (rest == [] || IsBlank(rest[0]))
    ensures TakeToken(" " + name + rest, NAME_MAX) == Token(name, rest)
  {
    TokenIsWordOk(name, NAME_MAX);
    TokenNext(name, rest, NAME_MAX);
  }

  lemma ActionToken(action: string, tail: string)
    requires TokenOk(action, ACTION_MAX) && (tail == [] || IsBlank(tail[0]))
    ensures TakeToken(" " + action + tail, ACTION_MAX) == Token(action, tail)
    ensures IsBlank((" " + action + tail)[0])
  {
    TokenIsWordOk(action, ACTION_MAX);
    TokenNext(action, tail, ACTION_MAX);
  }

  lemma PermFields(s: State, name: string, action: string, tail: string, resource: string)
    requires TokenOk(name, NAME_MAX) && TokenOk(action, ACTION_MAX) && |resource| < RESOURCE_MAX
    requires (tail == [] || IsBlank(tail[0])) && Trim(tail) == resource
    ensures ApplyPerm(s, " " + name + (" " + action + tail)) == RoleAddPerm(s, name, action, resource).0
  {
    var rest := " " + action + tail;
    ActionToken(action, tail);
    NameToken(name, rest);
    PermTokens(s, " " + name + rest, name, rest);
    EntryTokens(s, name, rest, action, tail);
  }

  lemma GrantFields(s: State, subject: string, role: string)
    requires WordOk(subject, SUBJECT_MAX) && TokenOk(role, NAME_MAX)
    requires HasRole(s.roles, role) && Binding(subject, role) !in s.bindings
    ensures ApplyGrant(s, " " + subject + (" " + role)) == s.(bindings := s.bindings + [Binding(subject, role)])
  {
    TokenIsWordOk(role, NAME_MAX);
    assert forall i | 0 <= i < |subject| :: WordChar(subject[i]);
    TokenNext(subject, " " + role, SUBJECT_MAX);
    assert " " + role + [] == " " + role;
    TokenNext(role, [], NAME_MAX);
  }

  lemma RoleLineTrimmed(name: string, description: string)
    requires TokenOk(name, NAME_MAX)
    ensures TrimEnd("role " + name + Tail(description)) == "role" + (" " + name + TrimEnd(Tail(description)))
  {
    TokenIsWordOk(name, NAME_MAX);
    var head, tail := "role " + name, TrimEnd(Tail(description));
    TrimEndAfter(head, Tail(description));
    assert head + tail == "role" + (" " + name + tail);
  }

  lemma RoleLineStep(s: State, name: string, tail: string, description: string)
    requires TokenOk(name, NAME_MAX) && FreeTextOk(description, DESC_MAX)
    requires (tail == [] || IsBlank(tail[0])) && Trim(tail) == description
    ensures !HasRole(s.roles, name) ==>
      RoleStep(s, "role" + (" " + name + tail)) == s.(roles := s.roles + [Role(name, description, [])])
    ensures EntryStep(s, "role" + (" " + name + tail)) == s
  {
    RoleDirective(s, " " + name + tail);
    if !HasRole(s.roles, name) {
      RoleFields(s, name, tail, description);
    }
  }

  lemma RoleLineApplied(s: State, r: Role)
    requires RoleOk(r)
    ensures !HasRole(s.roles, r.name) ==> RoleStep(s, TrimEnd(RoleLine(r))) == s.(roles := s.roles + [BareRole(r)])
    ensures EntryStep(s, TrimEnd(RoleLine(r))) == s
  {
    RoleLineTrimmed(r.name, r.description);
    RoleTailStep(s, r.name, r.description);
  }

  lemma RoleTailStep(s: State, name: string, description: string)
    requires TokenOk(name, NAME_MAX) && FreeTextOk(description, DESC_MAX)
    ensures var line := "role" + (" " + name + TrimEnd(Tail(description)));
      && (!HasRole(s.roles, name) ==> RoleStep(s, line) == s.(roles := s.roles + [Role(name, Trim(description), [])]))
      && EntryStep(s, line) == s
  {
    TrimFree(description, DESC_MAX);
    TailTrim(description);
    RoleLineStep(s, name, TrimEnd(Tail(description)), Trim(description));
  }

  lemma PermLineTrimmed(name: string, action: string, resource: string)
    requires TokenOk(action, ACTION_MAX)
    ensures TrimEnd("perm " + name + " " + action + Tail(resource)) ==
            "perm" + (" " + name + (" " + action + TrimEnd(Tail(resource))))
  {
    TokenIsWordOk(action, ACTION_MAX);
    var head, tail := "perm " + name + " " + action, TrimEnd(Tail(resource));
    TrimEndAfter(head, Tail(resource));
    assert head + tail == "perm" + (" " + name + (" " + action + tail));
  }

  lemma PermLineStep(s: State, name: string, action: string, tail: string, resource: string)
    requires TokenOk(name, NAME_MAX) && TokenOk(action, ACTION_MAX) && |resource| < RESOURCE_MAX
    requires (tail == [] || IsBlank(tail[0])) && Trim(tail) == resource
    ensures var line := "perm" + (" " + name + (" " + action + tail));
      RoleStep(s, line) == s && EntryStep(s, line) == RoleAddPerm(s, name, action, resource).0
  {
    PermDirective(s, " " + name + (" " + action + tail));
    PermFields(s, name, action, tail, resource);
  }

  lemma PermLineApplied(s: State, name: string, p: Perm)
    requires TokenOk(name, NAME_MAX) && EntryOk(p)
    ensures EntryStep(s, TrimEnd(PermLine(name, p))) == RoleAddPerm(s, name, p.action, Trim(p.resource)).0
    ensures RoleStep(s, TrimEnd(PermLine(name, p))) == s
  {
    PermLineTrimmed(name, p.action, p.resource);
    TrimFree(p.resource, RESOURCE_MAX);
    TailTrim(p.resource);
    PermLineStep(s, name, p.action, TrimEnd(Tail(p.resource)), Trim(p.resource));
  }

  lemma GrantLineTrimmed(subject: string, role: string)
    requires TokenOk(role, NAME_MAX)
    ensures TrimEnd("grant " + subject + " " + role) == "grant" + (" " + subject + (" " + role))
  {
    TokenIsWordOk(role, NAME_MAX);
    assert "grant " + subject + " " + role == "grant" + (" " + subject + (" " + role));
  }

  lemma GrantLineApplied(s: State, b: Binding)
    requires WordOk(b.subject, SUBJECT_MAX) && TokenOk(b.role, NAME_MAX)
    ensures HasRole(s.roles, b.role) && b !in s.bindings ==>
      EntryStep(s, TrimEnd(GrantLine(b))) == s.(bindings := s.bindings + [b])
    ensures RoleStep(s, TrimEnd(GrantLine(b))) == s
  {
    GrantLineTrimmed(b.subject, b.role);
    GrantDirective(s, " " + b.subject + (" " + b.role));
    if HasRole(s.roles, b.role) && b !in s.bindings {
      GrantFields(s, b.subject, b.role);
    }
  }

  // ---------------------------------------------------------------- effects of the saved lines

  ghost predicate EntryOk(p: Perm) {
    TokenOk(p.action, ACTION_MAX) && FreeTextOk(p.resource, RESOURCE_MAX)
  }

  ghost predicate GrantOk(b: Binding) {
    WordOk(b.subject, SUBJECT_MAX) && TokenOk(b.role, NAME_MAX)
  }

  /** A block for each role. */
  function BlockOf(r: Role): Block {
    Block(TrimEnd(RoleLine(r)), Bare(PermLines(r.name, r.perms)), BareRole(r), NormRole(r))
  }

  function BlocksOf(roles: seq<Role>): (blocks: seq<Block>)
    ensures |blocks| == |roles| && forall i | 0 <= i < |blocks| :: blocks[i] == BlockOf(roles[i])
  {
    if roles == [] then [] else [BlockOf(roles[0])] + BlocksOf(roles[1..])
  }

  lemma RoleLineEffect(r: Role)
    requires RoleOk(r)
    ensures AddsRole(RoleStep, TrimEnd(RoleLine(r)), BareRole(r)) && Skipped(EntryStep, TrimEnd(RoleLine(r)))
  {
    forall s: State
      ensures EntryStep(s, TrimEnd(RoleLine(r))) == s
      ensures !HasRole(s.roles, r.name) ==> RoleStep(s, TrimEnd(RoleLine(r))) == s.(roles := s.roles + [BareRole(r)])
    {
      RoleLineApplied(s, r);
    }
  }

  /** One entry of the i-th role: added unless it is there already. */
  lemma EntryAdded(s: State, i: nat, p: Perm)
    requires i < |s.roles| && FindRole(s.roles, s.roles[i].name) == i
    requires EntryOk(p) && |s.roles[i].perms| < ROLE_MAX_PERMS
    ensures RoleAddPerm(s, s.roles[i].name, p.action, Trim(p.resource)).0 ==
            WithPerms(s, i, AddOnce(s.roles[i].perms, NormPerm(p)))
  {
    TrimFree(p.resource, RESOURCE_MAX);
    WithPermsTwice(s, i, [], []);
  }

  lemma PermLineEffect(name: string, p: Perm)
    requires TokenOk(name, NAME_MAX) && EntryOk(p)
    ensures AddsPerm(EntryStep, TrimEnd(PermLine(name, p)), name, NormPerm(p))
    ensures Skipped(RoleStep, TrimEnd(PermLine(name, p)))
  {
    var line := TrimEnd(PermLine(name, p));
    forall s: State
      ensures RoleStep(s, line) == s
      ensures var i := FindRole(s.roles, name);
        i < |s.roles| && |s.roles[i].perms| < ROLE_MAX_PERMS ==>
          EntryStep(s, line) == WithPerms(s, i, AddOnce(s.roles[i].perms, NormPerm(p)))
    {
      PermLineApplied(s, name, p);
      var i := FindRole(s.roles, name);
      if i < |s.roles| && |s.roles[i].perms| < ROLE_MAX_PERMS {
        EntryAdded(s, i, p);
      }
    }
  }

  lemma GrantLineEffect(b: Binding)
    requires GrantOk(b)
    ensures AddsBinding(EntryStep, TrimEnd(GrantLine(b)), b) && Skipped(RoleStep, TrimEnd(GrantLine(b)))
  {
    forall s: State
      ensures RoleStep(s, TrimEnd(GrantLine(b))) == s
      ensures HasRole(s.roles, b.role) && b !in s.bindings ==>
                EntryStep(s, TrimEnd(GrantLine(b))) == s.(bindings := s.bindings + [b])
    {
      GrantLineApplied(s, b);
    }
  }

  lemma BareHead(line: string, rest: seq<string>)
    requires line != [] && line[0] != '#'
    ensures Bare([line] + rest) == [TrimEnd(line)] + Bare(rest)
  {
    assert ([line] + rest)[1..] == rest;
  }

  lemma Starts(r: Role, p: Perm, b: Binding, name: string)
    ensures RoleLine(r) != [] && RoleLine(r)[0] == 'r'
    ensures PermLine(name, p) != [] && PermLine(name, p)[0] == 'p'
    ensures GrantLine(b) != [] && GrantLine(b)[0] == 'g'
  {
  }

  lemma {:induction false} PermLinesEffect(name: string, perms: seq<Perm>)
    requires TokenOk(name, NAME_MAX) && forall j | 0 <= j < |perms| :: EntryOk(perms[j])
    ensures PermsOk(RoleStep, EntryStep, Bare(PermLines(name, perms)), name, perms)
  {
    if perms != [] {
      PermLineEffect(name, perms[0]);
      PermLinesEffect(name, perms[1..]);
      Starts(Role([], [], []), perms[0], Binding([], []), name);
      BareHead(PermLine(name, perms[0]), PermLines(name, perms[1..]));
      PermsOkCons(RoleStep, EntryStep, TrimEnd(PermLine(name, perms[0])), Bare(PermLines(name, perms[1..])), name, perms);
    }
  }

  lemma {:induction false} GrantLinesEffect(bindings: seq<Binding>)
    requires forall b | 0 <= b < |bindings| :: GrantOk(bindings[b])
    ensures GrantsOk(RoleStep, EntryStep, Bare(GrantLines(bindings)), bindings)
  {
    if bindings != [] {
      GrantLineEffect(bindings[0]);
      GrantLinesEffect(bindings[1..]);
      Starts(Role([], [], []), Perm([], []), bindings[0], []);
      BareHead(GrantLine(bindings[0]), GrantLines(bindings[1..]));
    }
  }

  lemma BlockEffect(r: Role)
    requires RoleOk(r)
    ensures BlockOk(RoleStep, EntryStep, BlockOf(r))
  {
    RoleLineEffect(r);
    PermLinesEffect(r.name, r.perms);
    BlockByPerms(RoleStep, EntryStep, BlockOf(r), r);
  }

  lemma {:induction false} RoleLinesBare(roles: seq<Role>)
    ensures Bare(RoleLines(roles)) == BlockLines(BlocksOf(roles))
  {
    if roles != [] {
      var r := roles[0];
      RoleLinesBare(roles[1..]);
      Starts(r, Perm([], []), Binding([], []), []);
      ConcatAssoc([RoleLine(r)], PermLines(r.name, r.perms), RoleLines(roles[1..]));
      BareHead(RoleLine(r), PermLines(r.name, r.perms) + RoleLines(roles[1..]));
      BareAppend(PermLines(r.name, r.perms), RoleLines(roles[1..]));
      ConcatAssoc([TrimEnd(RoleLine(r))], Bare(PermLines(r.name, r.perms)), Bare(RoleLines(roles[1..])));
      BlocksNext(roles);
    }
  }

  lemma BlocksNext(roles: seq<Role>)
    requires roles != []
    ensures BlocksOf(roles)[0] == BlockOf(roles[0]) && BlocksOf(roles)[1..] == BlocksOf(roles[1..])
  {
  }

  lemma BoundRolesOk(s: State)
    requires WellFormed(s)
    ensures forall b | 0 <= b < |s.bindings| :: GrantOk(s.bindings[b])
  {
    forall b | 0 <= b < |s.bindings|
      ensures GrantOk(s.bindings[b])
    {
      assert RoleOk(s.roles[FindRole(s.roles, s.bindings[b].role)]);
    }
  }

  lemma BlocksFacts(s: State)
    requires WellFormed(s)
    ensures forall i | 0 <= i < |s.roles| :: BlockOk(RoleStep, EntryStep, BlocksOf(s.roles)[i])
    ensures UniqueRoles(Bares(BlocksOf(s.roles))) && Norms(BlocksOf(s.roles)) == Norm(s).roles
    ensures forall b | 0 <= b < |s.bindings| :: HasRole(Norms(BlocksOf(s.roles)), s.bindings[b].role)
  {
    forall i | 0 <= i < |s.roles|
      ensures BlockOk(RoleStep, EntryStep, BlocksOf(s.roles)[i])
    {
      BlockEffect(s.roles[i]);
    }
    NormKeepsRoles(s.roles);
  }

  lemma NormKeepsRoles(roles: seq<Role>)
    ensures Norms(BlocksOf(roles)) == MapRoles(NormRole, roles)
    ensures forall name | HasRole(roles, name) :: HasRole(MapRoles(NormRole, roles), name)
  {
    var m := MapRoles(NormRole, roles);
    forall name | HasRole(roles, name)
      ensures HasRole(m, name)
    {
      assert m[FindRole(roles, name)].name == name;
      HasRoleIff(m, name);
    }
  }

  /** The two passes over the directives of a policy. */
  lemma DirectivesLoaded(s: State)
    requires WellFormed(s)
    ensures LoadLines(Bare(Directives(s))) == Norm(s)
  {
    var blocks, grants := BlocksOf(s.roles), Bare(GrantLines(s.bindings));
    BareAppend(RoleLines(s.roles), GrantLines(s.bindings));
    RoleLinesBare(s.roles);
    BoundRolesOk(s);
    GrantLinesEffect(s.bindings);
    BlocksFacts(s);
    FirstPass(RoleStep, EntryStep, blocks, grants, s.bindings);
    SecondPass(RoleStep, EntryStep, blocks, grants, s.bindings);
  }

  // ---------------------------------------------------------------- line lengths

  lemma LinesOk(s: State)
    requires WellFormed(s)
    ensures forall i | 0 <= i < |Directives(s)| :: GoodLine(Directives(s)[i])
  {
    RoleLinesGood(s.roles);
    BoundRolesOk(s);
    GrantLinesGood(s.bindings);
  }

  lemma TailClean(text: string, max: nat)
    requires FreeTextOk(text, max)
    ensures '\n' !in Tail(text) && NUL !in Tail(text) && |Tail(text)| <= max
  {
    assert forall i | 0 <= i < |text| :: TextChar(text[i]);
  }

  lemma RoleLineGood(r: Role)
    requires RoleOk(r)
    ensures GoodLine(RoleLine(r))
  {
    TokenIsWordOk(r.name, NAME_MAX);
    TailClean(r.description, DESC_MAX);
    assert RoleLine(r)[0] == 'r';
  }

  lemma PermLineGood(name: string, p: Perm)
    requires TokenOk(name, NAME_MAX) && EntryOk(p)
    ensures GoodLine(PermLine(name, p))
  {
    TokenIsWordOk(name, NAME_MAX);
    TokenIsWordOk(p.action, ACTION_MAX);
    TailClean(p.resource, RESOURCE_MAX);
    assert PermLine(name, p)[0] == 'p';
  }

  lemma {:induction false} PermLinesGood(name: string, perms: seq<Perm>)
    requires TokenOk(name, NAME_MAX)
    requires forall j | 0 <= j < |perms| :: EntryOk(perms[j])
    ensures forall i | 0 <= i < |PermLines(name, perms)| :: GoodLine(PermLines(name, perms)[i])
  {
    if perms != [] {
      PermLineGood(name, perms[0]);
      PermLinesGood(name, perms[1..]);
    }
  }

  lemma {:induction false} RoleLinesGood(roles: seq<Role>)
    requires forall i | 0 <= i < |roles| :: RoleOk(roles[i])
    ensures forall i | 0 <= i < |RoleLines(roles)| :: GoodLine(RoleLines(roles)[i])
  {
    if roles != [] {
      RoleLineGood(roles[0]);
      PermLinesGood(roles[0].name, roles[0].perms);
      RoleLinesGood(roles[1..]);
    }
  }

  lemma GrantLineGood(b: Binding)
    requires WordOk(b.subject, SUBJECT_MAX) && TokenOk(b.role, NAME_MAX)
    ensures GoodLine(GrantLine(b))
  {
    TokenIsWordOk(b.role, NAME_MAX);
    assert forall i | 0 <= i < |b.subject| :: WordChar(b.subject[i]);
    assert GrantLine(b)[0] == 'g';
  }

  lemma {:induction false} GrantLinesGood(bindings: seq<Binding>)
    requires forall b | 0 <= b < |bindings| :: WordOk(bindings[b].subject, SUBJECT_MAX) && TokenOk(bindings[b].role, NAME_MAX)
    ensures forall i | 0 <= i < |GrantLines(bindings)| :: GoodLine(GrantLines(bindings)[i])
  {
    if bindings != [] {
      GrantLineGood(bindings[0]);
      GrantLinesGood(bindings[1..]);
    }
  }

  predicate Piece(s: string) {
    s != [] && '\n' !in s && NUL !in s && |s| < 60
  }

  /** A line of a comment's pieces. */
  lemma PiecesGood(a: string, b: string, c: string)
    requires Piece(a) && Piece(b) && Piece(c) && a[0] == '#'
    ensures CommentLine(a + b + c)
  {
    assert (a + b + c)[0] == a[0];
  }

  lemma TitlePieces()
    ensures Piece(TITLE_1) && TITLE_1[0] == '#' && Piece(TITLE_2) && Piece(TITLE_3)
  {
  }

  lemma RoleFormatPiece()
    ensures Piece(ROLE_FORMAT) && ROLE_FORMAT[0] == '#'
  {
  }

  lemma PermFormatPiece()
    ensures Piece(PERM_FORMAT)
  {
  }

  lemma GrantFormatPiece()
    ensures Piece(GRANT_FORMAT)
  {
  }

  ghost predicate CommentLine(l: string) {
    GoodLine(l) && l[0] == '#'
  }

  lemma HeaderGood()
    ensures HEADER == [HEADER[0], HEADER[1]] && CommentLine(HEADER[0]) && CommentLine(HEADER[1])
  {
    TitlePieces();
    PiecesGood(TITLE_1, TITLE_2, TITLE_3);
    RoleFormatPiece();
    PermFormatPiece();
    GrantFormatPiece();
    PiecesGood(ROLE_FORMAT, PERM_FORMAT, GRANT_FORMAT);
  }

  // ---------------------------------------------------------------- main results

  /** Saving any well-formed policy and loading the file gives back the policy with its free texts trimmed. */
  lemma LoadSaved(s: State)
    requires WellFormed(s)
    ensures Load(SaveText(s)) == Norm(s)
  {
    HeaderGood();
    LinesOk(s);
    CommentsDropped(HEADER, Directives(s));
    KeptText(HEADER + Directives(s));
    DirectivesLoaded(s);
  }

  lemma CommentsDropped(header: seq<string>, lines: seq<string>)
    requires |header| == 2 && CommentLine(header[0]) && CommentLine(header[1])
    requires forall i | 0 <= i < |lines| :: GoodLine(lines[i])
    ensures Bare(header + lines) == Bare(lines)
    ensures forall i | 0 <= i < |header + lines| :: GoodLine((header + lines)[i])
  {
    var all := header + lines;
    assert all[0] == header[0] && all[1..][0] == header[1];
    assert all[1..][1..] == lines;
  }

  ghost predicate AllTrimmed(perms: seq<Perm>) {
    forall j | 0 <= j < |perms| :: Trim(perms[j].resource) == perms[j].resource
  }

  ghost predicate TidyRole(r: Role) {
    Trim(r.description) == r.description && AllTrimmed(r.perms)
  }

  /** No description and no resource has blanks at its edges. */
  ghost predicate Tidy(s: State) {
    forall i | 0 <= i < |s.roles| :: TidyRole(s.roles[i])
  }

  lemma {:induction false} NormPermsTidy(acc: seq<Perm>, todo: seq<Perm>)
    requires Distinct(acc + todo) && AllTrimmed(todo)
    ensures NormPerms(acc, todo) == acc + todo
    decreases |todo|
  {
    if todo == [] {
      assert acc + todo == acc;
    } else {
      ConcatHead(acc, todo);
      FreshInDistinct(acc, todo[0], todo[1..]);
      NormPermsTidy(acc + [todo[0]], todo[1..]);
    }
  }

  lemma AllTrimmedNext(acc: seq<Perm>, p: Perm)
    requires AllTrimmed(acc) && Trim(p.resource) == p.resource
    ensures AllTrimmed(acc + [p])
  {
  }

  lemma {:induction false} NormPermsTrimmed(acc: seq<Perm>, todo: seq<Perm>)
    requires AllTrimmed(acc)
    ensures AllTrimmed(NormPerms(acc, todo))
    decreases |todo|
  {
    if todo != [] {
      var p := NormPerm(todo[0]);
      TrimTwice(todo[0].resource);
      AllTrimmedNext(acc, p);
      NormPermsTrimmed(AddOnce(acc, p), todo[1..]);
    }
  }

  lemma NormRoleTidy(r: Role)
    ensures TidyRole(NormRole(r))
  {
    TrimTwice(r.description);
    NormPermsTrimmed([], r.perms);
  }

  lemma TidyRoleSame(r: Role)
    requires RoleOk(r) && TidyRole(r)
    ensures NormRole(r) == r
  {
    assert [] + r.perms == r.perms;
    NormPermsTidy([], r.perms);
  }

  lemma NormRoleIff(r: Role)
    requires RoleOk(r)
    ensures NormRole(r) == r <==> TidyRole(r)
  {
    NormRoleTidy(r);
    if TidyRole(r) {
      TidyRoleSame(r);
    }
  }

  lemma {:induction false} NormRolesIff(roles: seq<Role>)
    requires forall i | 0 <= i < |roles| :: RoleOk(roles[i])
    ensures MapRoles(NormRole, roles) == roles <==> forall i | 0 <= i < |roles| :: TidyRole(roles[i])
  {
    var m := MapRoles(NormRole, roles);
    forall i | 0 <= i < |roles|
      ensures m[i] == roles[i] <==> TidyRole(roles[i])
    {
      NormRoleIff(roles[i]);
    }
  }

  lemma NormIff(s: State)
    requires WellFormed(s)
    ensures Norm(s) == s <==> Tidy(s)
  {
    NormRolesIff(s.roles);
  }

  /**
    A saved policy is loaded back identically, orders included, if and only if
    no description and no resource has blanks at its edges.
   */
  lemma RoundTripIff(s: State)
    requires WellFormed(s)
    ensures Load(SaveText(s)) == s <==> Tidy(s)
  {
    LoadSaved(s);
    NormIff(s);
  }

  lemma BlankRoleAdded()
    ensures Apply(EMPTY, AddRole("r", "x ")) == (State([Role("r", "x ", [])], []), 0)
  {
    assert TokenOk("r", NAME_MAX) && FreeTextOk("x ", DESC_MAX);
    assert [] + [Role("r", "x ", [])] == [Role("r", "x ", [])];
  }

  lemma BlankNotTidy(s: State)
    requires s.roles == [Role("r", "x ", [])]
    ensures !Tidy(s)
  {
    assert Trim("x ") != "x " by {
      assert "x "[..1] == "x" && "x "[1] == ' ';
    }
    assert !TidyRole(s.roles[0]);
  }

  /** A role whose description ends in a blank is accepted, and comes back without the blank. */
  lemma EdgeBlankLost()
    ensures var r := Apply(EMPTY, AddRole("r", "x ")); r.1 == 0 && Load(SaveText(r.0)) != r.0
  {
    var s := Apply(EMPTY, AddRole("r", "x ")).0;
    BlankRoleAdded();
    ApplyWellFormed(EMPTY, AddRole("r", "x "));
    BlankNotTidy(s);
    RoundTripIff(s);
  }

  /** What a restart leaves is stable: it survives every further save and load unchanged. */
  lemma SecondRestartIdentical(s: State)
    requires WellFormed(s)
    ensures var once := Load(SaveText(s)); WellFormed(once) && Tidy(once) && Load(SaveText(once)) == once
  {
    LoadSaved(s);
    LoadWellFormed(SaveText(s));
    forall i | 0 <= i < |s.roles|
      ensures TidyRole(Norm(s).roles[i])
    {
      NormRoleTidy(s.roles[i]);
    }
    RoundTripIff(Norm(s));
  }
}
