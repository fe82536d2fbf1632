/**
  The state file of a policy: one directive a line, written in full and read
  back in two passes (permission/src/permission_impl.c, state_write_locked,
  state_apply_line, state_read_locked).
 */
module PolicyText {
  import opened CText
  import opened Policy

  const LINE_MAX: nat := 4096
  const KIND_MAX: nat := 16
  /** The comment lines at the head; their non-ASCII characters stand for their bytes, and no reader looks at them. */
  const TITLE_1: string := "# HWRun OS PERMISSION"
  const TITLE_2: string := " 用户态 RBAC "
  const TITLE_3: string := "状态文件 v1"
  const TITLE: string := TITLE_1 + TITLE_2 + TITLE_3
  const ROLE_FORMAT: string := "# 行格式: role <角色> [描述] | "
  const PERM_FORMAT: string := "perm <角色> <动作模式> [资源模式] | "
  const GRANT_FORMAT: string := "grant <主体> <角色>"
  const FORMAT: string := ROLE_FORMAT + PERM_FORMAT + GRANT_FORMAT
  const HEADER: seq<string> := [TITLE, FORMAT]

  // ---------------------------------------------------------------- writing

  /** The optional last field: a space and the text, or nothing. */
  function Tail(text: string): string {
    if text == [] then [] else " " + text
  }

  function RoleLine(r: Role): string {
    "role " + r.name + Tail(r.description)
  }

  function PermLine(role: string, p: Perm): string {
    "perm " + role + " " + p.action + Tail(p.resource)
  }

  function GrantLine(b: Binding): string {
    "grant " + b.subject + " " + b.role
  }

  function PermLines(role: string, perms: seq<Perm>): seq<string> {
    if perms == [] then [] else [PermLine(role, perms[0])] + PermLines(role, perms[1..])
  }

  function RoleLines(roles: seq<Role>): seq<string> {
    if roles == [] then []
    else [RoleLine(roles[0])] + PermLines(roles[0].name, roles[0].perms) + RoleLines(roles[1..])
  }

  function GrantLines(bindings: seq<Binding>): seq<string> {
    if bindings == [] then [] else [GrantLine(bindings[0])] + GrantLines(bindings[1..])
  }

  function Directives(s: State): seq<string> {
    RoleLines(s.roles) + GrantLines(s.bindings)
  }

  /** What state_write_locked writes. */
  function SaveText(s: State): string {
    ConcatMap(Terminated, HEADER + Directives(s))
  }

  // ---------------------------------------------------------------- reading

  datatype Token = NoToken | TooLong | Token(text: string, rest: string)

  function WordLength(s: string): (n: nat)
    ensures n <= |s| && forall i | 0 <= i < n :: !IsBlank(s[i])
    ensures n < |s| ==> IsBlank(s[n])
  {
    if s == [] || IsBlank(s[0]) then 0 else 1 + WordLength(s[1..])
  }

  function TakeToken(s: string, cap: nat): Token {
    var p := SkipBlanks(s);
    var n := WordLength(p);
    if p == [] then NoToken else if n >= cap then TooLong else Token(p[..n], p[n..])
  }

  function ApplyRole(s: State, rest: string): State {
    match TakeToken(rest, NAME_MAX)
    case Token(name, tail) => ApplyNewRole(s, name, Clip(Trim(tail), DESC_MAX))
    case _ => s
  }

  /** A valid role that is not there yet goes to the end. */
  function ApplyNewRole(s: State, name: string, description: string): State {
    if TokenOk(name, NAME_MAX) && FreeTextOk(description, DESC_MAX) && !HasRole(s.roles, name)
    then s.(roles := s.roles + [Role(name, description, [])])
    else s
  }

  function ApplyPerm(s: State, rest: string): State {
    match TakeToken(rest, NAME_MAX)
    case Token(role, tail) => ApplyEntry(s, role, tail)
    case _ => s
  }

  function ApplyEntry(s: State, role: string, tail: string): State {
    match TakeToken(tail, ACTION_MAX)
    case Token(action, last) => RoleAddPerm(s, role, action, Clip(Trim(last), RESOURCE_MAX)).0
    case _ => s
  }

  function ApplyGrant(s: State, rest: string): State {
    match TakeToken(rest, SUBJECT_MAX)
    case Token(subject, tail) =>
      (match TakeToken(tail, NAME_MAX)
       case Token(role, _) =>
         if HasRole(s.roles, role) && Binding(subject, role) !in s.bindings
         then s.(bindings := s.bindings + [Binding(subject, role)])
         else s
       case _ => s)
    case _ => s
  }

  function ApplyDirective(s: State, kind: string, rest: string): State {
    if kind == "role" then ApplyRole(s, rest)
    else if kind == "perm" then ApplyPerm(s, rest)
    else if kind == "grant" then ApplyGrant(s, rest)
    else s
  }

  /** state_apply_line; a line it refuses changes nothing. */
  function ApplyLine(s: State, line: string): State {
    match TakeToken(line, KIND_MAX)
    case Token(kind, rest) => ApplyDirective(s, kind, rest)
    case _ => s
  }

  /** The lines worth keeping: trimmed, not empty, not a comment. */
  function Kept(buffers: seq<string>): seq<string> {
    if buffers == [] then []
    else
      var t := Trim(CStr(buffers[0]));
      if t == [] || t[0] == '#' then Kept(buffers[1..]) else [t] + Kept(buffers[1..])
  }

  predicate ForRoles(line: string) {
    "role" <= line
  }

  predicate ForEntries(line: string) {
    "perm" <= line || "grant" <= line
  }

  /** The lines handed to a step one after the other. */
  function FoldLines(step: (State, string) -> State, s: State, lines: seq<string>): State
    decreases |lines|
  {
    if lines == [] then s else FoldLines(step, step(s, lines[0]), lines[1..])
  }

  function RoleStep(s: State, line: string): State {
    if ForRoles(line) then ApplyLine(s, line) else s
  }

  function EntryStep(s: State, line: string): State {
    if ForEntries(line) then ApplyLine(s, line) else s
  }

  function RolePass(s: State, lines: seq<string>): State {
    FoldLines(RoleStep, s, lines)
  }

  function EntryPass(s: State, lines: seq<string>): State {
    FoldLines(EntryStep, s, lines)
  }

  function LoadLines(lines: seq<string>): State {
    EntryPass(RolePass(EMPTY, lines), lines)
  }

  /** What state_read_locked puts in memory: all roles first, then entries and bindings. */
  function Load(text: string): State {
    LoadLines(Kept(FileLines(text, LINE_MAX)))
  }

  // ---------------------------------------------------------------- implementation

  /** A role and its entries. */
  method WriteRole(r: Role) returns (lines: seq<string>)
    ensures lines == [RoleLine(r)] + PermLines(r.name, r.perms)
  {
    lines := [RoleLine(r)];
    var j := 0;
    while j < |r.perms|
      invariant 0 <= j <= |r.perms|
      invariant lines + PermLines(r.name, r.perms[j..]) == [RoleLine(r)] + PermLines(r.name, r.perms)
    {
      var line := PermLine(r.name, r.perms[j]);
      assert r.perms[j..][0] == r.perms[j] && r.perms[j..][1..] == r.perms[j + 1..];
      ConcatAssoc(lines, [line], PermLines(r.name, r.perms[j + 1..]));
      lines := lines + [line];
      j := j + 1;
    }
    assert lines + [] == lines;
  }

  method WriteRoles(roles: seq<Role>) returns (lines: seq<string>)
    ensures lines == RoleLines(roles)
  {
    lines := [];
    var i := 0;
    while i < |roles|
      invariant 0 <= i <= |roles|
      invariant lines + RoleLines(roles[i..]) == RoleLines(roles)
    {
      assert roles[i..][0] == roles[i] && roles[i..][1..] == roles[i + 1..];
      var here := WriteRole(roles[i]);
      ConcatAssoc(lines, here, RoleLines(roles[i + 1..]));
      lines := lines + here;
      i := i + 1;
    }
    assert lines + [] == lines;
  }

  method WriteGrants(bindings: seq<Binding>) returns (lines: seq<string>)
    ensures lines == GrantLines(bindings)
  {
    lines := [];
    var i := 0;
    while i < |bindings|
      invariant 0 <= i <= |bindings|
      invariant lines + GrantLines(bindings[i..]) == GrantLines(bindings)
    {
      assert bindings[i..][0] == bindings[i] && bindings[i..][1..] == bindings[i + 1..];
      ConcatAssoc(lines, [GrantLine(bindings[i])], GrantLines(bindings[i + 1..]));
      lines := lines + [GrantLine(bindings[i])];
      i := i + 1;
    }
    assert lines + [] == lines;
  }

  method SaveState(store: Store) returns (text: string)
    ensures text == SaveText(store.View())
  {
    var roles := WriteRoles(store.roles);
    var grants := WriteGrants(store.bindings);
    text := ConcatMap(Terminated, HEADER + (roles + grants));
  }

  method KeepLines(text: string) returns (lines: seq<string>)
    ensures lines == Kept(FileLines(text, LINE_MAX))
  {
    lines := [];
    var rest := text;
    while rest != []
      invariant lines + Kept(FileLines(rest, LINE_MAX)) == Kept(FileLines(text, LINE_MAX))
      decreases |rest|
    {
      var n := FgetsLen(rest, LINE_MAX);
      var t := Trim(CStr(rest[..n]));
      assert FileLines(rest, LINE_MAX)[1..] == FileLines(rest[n..], LINE_MAX);
      if t != [] && t[0] != '#' {
        ConcatAssoc(lines, [t], Kept(FileLines(rest[n..], LINE_MAX)));
        lines := lines + [t];
      }
      rest := rest[n..];
    }
    assert lines + [] == lines;
  }

  /** What opening the state file gives: what it holds, or an errno. */
  datatype Opened = Opened(text: string) | Refused(errno: nat)

  /** state_read_locked; a missing file is a fresh start or an error; it and any other failure to open changes nothing. */
  method LoadState(store: Store, file: Opened, missingOk: bool) returns (rc: int)
    modifies store
    ensures rc == if file.Opened? || (file.errno == -ENOENT && missingOk) then 0 else -(file.errno as int)
    ensures store.View() == if file.Opened? then Load(file.text) else old(store.View())
  {
    if file.Refused? {
      return if file.errno == -ENOENT && missingOk then 0 else -(file.errno as int);
    }
    LoadText(store, file.text);
    return 0;
  }

  /** The two passes over the kept lines. */
  method LoadText(store: Store, text: string)
    modifies store
    ensures store.View() == Load(text)
  {
    var lines := KeepLines(text);
    store.roles, store.bindings := [], [];
    var i := 0;
    while i < |lines|
      invariant 0 <= i <= |lines|
      invariant RolePass(store.View(), lines[i..]) == RolePass(EMPTY, lines)
    {
      assert lines[i..][0] == lines[i] && lines[i..][1..] == lines[i + 1..];
      if ForRoles(lines[i]) {
        var s := ApplyLine(State(store.roles, store.bindings), lines[i]);
        store.roles, store.bindings := s.roles, s.bindings;
      }
      i := i + 1;
    }
    i := 0;
    ghost var roles := store.View();
    assert lines[0..] == lines;
    while i < |lines|
      invariant 0 <= i <= |lines|
      invariant EntryPass(store.View(), lines[i..]) == EntryPass(roles, lines)
    {
      assert lines[i..][0] == lines[i] && lines[i..][1..] == lines[i + 1..];
      if ForEntries(lines[i]) {
        var s := ApplyLine(State(store.roles, store.bindings), lines[i]);
        store.roles, store.bindings := s.roles, s.bindings;
      }
      i := i + 1;
    }
  }

  // ---------------------------------------------------------------- the format

  /** How lines are written. */
  lemma LinesAre(name: string, text: string, action: string, subject: string)
    requires text != ""
    ensures RoleLine(Role(name, "", [])) == "role " + name && RoleLine(Role(name, text, [])) == "role " + name + " " + text
    ensures PermLine(name, Perm(action, "")) == "perm " + name + " " + action
    ensures PermLine(name, Perm(action, text)) == "perm " + name + " " + action + " " + text
    ensures GrantLine(Binding(subject, name)) == "grant " + subject + " " + name
  {
    assert "role " + name + [] == "role " + name;
    assert "perm " + name + " " + action + [] == "perm " + name + " " + action;
    assert "role " + name + (" " + text) == "role " + name + " " + text;
    assert "perm " + name + " " + action + (" " + text) == "perm " + name + " " + action + " " + text;
  }

  /** A line with no known first word changes nothing. */
  lemma UnknownIgnored(s: State, line: string)
    requires match TakeToken(line, KIND_MAX) { case Token(kind, _) => kind !in {"role", "perm", "grant"} case _ => true }
    ensures ApplyLine(s, line) == s
  {
  }

  lemma {:induction false} KeptAppend(a: seq<string>, b: seq<string>)
    ensures Kept(a + b) == Kept(a) + Kept(b)
  {
    if a == [] {
      assert a + b == b;
    } else {
      AppendHead(a, b);
      KeptAppend(a[1..], b);
    }
  }

  /** Comments and empty lines may stand anywhere. */
  lemma NoiseIgnored(before: seq<string>, noise: string, after: seq<string>)
    requires Trim(CStr(noise)) == "" || Trim(CStr(noise))[0] == '#'
    ensures LoadLines(Kept(before + [noise] + after)) == LoadLines(Kept(before + after))
  {
    KeptAppend(before + [noise], after);
    KeptAppend(before, [noise]);
    KeptAppend(before, after);
    assert Kept([noise]) == [];
    assert Kept(before) + [] == Kept(before);
  }

  // ---------------------------------------------------------------- loading any text

  lemma SkipBlanksKeeps(s: string, c: char)
    requires c !in s
    ensures c !in SkipBlanks(s)
    ensures SkipBlanks(s) == [] || !IsBlank(SkipBlanks(s)[0])
  {
    var p := SkipBlanks(s);
    assert forall i | 0 <= i < |p| :: p[i] in s;
  }

  lemma WordOfPrefix(p: string, n: nat, cap: nat)
    requires n == WordLength(p) && 0 < n < cap && NUL !in p && '\n' !in p
    ensures WordOk(p[..n], cap) && NUL !in p[n..] && '\n' !in p[n..]
  {
    assert forall i | 0 <= i < n :: p[..n][i] == p[i] && p[i] in p;
  }

  lemma TokenIsWord(s: string, cap: nat)
    requires NUL !in s && '\n' !in s
    ensures var t := TakeToken(s, cap);
      t.Token? ==> WordOk(t.text, cap) && NUL !in t.rest && '\n' !in t.rest
  {
    var p := SkipBlanks(s);
    SkipBlanksKeeps(s, NUL);
    SkipBlanksKeeps(s, '\n');
    if p != [] && WordLength(p) < cap {
      WordOfPrefix(p, WordLength(p), cap);
    }
  }

  lemma AppendRoleWellFormed(s: State, name: string, description: string)
    requires WellFormed(s) && TokenOk(name, NAME_MAX) && FreeTextOk(description, DESC_MAX) && !HasRole(s.roles, name)
    ensures WellFormed(s.(roles := s.roles + [Role(name, description, [])]))
  {
    RoleAddWellFormed(s, name, description);
  }

  lemma ApplyLineWellFormed(s: State, line: string)
    requires WellFormed(s) && NUL !in line && '\n' !in line
    ensures WellFormed(ApplyLine(s, line))
  {
    var t := TakeToken(line, KIND_MAX);
    if t.Token? {
      TokenIsWord(line, KIND_MAX);
      ApplyDirectiveWellFormed(s, t.text, t.rest);
    }
  }

  lemma ApplyDirectiveWellFormed(s: State, kind: string, rest: string)
    requires WellFormed(s) && NUL !in rest && '\n' !in rest
    ensures WellFormed(ApplyDirective(s, kind, rest))
  {
    ApplyRoleWellFormed(s, rest);
    ApplyPermWellFormed(s, rest);
    ApplyGrantWellFormed(s, rest);
  }

  lemma ApplyRoleWellFormed(s: State, rest: string)
    requires WellFormed(s)
    ensures WellFormed(ApplyRole(s, rest))
  {
    var t := TakeToken(rest, NAME_MAX);
    if t.Token? {
      var d := Clip(Trim(t.rest), DESC_MAX);
      if TokenOk(t.text, NAME_MAX) && FreeTextOk(d, DESC_MAX) && !HasRole(s.roles, t.text) {
        AppendRoleWellFormed(s, t.text, d);
      }
    }
  }

  lemma ApplyEntryWellFormed(s: State, role: string, tail: string)
    requires WellFormed(s)
    ensures WellFormed(ApplyEntry(s, role, tail))
  {
    var a := TakeToken(tail, ACTION_MAX);
    if a.Token? {
      AddPermWellFormed(s, role, a.text, Clip(Trim(a.rest), RESOURCE_MAX));
    }
  }

  lemma ApplyPermWellFormed(s: State, rest: string)
    requires WellFormed(s)
    ensures WellFormed(ApplyPerm(s, rest))
  {
    var t := TakeToken(rest, NAME_MAX);
    if t.Token? {
      ApplyEntryWellFormed(s, t.text, t.rest);
    }
  }

  lemma ApplyGrantWellFormed(s: State, rest: string)
    requires WellFormed(s) && NUL !in rest && '\n' !in rest
    ensures WellFormed(ApplyGrant(s, rest))
  {
    TokenIsWord(rest, SUBJECT_MAX);
  }

  ghost predicate Clean(lines: seq<string>) {
    forall i | 0 <= i < |lines| :: NUL !in lines[i] && '\n' !in lines[i]
  }

  lemma {:induction false} RolePassWellFormed(s: State, lines: seq<string>)
    requires WellFormed(s) && Clean(lines)
    ensures WellFormed(RolePass(s, lines))
    decreases |lines|
  {
    if lines != [] {
      ApplyLineWellFormed(s, lines[0]);
      RolePassWellFormed(RoleStep(s, lines[0]), lines[1..]);
    }
  }

  lemma {:induction false} EntryPassWellFormed(s: State, lines: seq<string>)
    requires WellFormed(s) && Clean(lines)
    ensures WellFormed(EntryPass(s, lines))
    decreases |lines|
  {
    if lines != [] {
      ApplyLineWellFormed(s, lines[0]);
      EntryPassWellFormed(EntryStep(s, lines[0]), lines[1..]);
    }
  }

  lemma CutKeepsOnlyLast(buffer: string, from: nat, to: nat)
    requires OnlyLast(buffer) && from <= to <= |buffer|
    ensures OnlyLast(buffer[from..to])
  {
  }

  lemma SkipBlanksIsCut(s: string)
    ensures |SkipBlanks(s)| <= |s| && SkipBlanks(s) == s[|s| - |SkipBlanks(s)|..|s|]
  {
  }

  lemma TrimmedLineClean(buffer: string)
    requires OnlyLast(buffer)
    ensures NUL !in Trim(CStr(buffer)) && '\n' !in Trim(CStr(buffer))
  {
    var c := CStr(buffer);
    CutKeepsOnlyLast(buffer, 0, |c|);
    assert OnlyLast(c);
    var b := SkipBlanks(c);
    SkipBlanksIsCut(c);
    SkipBlanksKeeps(c, NUL);
    CutKeepsOnlyLast(c, |c| - |b|, |c|);
    PrefixClean(TrimEnd(b), b);
  }

  lemma PrefixClean(t: string, b: string)
    requires t <= b && OnlyLast(b) && NUL !in b && (t == [] || !IsEdge(t[|t| - 1]))
    ensures NUL !in t && '\n' !in t
  {
    assert forall i | 0 <= i < |t| :: t[i] == b[i];
  }

  lemma KeptCons(buffers: seq<string>)
    requires buffers != []
    ensures var t := Trim(CStr(buffers[0]));
      Kept(buffers) == if t == [] || t[0] == '#' then Kept(buffers[1..]) else [t] + Kept(buffers[1..])
  {
  }

  lemma {:induction false} KeptClean(buffers: seq<string>)
    requires forall i | 0 <= i < |buffers| :: OnlyLast(buffers[i])
    ensures Clean(Kept(buffers))
  {
    if buffers != [] {
      KeptClean(buffers[1..]);
      TrimmedLineClean(buffers[0]);
      KeptCons(buffers);
    }
  }

  /**
    Loading any bytes at all leaves a well-formed policy: unique roles, at most
    64 unique entries a role, unique bindings, none of them dangling.
   */
  lemma LoadWellFormed(text: string)
    ensures WellFormed(Load(text))
  {
    FileLinesNewlines(text, LINE_MAX);
    var lines := Kept(FileLines(text, LINE_MAX));
    KeptClean(FileLines(text, LINE_MAX));
    RolePassWellFormed(EMPTY, lines);
    EntryPassWellFormed(RolePass(EMPTY, lines), lines);
  }
}
