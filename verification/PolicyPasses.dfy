/**
  The two passes that load a policy, over lines of which only the effect is
  known: the first pass adds the roles, the second their entries and the
  bindings (permission/src/permission_impl.c, state_read_locked).
 */
module PolicyPasses {
  import opened CText
  import opened Policy
  import opened PolicyText

  type Pass = (State, string) -> State

  // ---------------------------------------------------------------- what comes back

  function NormPerm(p: Perm): Perm {
    Perm(p.action, Trim(p.resource))
  }

  function AddOnce(perms: seq<Perm>, p: Perm): seq<Perm> {
    if p in perms then perms else perms + [p]
  }

  /** Entries added one after the other, equal ones once. */
  function NormPerms(acc: seq<Perm>, todo: seq<Perm>): seq<Perm>
    decreases |todo|
  {
    if todo == [] then acc else NormPerms(AddOnce(acc, NormPerm(todo[0])), todo[1..])
  }

  function NormRole(r: Role): Role {
    Role(r.name, Trim(r.description), NormPerms([], r.perms))
  }

  function BareRole(r: Role): Role {
    Role(r.name, Trim(r.description), [])
  }

  function MapRoles(f: Role -> Role, roles: seq<Role>): (m: seq<Role>)
    ensures |m| == |roles| && forall i | 0 <= i < |m| :: m[i] == f(roles[i])
  {
    if roles == [] then [] else [f(roles[0])] + MapRoles(f, roles[1..])
  }

  /** The policy with every description and resource trimmed. */
  function Norm(s: State): State {
    State(MapRoles(NormRole, s.roles), s.bindings)
  }

  // ---------------------------------------------------------------- effects of lines

  /** The line of a role and the lines of its entries, and the role after the first and the second pass. */
  datatype Block = Block(head: string, entries: seq<string>, bare: Role, norm: Role)

  function BlockLines(blocks: seq<Block>): seq<string> {
    if blocks == [] then [] else [blocks[0].head] + blocks[0].entries + BlockLines(blocks[1..])
  }

  function Bares(blocks: seq<Block>): (roles: seq<Role>)
    ensures |roles| == |blocks| && forall i | 0 <= i < |roles| :: roles[i] == blocks[i].bare
  {
    if blocks == [] then [] else [blocks[0].bare] + Bares(blocks[1..])
  }

  function Norms(blocks: seq<Block>): (roles: seq<Role>)
    ensures |roles| == |blocks| && forall i | 0 <= i < |roles| :: roles[i] == blocks[i].norm
  {
    if blocks == [] then [] else [blocks[0].norm] + Norms(blocks[1..])
  }

  ghost predicate Skipped(step: Pass, line: string) {
    forall s: State {:trigger step(s, line)} :: step(s, line) == s
  }

  /** The first pass adds the role unless its name is taken. */
  ghost predicate AddsRole(first: Pass, line: string, r: Role) {
    forall s: State {:trigger first(s, line)} ::
      !HasRole(s.roles, r.name) ==> first(s, line) == s.(roles := s.roles + [r])
  }

  /** The second pass adds the entry to the role, once. */
  ghost predicate AddsPerm(second: Pass, line: string, name: string, p: Perm) {
    forall s: State {:trigger second(s, line)} ::
      var i := FindRole(s.roles, name);
      i < |s.roles| && |s.roles[i].perms| < ROLE_MAX_PERMS ==>
        second(s, line) == WithPerms(s, i, AddOnce(s.roles[i].perms, p))
  }

  /** The second pass adds a new binding of an existing role. */
  ghost predicate AddsBinding(second: Pass, line: string, b: Binding) {
    forall s: State {:trigger second(s, line)} ::
      HasRole(s.roles, b.role) && b !in s.bindings ==> second(s, line) == s.(bindings := s.bindings + [b])
  }

  /** The second pass over a block turns the bare role, wherever it is, into the full one. */
  ghost predicate FillsRole(second: Pass, b: Block) {
    && b.bare.name == b.norm.name
    && forall s: State, k: nat {:trigger FoldLines(second, second(s, b.head), b.entries), s.roles[k]} ::
         k < |s.roles| && s.roles[k] == b.bare && UniqueRoles(s.roles) ==>
           FoldLines(second, second(s, b.head), b.entries) == s.(roles := s.roles[k := b.norm])
  }

  ghost predicate BlockOk(first: Pass, second: Pass, b: Block) {
    && AddsRole(first, b.head, b.bare)
    && (forall j | 0 <= j < |b.entries| :: Skipped(first, b.entries[j]))
    && FillsRole(second, b)
  }

  ghost predicate PermOk(first: Pass, second: Pass, line: string, name: string, perm: Perm) {
    Skipped(first, line) && AddsPerm(second, line, name, NormPerm(perm))
  }

  ghost predicate PermsOk(first: Pass, second: Pass, lines: seq<string>, name: string, perms: seq<Perm>) {
    && |lines| == |perms|
    && forall j | 0 <= j < |lines| :: PermOk(first, second, lines[j], name, perms[j])
  }

  ghost predicate GrantsOk(first: Pass, second: Pass, lines: seq<string>, bindings: seq<Binding>) {
    && |lines| == |bindings|
    && forall j | 0 <= j < |lines| :: Skipped(first, lines[j]) && AddsBinding(second, lines[j], bindings[j])
  }

  lemma PermsOkCons(first: Pass, second: Pass, line: string, lines: seq<string>, name: string, perms: seq<Perm>)
    requires perms != [] && PermsOk(first, second, lines, name, perms[1..])
    requires PermOk(first, second, line, name, perms[0])
    ensures PermsOk(first, second, [line] + lines, name, perms)
  {
    PairedCons((l, p) => PermOk(first, second, l, name, p), line, lines, perms);
  }

  lemma PairedCons<A, B>(ok: (A, B) -> bool, a: A, s: seq<A>, t: seq<B>)
    requires t != [] && |s| == |t| - 1 && ok(a, t[0]) && forall j | 0 <= j < |s| :: ok(s[j], t[1..][j])
    ensures forall j | 0 <= j < |t| :: ok(([a] + s)[j], t[j])
  {
    forall j | 0 <= j < |t|
      ensures ok(([a] + s)[j], t[j])
    {
      if j > 0 {
        assert ok(s[j - 1], t[1..][j - 1]);
      }
    }
  }

  lemma PermsOkTail(first: Pass, second: Pass, lines: seq<string>, name: string, perms: seq<Perm>)
    requires perms != [] && PermsOk(first, second, lines, name, perms)
    ensures PermsOk(first, second, lines[1..], name, perms[1..])
  {
    forall j | 0 <= j < |perms| - 1
      ensures PermOk(first, second, lines[1..][j], name, perms[1..][j])
    {
      assert PermOk(first, second, lines[j + 1], name, perms[j + 1]);
    }
  }

  // ---------------------------------------------------------------- folds

  lemma {:induction false} FoldAppend(step: Pass, s: State, a: seq<string>, b: seq<string>)
    ensures FoldLines(step, s, a + b) == FoldLines(step, FoldLines(step, s, a), b)
    decreases |a|
  {
    if a == [] {
      assert a + b == b;
    } else {
      FoldAppend(step, step(s, a[0]), a[1..], b);
      AppendHead(a, b);
    }
  }

  /** A fold goes over the head, then the entries, then the other lines. */
  lemma FoldBlock(step: Pass, s: State, head: string, entries: seq<string>, rest: seq<string>)
    ensures FoldLines(step, s, [head] + entries + rest) ==
            FoldLines(step, FoldLines(step, step(s, head), entries), rest)
  {
    assert ([head] + entries + rest)[1..] == entries + rest;
    FoldAppend(step, step(s, head), entries, rest);
  }

  // ---------------------------------------------------------------- first pass

  lemma {:induction false} FirstSkips(step: Pass, s: State, lines: seq<string>)
    requires forall j | 0 <= j < |lines| :: Skipped(step, lines[j])
    ensures FoldLines(step, s, lines) == s
  {
    if lines != [] {
      FirstSkips(step, s, lines[1..]);
    }
  }

  lemma AddedRole(roles: seq<Role>, r: Role, rest: seq<Role>)
    requires forall i | 0 <= i < |rest| :: rest[i].name != r.name && !HasRole(roles, rest[i].name)
    ensures forall i | 0 <= i < |rest| :: !HasRole(roles + [r], rest[i].name)
  {
    forall i | 0 <= i < |rest|
      ensures !HasRole(roles + [r], rest[i].name)
    {
      HasRoleIff(roles, rest[i].name);
      HasRoleIff(roles + [r], rest[i].name);
    }
  }

  /** First pass over all blocks: the roles, still without entries. */
  lemma {:induction false} FirstPassRoles(first: Pass, second: Pass, s: State, blocks: seq<Block>)
    requires forall i | 0 <= i < |blocks| :: BlockOk(first, second, blocks[i])
    requires UniqueRoles(Bares(blocks)) && forall i | 0 <= i < |blocks| :: !HasRole(s.roles, blocks[i].bare.name)
    ensures FoldLines(first, s, BlockLines(blocks)) == s.(roles := s.roles + Bares(blocks))
    decreases |blocks|
  {
    if blocks == [] {
      assert s.roles + [] == s.roles;
    } else {
      var b, rest := blocks[0], blocks[1..];
      var next := s.(roles := s.roles + [b.bare]);
      assert BlockOk(first, second, b);
      FoldBlock(first, s, b.head, b.entries, BlockLines(rest));
      FirstSkips(first, next, b.entries);
      AddedRole(s.roles, b.bare, Bares(rest));
      FirstPassRoles(first, second, next, rest);
      ConcatAssoc(s.roles, [b.bare], Bares(rest));
    }
  }

  // ---------------------------------------------------------------- second pass

  lemma WithPermsTwice(s: State, i: nat, a: seq<Perm>, b: seq<Perm>)
    requires i < |s.roles|
    ensures WithPerms(WithPerms(s, i, a), i, b) == WithPerms(s, i, b)
    ensures WithPerms(s, i, s.roles[i].perms) == s
  {
    var r := s.roles[i];
    assert s.roles[i := r.(perms := a)][i := r.(perms := b)] == s.roles[i := r.(perms := b)];
    assert s.roles[i := r.(perms := r.perms)] == s.roles;
  }

  lemma UniqueFind(roles: seq<Role>, i: nat)
    requires UniqueRoles(roles) && i < |roles|
    ensures FindRole(roles, roles[i].name) == i
  {
    FindRoleIs(roles, roles[i].name, i);
  }

  lemma UpdateUnique(roles: seq<Role>, i: nat, r: Role)
    requires UniqueRoles(roles) && i < |roles| && r.name == roles[i].name
    ensures UniqueRoles(roles[i := r])
  {
    assert forall j | 0 <= j < |roles| :: roles[i := r][j].name == roles[j].name;
  }

  /** Second pass over one entry of the i-th role. */
  lemma SecondPassPerm(second: Pass, s: State, i: nat, line: string, p: Perm)
    requires i < |s.roles| && UniqueRoles(s.roles) && |s.roles[i].perms| < ROLE_MAX_PERMS
    requires AddsPerm(second, line, s.roles[i].name, p)
    ensures second(s, line) == WithPerms(s, i, AddOnce(s.roles[i].perms, p))
    ensures UniqueRoles(second(s, line).roles)
  {
    UniqueFind(s.roles, i);
    UpdateUnique(s.roles, i, s.roles[i].(perms := AddOnce(s.roles[i].perms, p)));
  }

  /** Second pass over the entries of the i-th role. */
  lemma {:induction false} SecondPassPerms(first: Pass, second: Pass, s: State, i: nat, lines: seq<string>, perms: seq<Perm>)
    requires i < |s.roles| && UniqueRoles(s.roles) && |s.roles[i].perms| + |perms| <= ROLE_MAX_PERMS
    requires PermsOk(first, second, lines, s.roles[i].name, perms)
    ensures FoldLines(second, s, lines) == WithPerms(s, i, NormPerms(s.roles[i].perms, perms))
    decreases |perms|
  {
    if perms == [] {
      WithPermsTwice(s, i, [], []);
    } else {
      var acc := AddOnce(s.roles[i].perms, NormPerm(perms[0]));
      assert PermOk(first, second, lines[0], s.roles[i].name, perms[0]);
      SecondPassPerm(second, s, i, lines[0], NormPerm(perms[0]));
      PermsOkTail(first, second, lines, s.roles[i].name, perms);
      SecondPassPerms(first, second, second(s, lines[0]), i, lines[1..], perms[1..]);
      WithPermsTwice(s, i, acc, NormPerms(acc, perms[1..]));
    }
  }

  /** Second pass over the k-th role and its entries. */
  lemma SecondPassRole(first: Pass, second: Pass, s: State, k: nat, b: Block, r: Role)
    requires Skipped(second, b.head) && |r.perms| <= ROLE_MAX_PERMS
    requires PermsOk(first, second, b.entries, r.name, r.perms)
    requires k < |s.roles| && s.roles[k] == BareRole(r) && UniqueRoles(s.roles)
    ensures FoldLines(second, second(s, b.head), b.entries) == s.(roles := s.roles[k := NormRole(r)])
  {
    SecondPassPerms(first, second, s, k, b.entries, r.perms);
  }

  /** A block whose entries are right for its role. */
  lemma BlockByPerms(first: Pass, second: Pass, b: Block, r: Role)
    requires b.bare == BareRole(r) && b.norm == NormRole(r) && |r.perms| <= ROLE_MAX_PERMS
    requires AddsRole(first, b.head, b.bare) && Skipped(second, b.head)
    requires PermsOk(first, second, b.entries, r.name, r.perms)
    ensures BlockOk(first, second, b)
  {
    forall j | 0 <= j < |b.entries|
      ensures Skipped(first, b.entries[j])
    {
      assert PermOk(first, second, b.entries[j], r.name, r.perms[j]);
    }
    forall s: State, k: nat | k < |s.roles| && s.roles[k] == b.bare && UniqueRoles(s.roles)
      ensures FoldLines(second, second(s, b.head), b.entries) == s.(roles := s.roles[k := b.norm])
    {
      SecondPassRole(first, second, s, k, b, r);
    }
  }

  /** From the k-th role on, the bare roles of the blocks. */
  ghost predicate BareFrom(all: seq<Role>, k: nat, blocks: seq<Block>) {
    |all| == k + |blocks| && forall j | k <= j < |all| :: all[j] == blocks[j - k].bare
  }

  ghost predicate NormFrom(all: seq<Role>, k: nat, blocks: seq<Block>) {
    |all| == k + |blocks| && forall j | k <= j < |all| :: all[j] == blocks[j - k].norm
  }

  /** Second pass from the k-th role on: each gets its entries. */
  lemma {:induction false} SecondPassRoles(second: Pass, s: State, k: nat, blocks: seq<Block>)
    requires forall i | 0 <= i < |blocks| :: FillsRole(second, blocks[i])
    requires BareFrom(s.roles, k, blocks) && UniqueRoles(s.roles)
    ensures var t := FoldLines(second, s, BlockLines(blocks));
      t.bindings == s.bindings && NormFrom(t.roles, k, blocks) && t.roles[..k] == s.roles[..k]
    decreases |blocks|
  {
    if blocks != [] {
      var b, rest := blocks[0], blocks[1..];
      var next := s.(roles := s.roles[k := b.norm]);
      assert s.roles[k] == b.bare && FillsRole(second, b);
      FoldBlock(second, s, b.head, b.entries, BlockLines(rest));
      assert FoldLines(second, second(s, b.head), b.entries) == next;
      UpdateUnique(s.roles, k, b.norm);
      SecondPassRoles(second, next, k + 1, rest);
      var t := FoldLines(second, next, BlockLines(rest));
      assert t.roles[k] == t.roles[..k + 1][k] == b.norm;
      assert t.roles[..k] == t.roles[..k + 1][..k] == s.roles[..k];
    }
  }

  lemma FreshInDistinct<T>(a: seq<T>, x: T, rest: seq<T>)
    requires Distinct(a + [x] + rest)
    ensures x !in a
  {
    var all := a + [x] + rest;
    assert all[|a|] == x;
    assert forall i | 0 <= i < |a| :: all[i] == a[i];
  }

  lemma {:induction false} SecondPassGrants(first: Pass, second: Pass, s: State, lines: seq<string>, bindings: seq<Binding>)
    requires GrantsOk(first, second, lines, bindings) && Distinct(s.bindings + bindings)
    requires forall b | 0 <= b < |bindings| :: HasRole(s.roles, bindings[b].role)
    ensures FoldLines(second, s, lines) == s.(bindings := s.bindings + bindings)
    decreases |bindings|
  {
    if bindings == [] {
      assert s.bindings + [] == s.bindings;
    } else {
      var b, rest := bindings[0], bindings[1..];
      ConcatHead(s.bindings, bindings);
      FreshInDistinct(s.bindings, b, rest);
      assert AddsBinding(second, lines[0], b);
      SecondPassGrants(first, second, s.(bindings := s.bindings + [b]), lines[1..], rest);
    }
  }

  // ---------------------------------------------------------------- both passes

  lemma FirstPass(first: Pass, second: Pass, blocks: seq<Block>, lines: seq<string>, bindings: seq<Binding>)
    requires forall i | 0 <= i < |blocks| :: BlockOk(first, second, blocks[i])
    requires GrantsOk(first, second, lines, bindings) && UniqueRoles(Bares(blocks))
    ensures FoldLines(first, EMPTY, BlockLines(blocks) + lines) == State(Bares(blocks), [])
  {
    FoldAppend(first, EMPTY, BlockLines(blocks), lines);
    FirstPassRoles(first, second, EMPTY, blocks);
    assert [] + Bares(blocks) == Bares(blocks);
    FirstSkips(first, State(Bares(blocks), []), lines);
  }

  lemma SecondPassBlocks(second: Pass, blocks: seq<Block>)
    requires forall i | 0 <= i < |blocks| :: FillsRole(second, blocks[i])
    requires UniqueRoles(Bares(blocks))
    ensures FoldLines(second, State(Bares(blocks), []), BlockLines(blocks)) == State(Norms(blocks), [])
  {
    SecondPassRoles(second, State(Bares(blocks), []), 0, blocks);
  }

  lemma SecondPass(first: Pass, second: Pass, blocks: seq<Block>, lines: seq<string>, bindings: seq<Binding>)
    requires forall i | 0 <= i < |blocks| :: BlockOk(first, second, blocks[i])
    requires GrantsOk(first, second, lines, bindings) && UniqueRoles(Bares(blocks))
    requires Distinct(bindings) && forall b | 0 <= b < |bindings| :: HasRole(Norms(blocks), bindings[b].role)
    ensures FoldLines(second, State(Bares(blocks), []), BlockLines(blocks) + lines) == State(Norms(blocks), bindings)
  {
    FoldAppend(second, State(Bares(blocks), []), BlockLines(blocks), lines);
    forall i | 0 <= i < |blocks|
      ensures FillsRole(second, blocks[i])
    {
      assert BlockOk(first, second, blocks[i]);
    }
    SecondPassBlocks(second, blocks);
    assert [] + bindings == bindings;
    SecondPassGrants(first, second, State(Norms(blocks), []), lines, bindings);
  }
}
