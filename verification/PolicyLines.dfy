/**
  What the lines of a state file do, whoever wrote them: words between blanks,
  each directive as the operation it stands for, lines that change nothing, and
  roles before everything else (permission/src/permission_impl.c, take_tok,
  state_apply_line, state_read_locked).
 */
module PolicyLines {
  import opened CText
  import opened Policy
  import opened PolicyText

  ghost predicate Blanks(s: string) {
    forall i | 0 <= i < |s| :: s[i] == ' ' || s[i] == '\t'
  }

  /** What comes behind a word: nothing, or something that begins with a blank. */
  ghost predicate Behind(s: string) {
    s == "" || s[0] == ' ' || s[0] == '\t'
  }

  ghost predicate Word(s: string) {
    s != "" && forall i | 0 <= i < |s| :: s[i] != ' ' && s[i] != '\t'
  }

  lemma {:induction false} LengthOfWord(word: string, rest: string)
    requires Behind(rest) && forall i | 0 <= i < |word| :: word[i] != ' ' && word[i] != '\t'
    ensures WordLength(word + rest) == |word|
  {
    if word == "" {
      assert word + rest == rest;
    } else {
      assert (word + rest)[1..] == word[1..] + rest;
      LengthOfWord(word[1..], rest);
    }
  }

  /** The next word of a line: behind any blanks, up to the next one; too long a word is told from none. */
  lemma TokenIs(blanks: string, word: string, rest: string, cap: nat)
    requires Blanks(blanks) && Word(word) && Behind(rest)
    ensures TakeToken(blanks + word + rest, cap) == if |word| < cap then Token(word, rest) else TooLong
    ensures TakeToken(blanks, cap) == NoToken
  {
    assert blanks + word + rest == blanks + (word + rest);
    assert (word + rest)[0] == word[0];
    BlanksGone(blanks, word + rest);
    LengthOfWord(word, rest);
    assert (word + rest)[..|word|] == word && (word + rest)[|word|..] == rest;
    BlanksGone(blanks, "");
    assert blanks + "" == blanks;
  }

  /** A directive with these words: the first of 15 bytes at most. */
  ghost predicate Directive(line: string, kind: string, rest: string) {
    TakeToken(line, 16) == Token(kind, rest)
  }

  lemma DirectiveIs(blanks: string, kind: string, rest: string)
    requires Blanks(blanks) && Word(kind) && |kind| < 16 && Behind(rest)
    ensures Directive(blanks + kind + rest, kind, rest)
  {
    TokenIs(blanks, kind, rest, 16);
  }

  /** `role` adds the role, with the rest of the line, trimmed and cut, as its description; a role there is already, and one that is not valid, are passed over. */
  lemma RoleDirective(s: State, line: string, blanks: string, name: string, tail: string)
    requires Directive(line, "role", blanks + name + tail) && Blanks(blanks) && Word(name) && Behind(tail)
    ensures ApplyLine(s, line) == if |name| < 64 then RoleAdd(s, name, Clip(Trim(tail), 256)).0 else s
  {
    TokenIs(blanks, name, tail, NAME_MAX);
    LineIs(s, line, "role", blanks + name + tail);
    if |name| < 64 {
      RoleIs(s, blanks + name + tail, name, tail);
      NewRoleIs(s, name, Clip(Trim(tail), DESC_MAX));
    }
  }

  lemma LineIs(s: State, line: string, kind: string, rest: string)
    requires Directive(line, kind, rest)
    ensures ApplyLine(s, line) == ApplyDirective(s, kind, rest)
  {
  }

  lemma RoleIs(s: State, rest: string, name: string, tail: string)
    requires TakeToken(rest, NAME_MAX) == Token(name, tail)
    ensures ApplyRole(s, rest) == ApplyNewRole(s, name, Clip(Trim(tail), DESC_MAX))
  {
  }

  lemma NewRoleIs(s: State, name: string, description: string)
    ensures ApplyNewRole(s, name, description) == RoleAdd(s, name, description).0
  {
  }

  /** `perm` adds the entry, with the rest of the line, trimmed and cut, as its resource; anything that operation refuses is passed over. */
  lemma PermDirective(s: State, line: string, b1: string, role: string, b2: string, action: string, tail: string)
    requires Directive(line, "perm", b1 + role + (b2 + action + tail))
    requires Blanks(b1) && Word(role) && Blanks(b2) && b2 != "" && Word(action) && Behind(tail)
    ensures ApplyLine(s, line) ==
            if |role| < 64 && |action| < 64 then RoleAddPerm(s, role, action, Clip(Trim(tail), 256)).0 else s
  {
    assert (b2 + action + tail)[0] == b2[0];
    LineIs(s, line, "perm", b1 + role + (b2 + action + tail));
    TokenIs(b1, role, b2 + action + tail, NAME_MAX);
    TokenIs(b2, action, tail, ACTION_MAX);
    PermIs(s, b1 + role + (b2 + action + tail), role, b2 + action + tail, action, tail);
  }

  lemma PermIs(s: State, rest: string, role: string, behind: string, action: string, tail: string)
    requires TakeToken(rest, NAME_MAX) == if |role| < NAME_MAX then Token(role, behind) else TooLong
    requires TakeToken(behind, ACTION_MAX) == if |action| < ACTION_MAX then Token(action, tail) else TooLong
    ensures ApplyPerm(s, rest) ==
            if |role| < 64 && |action| < 64 then RoleAddPerm(s, role, action, Clip(Trim(tail), 256)).0 else s
  {
    EntryIs(s, role, behind, action, tail);
  }

  lemma EntryIs(s: State, role: string, behind: string, action: string, tail: string)
    requires TakeToken(behind, ACTION_MAX) == if |action| < ACTION_MAX then Token(action, tail) else TooLong
    ensures ApplyEntry(s, role, behind) == if |action| < 64 then RoleAddPerm(s, role, action, Clip(Trim(tail), 256)).0 else s
  {
  }

  /** `grant` binds the subject to a role there is, once; what stands behind the role does not matter. */
  lemma GrantDirective(s: State, line: string, b1: string, subject: string, b2: string, role: string, tail: string)
    requires Directive(line, "grant", b1 + subject + (b2 + role + tail))
    requires Blanks(b1) && Word(subject) && Blanks(b2) && b2 != "" && Word(role) && Behind(tail)
    ensures ApplyLine(s, line) ==
      if |subject| < 128 && |role| < 64 && HasRole(s.roles, role) && Binding(subject, role) !in s.bindings
      then s.(bindings := s.bindings + [Binding(subject, role)]) else s
  {
    assert (b2 + role + tail)[0] == b2[0];
    LineIs(s, line, "grant", b1 + subject + (b2 + role + tail));
    TokenIs(b1, subject, b2 + role + tail, SUBJECT_MAX);
    TokenIs(b2, role, tail, NAME_MAX);
    GrantIs(s, b1 + subject + (b2 + role + tail), subject, b2 + role + tail, role, tail);
  }

  lemma GrantIs(s: State, rest: string, subject: string, behind: string, role: string, tail: string)
    requires TakeToken(rest, SUBJECT_MAX) == if |subject| < SUBJECT_MAX then Token(subject, behind) else TooLong
    requires TakeToken(behind, NAME_MAX) == if |role| < NAME_MAX then Token(role, tail) else TooLong
    ensures ApplyGrant(s, rest) ==
      if |subject| < 128 && |role| < 64 && HasRole(s.roles, role) && Binding(subject, role) !in s.bindings
      then s.(bindings := s.bindings + [Binding(subject, role)]) else s
  {
  }

  /** A directive without any word behind it changes nothing. */
  lemma BareIgnored(s: State, line: string, kind: string, blanks: string)
    requires Directive(line, kind, blanks) && Blanks(blanks)
    ensures ApplyLine(s, line) == s
  {
    LineIs(s, line, kind, blanks);
    TokenIs(blanks, "x", "", NAME_MAX);
    TokenIs(blanks, "x", "", SUBJECT_MAX);
  }

  lemma BlanksGiveNothing(blanks: string, cap: nat)
    requires Blanks(blanks)
    ensures TakeToken(blanks, cap) == NoToken
  {
    TokenIs(blanks, "x", "", cap);
  }

  /** Nor does a `perm` with one word only. */
  lemma HalfPermIgnored(s: State, line: string, b1: string, word: string, b2: string)
    requires Directive(line, "perm", b1 + word + b2) && Blanks(b1) && Word(word) && Blanks(b2)
    ensures ApplyLine(s, line) == s
  {
    LineIs(s, line, "perm", b1 + word + b2);
    TokenIs(b1, word, b2, NAME_MAX);
    BlanksGiveNothing(b2, ACTION_MAX);
  }

  /** Nor a `grant` with one. */
  lemma HalfGrantIgnored(s: State, line: string, b1: string, word: string, b2: string)
    requires Directive(line, "grant", b1 + word + b2) && Blanks(b1) && Word(word) && Blanks(b2)
    ensures ApplyLine(s, line) == s
  {
    LineIs(s, line, "grant", b1 + word + b2);
    TokenIs(b1, word, b2, SUBJECT_MAX);
    BlanksGiveNothing(b2, NAME_MAX);
  }

  // ---------------------------------------------------------------- order

  /** The lines that begin with one of these words, in their order. */
  function Those(lines: seq<string>, wanted: string -> bool): seq<string> {
    if lines == [] then []
    else (if wanted(lines[0]) then [lines[0]] else []) + Those(lines[1..], wanted)
  }

  lemma {:induction false} FoldThose(s: State, lines: seq<string>, step: (State, string) -> State, wanted: string -> bool)
    requires forall t: State, line: string :: step(t, line) == if wanted(line) then ApplyLine(t, line) else t
    ensures FoldLines(step, s, lines) == FoldLines(ApplyLine, s, Those(lines, wanted))
    decreases |lines|
  {
    if lines != [] {
      FoldThose(step(s, lines[0]), lines[1..], step, wanted);
      if wanted(lines[0]) {
        assert ([lines[0]] + Those(lines[1..], wanted))[1..] == Those(lines[1..], wanted);
      } else {
        assert [] + Those(lines[1..], wanted) == Those(lines[1..], wanted);
      }
    }
  }

  /** Wherever they stand, the lines that begin with "role" are done first, then those that begin with "perm" or "grant"; each kind in its order. */
  lemma RolesFirst(lines: seq<string>)
    ensures LoadLines(lines) ==
      FoldLines(ApplyLine, FoldLines(ApplyLine, State([], []), Those(lines, line => "role" <= line)),
                Those(lines, line => "perm" <= line || "grant" <= line))
  {
    FoldThose(EMPTY, lines, RoleStep, line => "role" <= line);
    FoldThose(RolePass(EMPTY, lines), lines, EntryStep, line => "perm" <= line || "grant" <= line);
  }
}
