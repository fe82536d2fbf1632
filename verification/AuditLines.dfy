/**
  Which lines of a log are events, whoever wrote them: exactly those with seven
  well-formed fields (audit/src/audit_impl.c, esc_field, parse_event).
 */
module AuditLines {
  import opened CText
  import opened AuditFormat

  /** What a backslash and this character stand for. */
  ghost predicate Means(c: char, d: char) {
    (c == '\\' && d == '\\') || (c == '|' && d == '|') || (c == 'n' && d == '\n') || (c == 'r' && d == '\r')
  }

  /** The text of a field as it stands in a line, and what it stands for. */
  ghost predicate Reads(raw: string, t: string) {
    if raw == "" then t == ""
    else if raw[0] == '\\' then |raw| > 1 && t != "" && Means(raw[1], t[0]) && Reads(raw[2..], t[1..])
    else raw[0] != '|' && t != "" && t[0] == raw[0] && Reads(raw[1..], t[1..])
  }

  /** A field at k: the text from there to e, the end of the line or a bar; next is what comes behind. */
  ghost predicate FieldAt(line: string, k: nat, e: nat, next: nat) {
    k <= e <= |line| && if e == |line| then next == e else line[e] == '|' && next == e + 1
  }

  lemma UnescapeIs(c: char, d: char)
    ensures Unescape(c) == Some(d) <==> Means(c, d)
  {
  }

  /** Every field that is read stands in the line like that. */
  lemma {:induction false} FieldSound(line: string, k: nat, acc: string, cap: nat) returns (e: nat, t: string)
    requires k <= |line| && Field(line, k, acc, cap).Some? && |acc| < cap
    ensures var (f, next) := Field(line, k, acc, cap).value;
      FieldAt(line, k, e, next) && f == acc + t && |f| < cap && Reads(line[k..e], t)
    decreases |line| - k
  {
    if k == |line| || line[k] == '|' {
      e, t := k, "";
      assert acc + "" == acc;
    } else if line[k] == '\\' {
      var c := Unescape(line[k + 1]).value;
      UnescapeIs(line[k + 1], c);
      var rest;
      e, rest := FieldSound(line, k + 2, acc + [c], cap);
      t := [c] + rest;
      EscapedHead(line, k, e, c, rest);
      assert acc + [c] + rest == acc + t;
    } else {
      var rest;
      e, rest := FieldSound(line, k + 1, acc + [line[k]], cap);
      t := [line[k]] + rest;
      PlainHead(line, k, e, rest);
      assert acc + [line[k]] + rest == acc + t;
    }
  }

  lemma EscapedHead(line: string, k: nat, e: nat, c: char, rest: string)
    requires k + 2 <= e <= |line| && line[k] == '\\' && Means(line[k + 1], c) && Reads(line[k + 2..e], rest)
    ensures Reads(line[k..e], [c] + rest)
  {
    assert line[k..e][2..] == line[k + 2..e] && ([c] + rest)[1..] == rest;
  }

  lemma PlainHead(line: string, k: nat, e: nat, rest: string)
    requires k + 1 <= e <= |line| && line[k] != '\\' && line[k] != '|' && Reads(line[k + 1..e], rest)
    ensures Reads(line[k..e], [line[k]] + rest)
  {
    assert line[k..e][1..] == line[k + 1..e] && ([line[k]] + rest)[1..] == rest;
  }

  /** Every field that stands in the line like that, and fits its buffer, is read. */
  lemma {:induction false} FieldComplete(line: string, k: nat, acc: string, cap: nat, e: nat, next: nat, t: string)
    requires FieldAt(line, k, e, next) && Reads(line[k..e], t) && |acc| + |t| < cap
    ensures Field(line, k, acc, cap) == Some((acc + t, next))
    decreases |line| - k
  {
    if k == e {
      assert line[k..e] == "" && acc + t == acc;
    } else {
      assert line[k..e][0] == line[k];
      if line[k] == '\\' {
        assert line[k..e][1] == line[k + 1] && line[k..e][2..] == line[k + 2..e];
        UnescapeIs(line[k + 1], t[0]);
        FieldComplete(line, k + 2, acc + [t[0]], cap, e, next, t[1..]);
      } else {
        assert line[k..e][1..] == line[k + 1..e];
        FieldComplete(line, k + 1, acc + [t[0]], cap, e, next, t[1..]);
      }
      assert acc + [t[0]] + t[1..] == acc + t;
    }
  }

  /** The places of the fields of a line from k on: each begins where the one before says; past the end they are empty. */
  ghost predicate Layout(line: string, k: nat, i: nat, ends: seq<nat>, fs: seq<string>)
    decreases |fs|
  {
    if i >= 7 then ends == [] && fs == [] && k == |line|
    else
      && ends != [] && fs != [] && k <= ends[0] <= |line|
      && |fs[0]| < Cap(i) && Reads(line[k..ends[0]], fs[0])
      && (ends[0] < |line| ==> line[ends[0]] == '|')
      && Layout(line, if ends[0] < |line| then ends[0] + 1 else ends[0], i + 1, ends[1..], fs[1..])
  }

  lemma FieldsHead(line: string, k: nat, i: nat, f: string, next: nat, fs: seq<string>)
    requires k <= |line| && i < 7 && Field(line, k, [], Cap(i)) == Some((f, next)) && next <= |line|
    requires Fields(line, next, i + 1) == Some((fs, |line|))
    ensures Fields(line, k, i) == Some(([f] + fs, |line|))
  {
  }

  lemma {:induction false} FieldsComplete(line: string, k: nat, i: nat, ends: seq<nat>, fs: seq<string>)
    requires k <= |line| && i <= 7 && Layout(line, k, i, ends, fs)
    ensures Fields(line, k, i) == Some((fs, |line|))
    decreases 7 - i
  {
    if i < 7 {
      var next := if ends[0] < |line| then ends[0] + 1 else ends[0];
      FieldComplete(line, k, [], Cap(i), ends[0], next, fs[0]);
      assert [] + fs[0] == fs[0];
      FieldsComplete(line, next, i + 1, ends[1..], fs[1..]);
      FieldsHead(line, k, i, fs[0], next, fs[1..]);
      assert [fs[0]] + fs[1..] == fs;
    }
  }

  lemma {:induction false} FieldsSound(line: string, k: nat, i: nat) returns (ends: seq<nat>)
    requires k <= |line| && i <= 7 && Fields(line, k, i).Some? && Fields(line, k, i).value.1 == |line|
    ensures Layout(line, k, i, ends, Fields(line, k, i).value.0)
    decreases 7 - i
  {
    if i == 7 {
      ends := [];
    } else {
      var f := Field(line, k, [], Cap(i)).value;
      var e, t := FieldSound(line, k, [], Cap(i));
      assert [] + t == t;
      var rest := FieldsSound(line, f.1, i + 1);
      ends := [e] + rest;
      LayoutHead(line, k, i, e, rest, f.0, Fields(line, f.1, i + 1).value.0);
    }
  }

  lemma LayoutHead(line: string, k: nat, i: nat, e: nat, ends: seq<nat>, f: string, fs: seq<string>)
    requires k <= e <= |line| && i < 7 && |f| < Cap(i) && Reads(line[k..e], f) && (e < |line| ==> line[e] == '|')
    requires Layout(line, if e < |line| then e + 1 else e, i + 1, ends, fs)
    ensures Layout(line, k, i, [e] + ends, [f] + fs)
  {
    assert ([e] + ends)[1..] == ends && ([f] + fs)[1..] == fs;
  }

  /** The whole line, from its k-th byte on, is laid out in the fields from the i-th to the seventh. */
  ghost predicate Laid(line: string, k: nat, i: nat, fs: seq<string>) {
    exists ends :: Layout(line, k, i, ends, fs)
  }

  lemma FieldsIff(line: string, k: nat, i: nat, fs: seq<string>)
    requires k <= |line| && i <= 7
    ensures Fields(line, k, i) == Some((fs, |line|)) <==> Laid(line, k, i, fs)
  {
    if Fields(line, k, i) == Some((fs, |line|)) {
      var ends := FieldsSound(line, k, i);
    }
    if Laid(line, k, i, fs) {
      var ends :| Layout(line, k, i, ends, fs);
      FieldsComplete(line, k, i, ends, fs);
    }
  }

  /**
    A line is read as an event exactly when it is laid out in seven fields that fit
    their buffers, with no other escapes than the four, the first two and the
    sixth of them numbers in range, and these are the event's.
   */
  lemma ParseIff(line: string, e: Event)
    requires NUL !in line && line != "" && line[|line| - 1] != '\n' && line[|line| - 1] != '\r'
    ensures Parse(line) == Some(e) <==> exists fs :: Laid(line, 0, 0, fs) && Stands(fs, e)
  {
    ParseOfFields(line, e);
    EachLaid(line, 0, 0);
  }

  lemma EachLaid(line: string, k: nat, i: nat)
    requires k <= |line| && i <= 7
    ensures forall fs :: Fields(line, k, i) == Some((fs, |line|)) <==> Laid(line, k, i, fs)
  {
    forall fs
      ensures Fields(line, k, i) == Some((fs, |line|)) <==> Laid(line, k, i, fs)
    {
      FieldsIff(line, k, i, fs);
    }
  }

  lemma ParseOfFields(line: string, e: Event)
    requires NUL !in line && line != "" && line[|line| - 1] != '\n' && line[|line| - 1] != '\r'
    ensures Parse(line) == Some(e) <==>
      Fields(line, 0, 0).Some? && Fields(line, 0, 0).value.1 == |line| && Stands(Fields(line, 0, 0).value.0, e)
  {
    CStrId(line);
    assert StripEol(line) == line;
    if Fields(line, 0, 0).Some? {
      EventOfIff(Fields(line, 0, 0).value.0, e);
    }
  }

  lemma EventOfIff(fs: seq<string>, e: Event)
    requires |fs| == 7
    ensures EventOf(fs) == Some(e) <==> Stands(fs, e)
  {
  }

  /** The texts of the fields are those of the event: whole numbers in range, the number of the event not 0. */
  ghost predicate Stands(fs: seq<string>, e: Event) {
    && |fs| == 7
    && NumberOnly(fs[0]) && Strtoull(fs[0]) == e.seq_ != 0
    && NumberOnly(fs[1]) && Strtoll(fs[1]) == e.ts
    && NumberOnly(fs[5]) && Strtoll(fs[5]) == e.result && -0x8000_0000 <= e.result <= 0x7fff_ffff
    && fs[2] == e.subject && fs[3] == e.action && fs[4] == e.target && fs[6] == e.detail
  }

  lemma {:induction false} EolsGone(line: string, eols: string)
    requires (forall k | 0 <= k < |eols| :: eols[k] == '\n' || eols[k] == '\r')
    requires line == "" || (line[|line| - 1] != '\n' && line[|line| - 1] != '\r')
    ensures StripEol(line + eols) == line
    decreases |eols|
  {
    if eols == "" {
      assert line + eols == line;
    } else {
      var front := eols[..|eols| - 1];
      assert (line + eols)[..|line + eols| - 1] == line + front && (line + eols)[|line + eols| - 1] == eols[|eols| - 1];
      EolsGone(line, front);
    }
  }

  /** Line ends behind a line do not matter, and nothing is read from an empty one. */
  lemma EolsIgnored(line: string, eols: string)
    requires NUL !in line && forall k | 0 <= k < |eols| :: eols[k] == '\n' || eols[k] == '\r'
    requires line == "" || (line[|line| - 1] != '\n' && line[|line| - 1] != '\r')
    ensures Parse(line + eols) == Parse(line) && (line == "" ==> Parse(eols) == None)
  {
    CStrId(line + eols);
    CStrId(line);
    EolsGone(line, eols);
    assert StripEol(line) == line;
    if line == "" {
      assert line + eols == eols;
    }
  }
}
