/**
  One line of the audit log: escaping, printing and parsing
  (audit/src/audit_impl.c, fmt_esc .. parse_event).
 */
module AuditFormat {
  import opened CText

  const SUBJECT_MAX: nat := 64
  const ACTION_MAX: nat := 64
  const TARGET_MAX: nat := 256
  const DETAIL_MAX: nat := 512
  const LINE_MAX: nat := 4096
  const NUM_MAX: nat := 32

  datatype Event = Event(seq_: nat, ts: int, result: int,
                         subject: string, action: string, target: string, detail: string)

  predicate FitsField(s: string, max: nat) {
    |s| < max && NUL !in s
  }

  /** An event that carries a sequence number; 0 means "not assigned". */
  predicate InBounds(e: Event) {
    Printable(e) && e.seq_ > 0
  }

  /** What the C struct can hold: NUL-terminated arrays and fixed-width integers. */
  predicate Printable(e: Event) {
    && e.seq_ < TWO_POW_64
    && -TWO_POW_63 <= e.ts < TWO_POW_63
    && -0x8000_0000 <= e.result <= 0x7fff_ffff
    && FitsField(e.subject, SUBJECT_MAX) && FitsField(e.action, ACTION_MAX)
    && FitsField(e.target, TARGET_MAX) && FitsField(e.detail, DETAIL_MAX)
  }

  // ---------------------------------------------------------------- printing

  function EscChar(c: char): string {
    if c == '\\' then "\\\\"
    else if c == '|' then "\\|"
    else if c == '\n' then "\\n"
    else if c == '\r' then "\\r"
    else [c]
  }

  function Esc(s: string): string {
    if s == [] then [] else EscChar(s[0]) + Esc(s[1..])
  }

  /** fmt_esc's output for a buffer of cap bytes that already holds o bytes: it stops before the first piece that does not fit. */
  function EscFit(s: string, o: nat, cap: nat): string {
    if s == [] || o + |EscChar(s[0])| >= cap then []
    else EscChar(s[0]) + EscFit(s[1..], o + |EscChar(s[0])|, cap)
  }

  /** Fields separated by '|'. */
  function Bars(fields: seq<string>): string
    requires fields != []
  {
    if |fields| == 1 then fields[0] else fields[0] + ("|" + Bars(fields[1..]))
  }

  /** `%llu|%lld|%s|%s|%s|%d|%s` */
  function Body(e: Event): string {
    Bars([Dec(e.seq_), DecInt(e.ts), Esc(e.subject), Esc(e.action),
          Esc(e.target), DecInt(e.result), Esc(e.detail)])
  }

  function LineOf(e: Event): string {
    Body(e) + "\n"
  }

  function PrintAll(evs: seq<Event>): string {
    ConcatMap(LineOf, evs)
  }

  lemma {:induction false} EscFits(s: string, o: nat, cap: nat)
    ensures EscFit(s, o, cap) <= Esc(s)
    ensures o + |Esc(s)| < cap ==> EscFit(s, o, cap) == Esc(s)
  {
    if s != [] {
      EscFits(s[1..], o + |EscChar(s[0])|, cap);
    }
  }

  lemma {:induction false} EscLength(s: string)
    ensures |Esc(s)| <= 2 * |s|
  {
    if s != [] {
      EscLength(s[1..]);
    }
  }

  predicate Special(c: char) {
    c == '\\' || c == '|' || c == '\n' || c == '\r'
  }

  /** Escaped text holds no raw line ends, and no NUL when the field has none. */
  lemma {:induction false} EscClean(s: string)
    ensures '\n' !in Esc(s) && '\r' !in Esc(s)
    ensures NUL !in s ==> NUL !in Esc(s)
  {
    if s != [] {
      EscClean(s[1..]);
    }
  }

  lemma {:induction false} EscPlain(s: string)
    requires forall i | 0 <= i < |s| :: !Special(s[i])
    ensures Esc(s) == s
  {
    if s != [] {
      EscPlain(s[1..]);
      assert s == [s[0]] + s[1..];
    }
  }

  method PutPiece(out: array<char>, o: nat, piece: string)
    requires |piece| == 1 || |piece| == 2
    requires o + |piece| < out.Length
    modifies out
    ensures out[..o + |piece|] == old(out[..o]) + piece
  {
    out[o] := piece[0];
    if |piece| == 2 {
      out[o + 1] := piece[1];
    }
  }

  method FmtEsc(out: array<char>, s: string) returns (o: nat)
    requires out.Length > 0
    modifies out
    ensures o < out.Length && out[..o] == EscFit(s, 0, out.Length) && out[o] == NUL
  {
    o := 0;
    var i := 0;
    ghost var all := EscFit(s, 0, out.Length);
    while i < |s| && o + |EscChar(s[i])| < out.Length
      invariant 0 <= i <= |s| && o < out.Length
      invariant out[..o] + EscFit(s[i..], o, out.Length) == all
      decreases |s| - i
    {
      EscFitStep(s, i, o, out.Length, out[..o]);
      PutPiece(out, o, EscChar(s[i]));
      o := o + |EscChar(s[i])|;
      i := i + 1;
    }
    EscFitStop(s, i, o, out.Length, out[..o]);
    out[o] := NUL;
  }

  /** One more piece behind what is done already. */
  lemma EscFitStep(s: string, i: nat, o: nat, cap: nat, done: string)
    requires i < |s| && o + |EscChar(s[i])| < cap
    ensures done + EscFit(s[i..], o, cap) ==
            done + EscChar(s[i]) + EscFit(s[i + 1..], o + |EscChar(s[i])|, cap)
  {
    assert s[i..][0] == s[i] && s[i..][1..] == s[i + 1..];
    ConcatAssoc(done, EscChar(s[i]), EscFit(s[i + 1..], o + |EscChar(s[i])|, cap));
  }

  lemma EscFitStop(s: string, i: nat, o: nat, cap: nat, done: string)
    requires i <= |s| && (i < |s| ==> o + |EscChar(s[i])| >= cap)
    ensures done + EscFit(s[i..], o, cap) == done
  {
    assert i < |s| ==> s[i..][0] == s[i];
  }

  /** fmt_line: the printed line, or nothing when it does not fit in cap bytes. */
  method FmtLine(e: Event, cap: nat) returns (line: string)
    ensures Printable(e) ==> line == if |LineOf(e)| < cap then LineOf(e) else []
    ensures line == [] || |line| < cap
  {
    var subj := new char[SUBJECT_MAX * 2 + 1];
    var act := new char[ACTION_MAX * 2 + 1];
    var tgt := new char[TARGET_MAX * 2 + 1];
    var det := new char[DETAIL_MAX * 2 + 1];
    var ns := FmtEsc(subj, e.subject);
    var na := FmtEsc(act, e.action);
    var nt := FmtEsc(tgt, e.target);
    var nd := FmtEsc(det, e.detail);
    line := Bars([Dec(e.seq_), DecInt(e.ts), subj[..ns], act[..na], tgt[..nt], DecInt(e.result), det[..nd]]) + "\n";
    if |line| >= cap {
      line := [];
    }
    assert Printable(e) ==> subj[..ns] == Esc(e.subject) by { EscLength(e.subject); EscFits(e.subject, 0, subj.Length); }
    assert Printable(e) ==> act[..na] == Esc(e.action) by { EscLength(e.action); EscFits(e.action, 0, act.Length); }
    assert Printable(e) ==> tgt[..nt] == Esc(e.target) by { EscLength(e.target); EscFits(e.target, 0, tgt.Length); }
    assert Printable(e) ==> det[..nd] == Esc(e.detail) by { EscLength(e.detail); EscFits(e.detail, 0, det.Length); }
  }

  lemma {:induction false} BarsLength(fields: seq<string>, caps: seq<nat>)
    requires fields != [] && |caps| == |fields|
    requires forall i | 0 <= i < |fields| :: |fields[i]| <= caps[i]
    ensures |Bars(fields)| < Sum(caps) + |caps|
  {
    if |fields| > 1 {
      BarsLength(fields[1..], caps[1..]);
    } else {
      assert Sum(caps) == caps[0] + Sum(caps[1..]);
    }
  }

  function Sum(ns: seq<nat>): nat {
    if ns == [] then 0 else ns[0] + Sum(ns[1..])
  }

  /** The printed line always fits the 4096-byte buffer, NUL included: nothing is ever truncated. */
  lemma LineFits(e: Event)
    requires Printable(e)
    ensures |LineOf(e)| < LINE_MAX
  {
    EscLength(e.subject);
    EscLength(e.action);
    EscLength(e.target);
    EscLength(e.detail);
    NumberShort(e.seq_, e.ts, e.result);
    BodyLength(Dec(e.seq_), DecInt(e.ts), Esc(e.subject), Esc(e.action), Esc(e.target), DecInt(e.result), Esc(e.detail));
  }

  lemma NumberShort(n: nat, t: int, r: int)
    requires n < TWO_POW_64 && -TWO_POW_63 <= t < TWO_POW_63 && -TWO_POW_63 <= r < TWO_POW_63
    ensures |Dec(n)| <= 20 && |DecInt(t)| <= 21 && |DecInt(r)| <= 21
  {
    UnsignedRoundTrip(n);
    SignedRoundTrip(t);
    SignedRoundTrip(r);
  }

  const LENGTHS: seq<nat> := [20, 21, 126, 126, 510, 21, 1022]

  lemma LengthsSum()
    ensures Sum(LENGTHS) == 1846
  {
    SumCons(21, [1022]);
    SumCons(510, [21, 1022]);
    SumCons(126, [510, 21, 1022]);
    SumCons(126, [126, 510, 21, 1022]);
    SumCons(21, [126, 126, 510, 21, 1022]);
    SumCons(20, [21, 126, 126, 510, 21, 1022]);
    assert Sum([1022]) == 1022 + Sum([]);
  }

  lemma SumCons(n: nat, ns: seq<nat>)
    ensures Sum([n] + ns) == n + Sum(ns)
  {
    assert ([n] + ns)[1..] == ns;
  }

  lemma BodyLength(a: string, b: string, c: string, d: string, e: string, f: string, g: string)
    requires |a| <= 20 && |b| <= 21 && |c| <= 126 && |d| <= 126 && |e| <= 510 && |f| <= 21 && |g| <= 1022
    ensures |Bars([a, b, c, d, e, f, g])| < 1846 + 7
  {
    LengthsSum();
    BarsLength([a, b, c, d, e, f, g], LENGTHS);
  }

  // ---------------------------------------------------------------- parsing

  function Unescape(c: char): Option<char> {
    if c == '\\' then Some('\\')
    else if c == '|' then Some('|')
    else if c == 'n' then Some('\n')
    else if c == 'r' then Some('\r')
    else None
  }

  /** esc_field from index k with acc already stored: the field and the index past its separator. */
  function Field(line: string, k: nat, acc: string, cap: nat): (r: Option<(string, nat)>)
    requires k <= |line|
    ensures r.Some? ==> k <= r.value.1 <= |line|
    decreases |line| - k
  {
    if k == |line| then Some((acc, k))
    else if line[k] == '|' then Some((acc, k + 1))
    else if line[k] == '\\' then
      if k + 1 >= |line| then None
      else
        var c :- Unescape(line[k + 1]);
        if |acc| + 1 >= cap then None else Field(line, k + 2, acc + [c], cap)
    else if |acc| + 1 >= cap then None
    else Field(line, k + 1, acc + [line[k]], cap)
  }

  function StripEol(s: string): (t: string)
    ensures t <= s
  {
    if s != [] && (s[|s| - 1] == '\n' || s[|s| - 1] == '\r') then StripEol(s[..|s| - 1]) else s
  }

  const FIELD_COUNT: nat := 7

  /** The buffer esc_field gets for the i-th field. */
  function Cap(i: nat): (c: nat)
    ensures c > 0
  {
    if i == 2 then SUBJECT_MAX
    else if i == 3 then ACTION_MAX
    else if i == 4 then TARGET_MAX
    else if i == 6 then DETAIL_MAX
    else NUM_MAX
  }

  /** The esc_field calls from the i-th field on: the fields and where reading stopped. */
  function Fields(line: string, k: nat, i: nat): (r: Option<(seq<string>, nat)>)
    requires k <= |line| && i <= FIELD_COUNT
    ensures r.Some? ==> |r.value.0| == FIELD_COUNT - i && r.value.1 <= |line|
    decreases FIELD_COUNT - i
  {
    if i == FIELD_COUNT then Some(([], k))
    else
      match Field(line, k, [], Cap(i))
      case None => None
      case Some(f) =>
        match Fields(line, f.1, i + 1)
        case None => None
        case Some(fs) => Some(([f.0] + fs.0, fs.1))
  }

  /** The event seven fields stand for, if the numbers are numbers in range. */
  function EventOf(fs: seq<string>): Option<Event>
    requires |fs| == 7
  {
    if GoodSeq(fs[0]) && NumberOnly(fs[1]) && GoodResult(fs[5]) then
      Some(Event(Strtoull(fs[0]), Strtoll(fs[1]), Strtoll(fs[5]), fs[2], fs[3], fs[4], fs[6]))
    else None
  }

  /** parse_event on one fgets buffer. */
  function Parse(buf: string): Option<Event> {
    var line := StripEol(CStr(buf));
    if line == [] then None
    else
      match Fields(line, 0, 0)
      case None => None
      case Some(fs) => if fs.1 == |line| then EventOf(fs.0) else None
  }

  /** The events a log file holds: every buffer fgets yields, unparsable ones skipped. */
  function Parsed(lines: seq<string>): seq<Event> {
    if lines == [] then []
    else
      var rest := Parsed(lines[1..]);
      match Parse(lines[0])
      case Some(e) => [e] + rest
      case None => rest
  }

  function EventsIn(text: string): seq<Event> {
    Parsed(FileLines(text, LINE_MAX))
  }

  method EscField(line: string, pos: nat, out: array<char>) returns (ok: bool, o: nat, next: nat)
    requires pos <= |line| && out.Length > 0
    modifies out
    ensures ok <==> Field(line, pos, [], out.Length).Some?
    ensures ok ==> o < out.Length && out[o] == NUL && pos <= next <= |line|
    ensures ok ==> Field(line, pos, [], out.Length) == Some((out[..o], next))
  {
    ok, o, next := false, 0, pos;
    var k := pos;
    while k < |line| && line[k] != '|'
      invariant pos <= k <= |line| && o < out.Length
      invariant Field(line, k, out[..o], out.Length) == Field(line, pos, [], out.Length)
      decreases |line| - k
    {
      var c := line[k];
      k := k + 1;
      if c == '\\' {
        if k >= |line| { return; }
        var e := line[k];
        k := k + 1;
        if e == '\\' {
          c := '\\';
        } else if e == '|' {
          c := '|';
        } else if e == 'n' {
          c := '\n';
        } else if e == 'r' {
          c := '\r';
        } else {
          return;
        }
      }
      if o + 1 >= out.Length { return; }
      out[o] := c;
      assert out[..o + 1] == out[..o] + [c];
      o := o + 1;
    }
    out[o] := NUL;
    ok := true;
    next := if k < |line| then k + 1 else k;
  }

  /** The fields read so far, and the indices at which each began and the last one ended. */
  ghost predicate Chain(line: string, fs: seq<string>, pos: seq<nat>) {
    && |fs| <= FIELD_COUNT && |pos| == |fs| + 1 && pos[0] == 0
    && (forall i | 0 <= i <= |fs| :: pos[i] <= |line|)
    && (forall i | 0 <= i < |fs| :: Field(line, pos[i], [], Cap(i)) == Some((fs[i], pos[i + 1])))
  }

  function Prepend(fs: seq<string>, rest: Option<(seq<string>, nat)>): Option<(seq<string>, nat)> {
    match rest
    case None => None
    case Some(r) => Some((fs + r.0, r.1))
  }

  /** What the line's fields are, given the ones already read. */
  lemma {:induction false} ChainRest(line: string, fs: seq<string>, pos: seq<nat>)
    requires Chain(line, fs, pos)
    ensures Fields(line, 0, 0) == Prepend(fs, Fields(line, pos[|fs|], |fs|))
  {
    var n := |fs|;
    var rest := Fields(line, pos[n], n);
    if n == 0 {
      assert rest.Some? ==> [] + rest.value.0 == rest.value.0;
    } else {
      var last := fs[n - 1];
      ChainRest(line, fs[..n - 1], pos[..n]);
      assert fs == fs[..n - 1] + [last];
      if rest.Some? {
        ConcatAssoc(fs[..n - 1], [last], rest.value.0);
      }
    }
  }

  /** Whatever parses, its first fields are the ones already read; and a failing esc_field fails the line. */
  lemma ChainPrefix(line: string, fs: seq<string>, pos: seq<nat>)
    requires Chain(line, fs, pos)
    ensures Fields(line, 0, 0).Some? ==> fs <= Fields(line, 0, 0).value.0
    ensures |fs| < FIELD_COUNT && Field(line, pos[|fs|], [], Cap(|fs|)).None? ==> Fields(line, 0, 0) == None
    ensures |fs| == FIELD_COUNT ==> Fields(line, 0, 0) == Some((fs, pos[|fs|]))
  {
    ChainRest(line, fs, pos);
    if |fs| == FIELD_COUNT {
      assert fs + [] == fs;
    }
  }

  predicate GoodSeq(s: string) {
    NumberOnly(s) && Strtoull(s) != 0
  }

  predicate GoodResult(s: string) {
    NumberOnly(s) && -0x8000_0000 <= Strtoll(s) <= 0x7fff_ffff
  }

  /** One field of parse_event, read into its own buffer and joined to the fields read before. */
  method NextField(ghost buf: string, line: string, pos: nat, cap: nat, ghost fs: seq<string>, ghost at: seq<nat>)
      returns (ok: bool, field: string, next: nat, ghost fs': seq<string>, ghost at': seq<nat>)
    requires line == StripEol(CStr(buf))
    requires Chain(line, fs, at) && |fs| < FIELD_COUNT && cap == Cap(|fs|) && pos == at[|fs|]
    ensures !ok ==> Parse(buf) == None
    ensures ok ==> fs' == fs + [field] && Chain(line, fs', at') && at'[|fs'|] == next
  {
    var out := new char[cap];
    var n;
    ok, n, next := EscField(line, pos, out);
    field := [];
    fs', at' := fs, at;
    ChainPrefix(line, fs, at);
    if ok {
      field := out[..n];
      fs', at' := fs + [field], at + [next];
    }
  }

  /** A line whose fields so far already contain a bad number is rejected, whatever follows. */
  lemma Rejected(buf: string, fs: seq<string>, at: seq<nat>)
    requires Chain(StripEol(CStr(buf)), fs, at)
    requires || (|fs| >= 1 && !GoodSeq(fs[0])) || (|fs| >= 2 && !NumberOnly(fs[1]))
             || (|fs| >= 6 && !GoodResult(fs[5]))
             || (|fs| == FIELD_COUNT && at[FIELD_COUNT] != |StripEol(CStr(buf))|)
    ensures Parse(buf) == None
  {
    var line := StripEol(CStr(buf));
    ChainPrefix(line, fs, at);
    var r := Fields(line, 0, 0);
    if r.Some? {
      assert forall i | 0 <= i < |fs| :: r.value.0[i] == fs[i];
    }
  }

  /** A line whose seven fields were read to its end and whose numbers are good is the event they spell. */
  lemma Accepted(buf: string, fs: seq<string>, at: seq<nat>)
    requires Chain(StripEol(CStr(buf)), fs, at) && StripEol(CStr(buf)) != []
    requires |fs| == FIELD_COUNT && at[FIELD_COUNT] == |StripEol(CStr(buf))|
    requires GoodSeq(fs[0]) && NumberOnly(fs[1]) && GoodResult(fs[5])
    ensures Parse(buf) == Some(Event(Strtoull(fs[0]), Strtoll(fs[1]), Strtoll(fs[5]), fs[2], fs[3], fs[4], fs[6]))
  {
    ChainPrefix(StripEol(CStr(buf)), fs, at);
  }

  /** The seven fields as parse_event has them. */
  lemma AcceptedParts(buf: string, head: seq<string>, strings: seq<string>, result: string, detail: string, at: seq<nat>)
    requires |head| == 2 && |strings| == 3 && StripEol(CStr(buf)) != []
    requires Chain(StripEol(CStr(buf)), head + strings + [result] + [detail], at)
    requires at[FIELD_COUNT] == |StripEol(CStr(buf))|
    requires GoodSeq(head[0]) && NumberOnly(head[1]) && GoodResult(result)
    ensures Parse(buf) == Some(Event(Strtoull(head[0]), Strtoll(head[1]), Strtoll(result),
                                     strings[0], strings[1], strings[2], detail))
  {
    Accepted(buf, head + strings + [result] + [detail], at);
  }

  /** subject, action and target, in the order of the line. */
  method NextStrings(ghost buf: string, line: string, pos: nat, ghost fs: seq<string>, ghost at: seq<nat>)
      returns (ok: bool, strings: seq<string>, next: nat, ghost fs': seq<string>, ghost at': seq<nat>)
    requires line == StripEol(CStr(buf))
    requires Chain(line, fs, at) && |fs| == 2 && pos == at[2]
    ensures !ok ==> Parse(buf) == None
    ensures ok ==> |strings| == 3 && fs' == fs + strings && Chain(line, fs', at') && at'[5] == next
  {
    strings, next, fs', at' := [], pos, fs, at;
    var i := 0;
    ok := true;
    while i < 3
      invariant 0 <= i <= 3 && |strings| == i && fs' == fs + strings
      invariant Chain(line, fs', at') && at'[2 + i] == next
    {
      var field;
      ok, field, next, fs', at' := NextField(buf, line, next, Cap(2 + i), fs', at');
      if !ok { return; }
      strings := strings + [field];
      i := i + 1;
    }
  }

  /** A numeric field: seq, ts or result, the i-th of the line, checked as soon as it is read. */
  method NextNumber(ghost buf: string, line: string, pos: nat, i: nat, ghost fs: seq<string>, ghost at: seq<nat>)
      returns (ok: bool, field: string, next: nat, ghost fs': seq<string>, ghost at': seq<nat>)
    requires line == StripEol(CStr(buf)) && (i == 0 || i == 1 || i == 5)
    requires Chain(line, fs, at) && |fs| == i && pos == at[i]
    ensures !ok ==> Parse(buf) == None
    ensures ok ==> fs' == fs + [field] && Chain(line, fs', at') && at'[|fs'|] == next && GoodNumber(i, field)
  {
    ok, field, next, fs', at' := NextField(buf, line, pos, NUM_MAX, fs, at);
    if ok && !GoodNumber(i, field) {
      Rejected(buf, fs', at');
      ok := false;
    }
  }

  predicate GoodNumber(i: nat, s: string) {
    if i == 0 then GoodSeq(s) else if i == 5 then GoodResult(s) else NumberOnly(s)
  }

  /** seq and ts, the first two fields of the line. */
  method NextHead(ghost buf: string, line: string)
      returns (ok: bool, head: seq<string>, next: nat, ghost fs: seq<string>, ghost at: seq<nat>)
    requires line == StripEol(CStr(buf))
    ensures !ok ==> Parse(buf) == None
    ensures ok ==> |head| == 2 && fs == head && Chain(line, fs, at) && at[2] == next
    ensures ok ==> GoodSeq(head[0]) && NumberOnly(head[1])
  {
    head, next, fs, at := [], 0, [], [0];
    var i := 0;
    ok := true;
    while i < 2
      invariant 0 <= i <= 2 && |head| == i && fs == head
      invariant Chain(line, fs, at) && at[i] == next
      invariant i > 0 ==> GoodSeq(head[0])
      invariant i > 1 ==> NumberOnly(head[1])
    {
      var field;
      ok, field, next, fs, at := NextNumber(buf, line, next, i, fs, at);
      if !ok { return; }
      head := head + [field];
      i := i + 1;
    }
  }

  method ParseEvent(buf: string) returns (r: Option<Event>)
    ensures r == Parse(buf)
  {
    var line := StripEol(CStr(buf));
    if line == [] { return None; }
    var strings, resText, detail;
    var ok, head, pos, fs, at := NextHead(buf, line);
    if !ok { return None; }
    ok, strings, pos, fs, at := NextStrings(buf, line, pos, fs, at);
    if !ok { return None; }
    ok, resText, pos, fs, at := NextNumber(buf, line, pos, 5, fs, at);
    if !ok { return None; }
    ok, detail, pos, fs, at := NextField(buf, line, pos, DETAIL_MAX, fs, at);
    if !ok { return None; }
    if pos != |line| { Rejected(buf, fs, at); return None; }
    AcceptedParts(buf, head, strings, resText, detail, at);
    r := Some(Event(Strtoull(head[0]), Strtoll(head[1]), Strtoll(resText),
                    strings[0], strings[1], strings[2], detail));
  }

  // ---------------------------------------------------------------- round trip

  /** esc_field on the escaped form of one character. */
  lemma FieldUnit(line: string, k: nat, c: char, rest: string, acc: string, cap: nat) returns (next: nat)
    requires k <= |line| && line[k..] == EscChar(c) + rest
    requires |acc| + 1 < cap
    ensures next == k + |EscChar(c)| && next <= |line| && line[next..] == rest
    ensures Field(line, k, acc, cap) == Field(line, next, acc + [c], cap)
  {
    next := k + |EscChar(c)|;
    DropPiece(line, k, EscChar(c), rest);
    assert line[k] == EscChar(c)[0];
    assert |EscChar(c)| == 2 ==> line[k + 1] == EscChar(c)[1];
  }

  /** esc_field undoes fmt_esc, whatever the field holds, and stops past the separator. */
  lemma {:induction false} FieldOfEsc(line: string, k: nat, s: string, acc: string, cap: nat, tail: string)
    requires k <= |line| && line[k..] == Esc(s) + tail
    requires tail == [] || tail[0] == '|'
    requires |acc| + |s| < cap
    ensures Field(line, k, acc, cap) == Some((acc + s, if tail == [] then |line| else k + |Esc(s)| + 1))
    decreases |s|
  {
    if s == [] {
      assert acc + s == acc;
      FieldEnd(line, k, acc, cap, tail);
    } else {
      EscSplit(s, tail);
      var next := FieldUnit(line, k, s[0], Esc(s[1..]) + tail, acc, cap);
      FieldOfEsc(line, next, s[1..], acc + [s[0]], cap, tail);
      ConcatHead(acc, s);
    }
  }

  lemma FieldEnd(line: string, k: nat, acc: string, cap: nat, tail: string)
    requires k <= |line| && line[k..] == tail && (tail == [] || tail[0] == '|')
    ensures Field(line, k, acc, cap) == Some((acc, if tail == [] then |line| else k + 1))
  {
    assert tail != [] ==> line[k] == tail[0];
  }

  lemma EscSplit(s: string, tail: string)
    requires s != []
    ensures Esc(s) + tail == EscChar(s[0]) + (Esc(s[1..]) + tail)
    ensures |Esc(s)| == |EscChar(s[0])| + |Esc(s[1..])|
  {
    ConcatAssoc(EscChar(s[0]), Esc(s[1..]), tail);
  }

  lemma DropPiece(line: string, k: nat, piece: string, rest: string)
    requires k <= |line| && line[k..] == piece + rest
    ensures k + |piece| <= |line| && line[k..k + |piece|] == piece && line[k + |piece|..] == rest
  {
    assert line[k..k + |piece|] == line[k..][..|piece|];
    assert line[k + |piece|..] == line[k..][|piece|..];
  }

  lemma NumberEsc(i: int)
    requires -TWO_POW_63 <= i < TWO_POW_64
    ensures Esc(DecInt(i)) == DecInt(i) && |DecInt(i)| < NUM_MAX
  {
    DecIntChars(i);
    EscPlain(DecInt(i));
    if i < 0 { SignedRoundTrip(i); } else { UnsignedRoundTrip(i); }
  }

  function EscAll(fs: seq<string>): (es: seq<string>)
    ensures |es| == |fs|
  {
    if fs == [] then [] else [Esc(fs[0])] + EscAll(fs[1..])
  }

  lemma {:induction false} EscAllAt(fs: seq<string>)
    ensures forall i | 0 <= i < |fs| :: EscAll(fs)[i] == Esc(fs[i])
  {
    if fs != [] {
      EscAllAt(fs[1..]);
    }
  }

  lemma FieldStep(line: string, k: nat, s: string, cap: nat, rest: string) returns (next: nat)
    requires k <= |line| && line[k..] == Esc(s) + ("|" + rest)
    requires |s| < cap
    ensures next <= |line| && line[next..] == rest
    ensures Field(line, k, [], cap) == Some((s, next))
  {
    ConcatAssoc(Esc(s), "|", rest);
    FieldOfEsc(line, k, s, [], cap, "|" + rest);
    assert [] + s == s;
    next := k + |Esc(s)| + 1;
    DropPiece(line, k, Esc(s) + "|", rest);
  }

  lemma LastStep(line: string, k: nat, s: string, cap: nat)
    requires k <= |line| && line[k..] == Esc(s)
    requires |s| < cap
    ensures Field(line, k, [], cap) == Some((s, |line|))
  {
    assert line[k..] == Esc(s) + [];
    FieldOfEsc(line, k, s, [], cap, []);
    assert [] + s == s;
  }

  /** Reading back the fields of a printed line, whatever they hold, if each fits its buffer. */
  lemma {:induction false} FieldsOf(line: string, k: nat, fs: seq<string>, i: nat)
    requires fs != [] && |fs| + i == FIELD_COUNT
    requires k <= |line| && line[k..] == Bars(EscAll(fs))
    requires forall j | 0 <= j < |fs| :: |fs[j]| < Cap(i + j)
    ensures Fields(line, k, i) == Some((fs, |line|))
    decreases |fs|
  {
    if |fs| == 1 {
      LastStep(line, k, fs[0], Cap(i));
      assert Fields(line, |line|, FIELD_COUNT) == Some(([], |line|));
    } else {
      assert EscAll(fs)[1..] == EscAll(fs[1..]);
      var next := FieldStep(line, k, fs[0], Cap(i), Bars(EscAll(fs[1..])));
      FieldsOf(line, next, fs[1..], i + 1);
    }
    assert [fs[0]] + fs[1..] == fs;
  }

  lemma {:induction false} BarsFree(fields: seq<string>, c: char)
    requires fields != [] && c != '|'
    requires forall i | 0 <= i < |fields| :: c !in fields[i]
    ensures c !in Bars(fields)
  {
    if |fields| > 1 {
      BarsFree(fields[1..], c);
    }
  }

  lemma BodyClean(e: Event)
    requires InBounds(e)
    ensures '\n' !in Body(e) && '\r' !in Body(e) && NUL !in Body(e)
  {
    BodyFree(e, '\n');
    BodyFree(e, '\r');
    BodyFree(e, NUL);
  }

  lemma TextFree(s: string, max: nat, c: char)
    requires FitsField(s, max) && (c == '\n' || c == '\r' || c == NUL)
    ensures c !in Esc(s)
  {
    EscClean(s);
  }

  lemma NumberFree(i: int, c: char)
    requires c == '\n' || c == '\r' || c == NUL
    ensures c !in DecInt(i)
  {
    DecIntChars(i);
  }

  lemma BodyFree(e: Event, c: char)
    requires InBounds(e) && (c == '\n' || c == '\r' || c == NUL)
    ensures c !in Body(e)
  {
    TextFree(e.subject, SUBJECT_MAX, c);
    TextFree(e.action, ACTION_MAX, c);
    TextFree(e.target, TARGET_MAX, c);
    TextFree(e.detail, DETAIL_MAX, c);
    NumberFree(e.seq_, c);
    NumberFree(e.ts, c);
    NumberFree(e.result, c);
    BarsFree([Dec(e.seq_), DecInt(e.ts), Esc(e.subject), Esc(e.action),
              Esc(e.target), DecInt(e.result), Esc(e.detail)], c);
  }

  lemma BodySeen(e: Event)
    requires InBounds(e)
    ensures StripEol(CStr(LineOf(e))) == Body(e) && Body(e) != []
  {
    BodyClean(e);
    CStrId(LineOf(e));
    var b := Body(e);
    assert (b + "\n")[..|b|] == b;
    assert b[|b| - 1] in b;
  }

  function RawFields(e: Event): seq<string> {
    [Dec(e.seq_), DecInt(e.ts), e.subject, e.action, e.target, DecInt(e.result), e.detail]
  }

  lemma EventOfRaw(e: Event)
    requires InBounds(e)
    ensures EventOf(RawFields(e)) == Some(e)
  {
    SeqBack(e.seq_);
    SignedRoundTrip(e.ts);
    ResultBack(e.result);
    EventOfGood(RawFields(e), e.seq_, e.ts, e.result);
  }

  lemma SeqBack(n: nat)
    requires 0 < n < TWO_POW_64
    ensures GoodSeq(Dec(n)) && Strtoull(Dec(n)) == n
  {
    UnsignedRoundTrip(n);
  }

  lemma ResultBack(i: int)
    requires -0x8000_0000 <= i < 0x8000_0000
    ensures GoodResult(DecInt(i)) && Strtoll(DecInt(i)) == i
  {
    SignedRoundTrip(i);
  }

  lemma EventOfGood(fs: seq<string>, n: nat, t: int, r: int)
    requires |fs| == 7 && GoodSeq(fs[0]) && NumberOnly(fs[1]) && GoodResult(fs[5])
    requires Strtoull(fs[0]) == n && Strtoll(fs[1]) == t && Strtoll(fs[5]) == r
    ensures EventOf(fs) == Some(Event(n, t, r, fs[2], fs[3], fs[4], fs[6]))
  {
  }

  lemma BodyIsRaw(e: Event)
    requires InBounds(e)
    ensures Body(e) == Bars(EscAll(RawFields(e)))
  {
    NumberEsc(e.seq_);
    NumberEsc(e.ts);
    NumberEsc(e.result);
    var fs := RawFields(e);
    EscAllAt(fs);
    assert EscAll(fs) == [Esc(fs[0]), Esc(fs[1]), Esc(fs[2]), Esc(fs[3]), Esc(fs[4]), Esc(fs[5]), Esc(fs[6])];
  }

  /** parse_event reads back exactly the event that fmt_line printed. */
  lemma ParseInvertsPrint(e: Event)
    requires InBounds(e)
    ensures Parse(LineOf(e)) == Some(e)
  {
    BodySeen(e);
    BodyIsRaw(e);
    var line := Body(e);
    assert line[0..] == line;
    NumberEsc(e.seq_);
    NumberEsc(e.ts);
    NumberEsc(e.result);
    FieldsOf(line, 0, RawFields(e), 0);
    EventOfRaw(e);
  }

  predicate AllInBounds(evs: seq<Event>) {
    forall i | 0 <= i < |evs| :: InBounds(evs[i])
  }

  /** The events of a file are that of its first fgets buffer, if it parses, and those of the rest. */
  lemma NextLine(text: string)
    requires text != []
    ensures var n := FgetsLen(text, LINE_MAX);
      EventsIn(text) ==
        match Parse(text[..n])
        case Some(e) => [e] + EventsIn(text[n..])
        case None => EventsIn(text[n..])
  {
    var n := FgetsLen(text, LINE_MAX);
    var lines := FileLines(text, LINE_MAX);
    assert lines[0] == text[..n] && lines[1..] == FileLines(text[n..], LINE_MAX);
  }

  lemma EventsInCons(e: Event, rest: string)
    requires InBounds(e)
    ensures EventsIn(LineOf(e) + rest) == [e] + EventsIn(rest)
  {
    LineFits(e);
    BodyClean(e);
    FgetsWhole(Body(e), rest, LINE_MAX);
    ParseInvertsPrint(e);
    NextLine(LineOf(e) + rest);
  }

  /** A log written line by line is read back, line by line, as exactly the events written. */
  lemma {:induction false} EventsInPrinted(evs: seq<Event>)
    requires AllInBounds(evs)
    ensures EventsIn(PrintAll(evs)) == evs
  {
    if evs != [] {
      EventsInCons(evs[0], PrintAll(evs[1..]));
      EventsInPrinted(evs[1..]);
    }
  }

  lemma PrintAllAppend(a: seq<Event>, b: seq<Event>)
    ensures PrintAll(a + b) == PrintAll(a) + PrintAll(b)
  {
    ConcatMapAppend(LineOf, a, b);
  }

  lemma PrintAllEmpty(evs: seq<Event>)
    ensures PrintAll(evs) == [] <==> evs == []
  {
    if evs != [] {
      assert |LineOf(evs[0])| > 0;
    }
  }
}
