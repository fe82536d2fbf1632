/**
  The audit store: up to 16 log segments, size-triggered rotation and sequence
  numbers reseeded from disk (audit/src/audit_impl.c, seed_seq_locked .. ops_append).

  The directory is an array of optional byte strings.  rename, unlink, truncate,
  opening and appending are atomic, and any of them may fail.
 */
module AuditStore {
  import opened CText
  import opened AuditFormat

  const SEG_MAX: nat := 16
  const DEFAULT_MAX_BYTES: nat := 1024 * 1024
  const DEFAULT_MAX_FILES: nat := 3
  const EINVAL: int := 22
  const EIO: int := 5

  datatype Segment = Absent | File(bytes: string)

  function Bytes(seg: Segment): string {
    if seg.File? then seg.bytes else []
  }

  /** The directory and the fields of g_ctx; nextSeq 0 means "not seeded". */
  datatype State = State(segs: seq<Segment>, nextSeq: nat, maxBytes: nat, maxFiles: nat)

  predicate ValidState(s: State) {
    |s.segs| == SEG_MAX && s.nextSeq < TWO_POW_64 && 1 <= s.maxFiles <= SEG_MAX
  }

  /** What a caller passes to append: everything but the sequence number. */
  datatype Request = Request(ts: int, result: int, subject: string, action: string, target: string, detail: string)

  /** The call that fails, with the rotation's system calls counted from 0. */
  datatype FaultPoint = NoFault | AtMkdir | AtOpen | AtStat | AtRotate(call: nat) | AtReopen | AtWrite
  datatype Fault = Fault(at: FaultPoint, errno: int)

  // ---------------------------------------------------------------- specification

  /** uint64_t addition of 1. */
  function Increment(n: nat): nat {
    if n + 1 < TWO_POW_64 then n + 1 else 0
  }

  /** The larger of acc and the largest seq in evs. */
  function MaxFrom(acc: nat, evs: seq<Event>): nat
    decreases evs
  {
    if evs == [] then acc
    else MaxFrom(if evs[0].seq_ > acc then evs[0].seq_ else acc, evs[1..])
  }

  function MaxSeq(evs: seq<Event>): nat {
    MaxFrom(0, evs)
  }

  /** The number seeded from the first non-empty segment at idx or above. */
  function SeedFrom(segs: seq<Segment>, maxFiles: nat, idx: nat): (n: nat)
    requires idx <= maxFiles <= |segs|
    ensures n < TWO_POW_64
    decreases maxFiles - idx
  {
    if idx == maxFiles then 1
    else if Bytes(segs[idx]) == [] then SeedFrom(segs, maxFiles, idx + 1)
    else
      var last := MaxSeq(EventsIn(Bytes(segs[idx])));
      if last > 0 then Increment(last) else 1
  }

  function Seed(s: State): State
    requires ValidState(s)
  {
    if s.nextSeq != 0 then s else s.(nextSeq := SeedFrom(s.segs, s.maxFiles, 0))
  }

  /** rename(segment i-1, segment i); a missing source changes nothing. */
  function Rename(segs: seq<Segment>, i: nat): (r: seq<Segment>)
    requires 1 <= i < |segs|
    ensures |r| == |segs|
  {
    if segs[i - 1].Absent? then segs else segs[i := segs[i - 1]][i - 1 := Absent]
  }

  /** How many system calls a complete rotation makes. */
  function RotateCalls(maxFiles: nat): nat {
    if maxFiles <= 1 then 1 else SEG_MAX - 1
  }

  /** The directory after the first n system calls of a rotation. */
  function RotateUpTo(segs: seq<Segment>, maxFiles: nat, n: nat): (r: seq<Segment>)
    requires |segs| == SEG_MAX && maxFiles <= SEG_MAX && n <= RotateCalls(maxFiles)
    ensures |r| == SEG_MAX
  {
    if n == 0 then segs
    else if maxFiles <= 1 then (if segs[0].File? then segs[0 := File([])] else segs)
    else
      var before := RotateUpTo(segs, maxFiles, n - 1);
      if n < maxFiles then Rename(before, maxFiles - n) else before[n := Absent]
  }

  /** fopen(base, "a") creates the file. */
  function Create(segs: seq<Segment>): (r: seq<Segment>)
    requires |segs| == SEG_MAX
    ensures |r| == SEG_MAX
  {
    if segs[0].Absent? then segs[0 := File([])] else segs
  }

  datatype Outcome = Outcome(state: State, rc: int, written: Option<Event>)

  function EventFor(req: Request, now: int, n: nat): Event {
    Event(n, if req.ts > 0 then req.ts else now, req.result, req.subject, req.action, req.target, req.detail)
  }

  /** What a C caller can ask for: texts that fit their fields, 64- and 32-bit numbers. */
  predicate Writable(req: Request, now: int) {
    && FitsField(req.subject, SUBJECT_MAX) && FitsField(req.action, ACTION_MAX)
    && FitsField(req.target, TARGET_MAX) && FitsField(req.detail, DETAIL_MAX)
    && -TWO_POW_63 <= req.ts < TWO_POW_63 && -TWO_POW_63 <= now < TWO_POW_63
    && -0x8000_0000 <= req.result <= 0x7fff_ffff
  }

  lemma WritablePrints(req: Request, now: int, n: nat)
    requires Writable(req, now) && n < TWO_POW_64
    ensures Printable(EventFor(req, now, n))
  {
  }

  predicate NeedsRotation(size: nat, lineLen: nat, maxBytes: nat) {
    size > 0 && size + lineLen > maxBytes
  }

  /** ops_append, with the call that fails (if any) given. */
  function AppendSpec(s: State, req: Request, now: int, fault: Fault): Outcome
    requires ValidState(s)
  {
    if req.subject == [] || req.action == [] then Outcome(s, -EINVAL, None)
    else if fault.at == AtMkdir then Outcome(s, -fault.errno, None)
    else
      var s1 := Seed(s);
      var e := EventFor(req, now, s1.nextSeq);
      if fault.at == AtOpen then Outcome(s1, -fault.errno, None)
      else AppendOpened(s1.(segs := Create(s1.segs)), e, fault)
  }

  /** ops_append once the base file is open. */
  function AppendOpened(s: State, e: Event, fault: Fault): Outcome
    requires |s.segs| == SEG_MAX && s.maxFiles <= SEG_MAX
  {
    if fault.at == AtStat then Outcome(s, -fault.errno, None)
    else if NeedsRotation(|Bytes(s.segs[0])|, |LineOf(e)|, s.maxBytes) then
      var calls := RotateCalls(s.maxFiles);
      if fault.at.AtRotate? && fault.at.call < calls then
        Outcome(s.(segs := RotateUpTo(s.segs, s.maxFiles, fault.at.call)), -fault.errno, None)
      else
        var rotated := s.(segs := RotateUpTo(s.segs, s.maxFiles, calls));
        if fault.at == AtReopen then Outcome(rotated, -fault.errno, None)
        else WriteBase(rotated.(segs := Create(rotated.segs)), e, fault)
    else WriteBase(s, e, fault)
  }

  function WriteBase(s: State, e: Event, fault: Fault): Outcome
    requires |s.segs| == SEG_MAX
  {
    if fault.at == AtWrite then Outcome(s, -EIO, None)
    else Outcome(s.(segs := s.segs[0 := File(Bytes(s.segs[0]) + LineOf(e))], nextSeq := Increment(s.nextSeq)),
                 0, Some(e))
  }

  /** The events of segments n-1, .., 0, oldest first. */
  function ReadBack(segs: seq<Segment>, n: nat): seq<Event>
    requires n <= |segs|
  {
    if n == 0 then [] else EventsIn(Bytes(segs[n - 1])) + ReadBack(segs, n - 1)
  }

  /** What a query without conditions sees. */
  function Visible(s: State): seq<Event>
    requires ValidState(s)
  {
    ReadBack(s.segs, s.maxFiles)
  }

  datatype Status = Status(dir: string, totalEvents: nat, totalBytes: nat, seqNext: nat, segments: nat)

  function TotalBytes(segs: seq<Segment>, n: nat): nat
    requires n <= |segs|
  {
    if n == 0 then 0 else TotalBytes(segs, n - 1) + |Bytes(segs[n - 1])|
  }

  function Present(segs: seq<Segment>, n: nat): nat
    requires n <= |segs|
  {
    if n == 0 then 0 else Present(segs, n - 1) + (if segs[n - 1].File? then 1 else 0)
  }

  // ---------------------------------------------------------------- configuration values

  /** parse_int_range: one whole decimal number within lo..hi. */
  function ParseRange(s: string, lo: nat, hi: nat): (r: Option<nat>)
    ensures r.Some? ==> lo <= r.value <= hi
  {
    if NumberOnly(s) && lo <= Strtoll(s) <= hi then Some(Strtoll(s)) else None
  }

  function UnitOf(c: char): Option<nat> {
    if c == 'k' || c == 'K' then Some(1024)
    else if c == 'm' || c == 'M' then Some(1024 * 1024)
    else if c == 'g' || c == 'G' then Some(1024 * 1024 * 1024)
    else None
  }

  /** What the text after the number multiplies it with: a unit, and a 'b' that changes nothing. */
  function UnitText(s: string): Option<nat> {
    if s == "" then Some(1)
    else if |s| == 1 || (|s| == 2 && (s[1] == 'b' || s[1] == 'B')) then UnitOf(s[0])
    else None
  }

  /** parse_size: a positive number that fits 64 bits, also after its unit. */
  function ParseSize(s: string): (r: Option<nat>)
    ensures r.Some? ==> 0 < r.value < TWO_POW_64
  {
    var n := ScanNumber(s);
    var unit := UnitText(s[n.end..]);
    if n.end == 0 || n.mag >= TWO_POW_64 || Strtoull(s) == 0 || unit.None? then None
    else if Strtoull(s) * unit.value >= TWO_POW_64 then None
    else Some(Strtoull(s) * unit.value)
  }

  /** A limit printed as a plain number is read back as that number. */
  lemma SizePrinted(n: nat)
    requires 0 < n < TWO_POW_64
    ensures ParseSize(Dec(n)) == Some(n)
  {
    ScanDec(n);
    UnsignedRoundTrip(n);
    assert Dec(n)[|Dec(n)|..] == "";
  }

  /**
    A size with a unit: k, m and g of either case stand for 2^10, 2^20 and 2^30,
    a B behind them changes nothing, any other unit is refused, and so is what
    does not fit 64 bits.
   */
  lemma SizeWithUnit(n: nat, u: char, b: string)
    requires 0 < n < TWO_POW_64 && !IsDigit(u) && (b == "" || b == "b" || b == "B")
    ensures var unit := if u == 'k' || u == 'K' then 1024 else if u == 'm' || u == 'M' then 1_048_576
                        else if u == 'g' || u == 'G' then 1_073_741_824 else 0;
      ParseSize(Dec(n) + ([u] + b)) == if 0 < n * unit < TWO_POW_64 then Some(n * unit) else None
  {
    var tail := [u] + b;
    ScanBefore(n, tail);
    assert (Dec(n) + tail)[|Dec(n)|..] == tail;
    UnitTextIs(u, b);
  }

  lemma UnitTextIs(u: char, b: string)
    requires b == "" || b == "b" || b == "B"
    ensures UnitText([u] + b) == UnitOf(u)
  {
  }

  /** A minus sign is not refused: the number wraps around, as strtoull has it, unless it does not fit. */
  lemma NegativeSize(n: nat)
    requires n > 0
    ensures ParseSize("-" + Dec(n)) == if n < TWO_POW_64 then Some(TWO_POW_64 - n) else None
  {
    ScanDecNeg(n);
    var s := "-" + Dec(n);
    assert s[|s|..] == "";
  }

  lemma RangePrinted(n: nat)
    requires 1 <= n <= SEG_MAX
    ensures ParseRange(Dec(n), 1, SEG_MAX) == Some(n)
  {
    SignedRoundTrip(n);
  }

  // ---------------------------------------------------------------- implementation

  class Store {
    const dir: string
    const segs: array<Segment>
    var nextSeq: nat
    var maxBytes: nat
    var maxFiles: nat

    ghost function View(): State
      reads this, segs
    {
      State(segs[..], nextSeq, maxBytes, maxFiles)
    }

    ghost predicate Valid()
      reads this, segs
    {
      ValidState(View())
    }

    /** A process that starts on an empty directory. */
    constructor (name: string)
      ensures Valid() && fresh(segs) && dir == name
      ensures View() == State(seq(SEG_MAX, _ => Absent), 0, DEFAULT_MAX_BYTES, DEFAULT_MAX_FILES)
    {
      dir := name;
      segs := new Segment[SEG_MAX](_ => Absent);
      nextSeq, maxBytes, maxFiles := 0, DEFAULT_MAX_BYTES, DEFAULT_MAX_FILES;
      new;
      assert segs[..] == seq(SEG_MAX, _ => Absent);
    }

    /** A process that starts on a directory an earlier one left behind. */
    constructor Reopen(name: string, left: array<Segment>)
      requires left.Length == SEG_MAX
      ensures Valid() && segs == left && dir == name
      ensures View() == State(left[..], 0, DEFAULT_MAX_BYTES, DEFAULT_MAX_FILES)
    {
      dir := name;
      segs := left;
      nextSeq, maxBytes, maxFiles := 0, DEFAULT_MAX_BYTES, DEFAULT_MAX_FILES;
    }

    method SeedSeq()
      requires Valid()
      modifies this`nextSeq
      ensures Valid() && View() == Seed(old(View()))
    {
      if nextSeq != 0 { return; }
      nextSeq := 1;
      var idx := 0;
      while idx < maxFiles
        invariant 0 <= idx <= maxFiles && nextSeq == 1
        invariant SeedFrom(segs[..], maxFiles, 0) == SeedFrom(segs[..], maxFiles, idx)
      {
        var text := Bytes(segs[idx]);
        if text != [] {
          var last := LastSeq(text);
          if last > 0 {
            nextSeq := Increment(last);
          }
          return;
        }
        idx := idx + 1;
      }
    }

    method RenameUp(i: nat)
      requires 1 <= i < segs.Length
      modifies segs
      ensures segs[..] == Rename(old(segs[..]), i)
    {
      if segs[i - 1].File? {
        segs[i] := segs[i - 1];
        segs[i - 1] := Absent;
      }
    }

    method Unlink(i: nat)
      requires i < segs.Length
      modifies segs
      ensures segs[..] == old(segs[..])[i := Absent]
    {
      segs[i] := Absent;
    }

    method RotateLocked(fault: Fault) returns (rc: int)
      requires Valid()
      modifies segs
      ensures var calls := RotateCalls(maxFiles);
        if fault.at.AtRotate? && fault.at.call < calls
        then rc == -fault.errno && segs[..] == RotateUpTo(old(segs[..]), maxFiles, fault.at.call)
        else rc == 0 && segs[..] == RotateUpTo(old(segs[..]), maxFiles, calls)
      ensures Valid()
    {
      ghost var was := segs[..];
      if maxFiles <= 1 {
        if fault.at == AtRotate(0) { return -fault.errno; }
        if segs[0].File? {
          segs[0] := File([]);
        }
        assert segs[..] == RotateUpTo(was, maxFiles, 1);
        return 0;
      }
      var calls := 0;
      var i := maxFiles - 1;
      while i >= 1
        invariant 0 <= i < maxFiles && calls == maxFiles - 1 - i
        invariant segs[..] == RotateUpTo(was, maxFiles, calls)
        invariant fault.at.AtRotate? ==> calls <= fault.at.call
      {
        if fault.at == AtRotate(calls) { return -fault.errno; }
        RenameUp(i);
        calls := calls + 1;
        i := i - 1;
      }
      i := maxFiles;
      while i < SEG_MAX
        invariant maxFiles <= i <= SEG_MAX && calls == i - 1
        invariant segs[..] == RotateUpTo(was, maxFiles, calls)
        invariant fault.at.AtRotate? ==> calls <= fault.at.call
      {
        if fault.at == AtRotate(calls) { return -fault.errno; }
        Unlink(i);
        calls := calls + 1;
        i := i + 1;
      }
      rc := 0;
    }

    method Append(req: Request, now: int, fault: Fault) returns (rc: int, outSeq: nat)
      requires Valid()
      requires Writable(req, now)
      requires ValidFault(fault)
      modifies this`nextSeq, segs
      ensures Valid()
      ensures var o := AppendSpec(old(View()), req, now, fault);
        View() == o.state && rc == o.rc && (rc == 0 <==> o.written.Some?)
        && (rc == 0 ==> outSeq == o.written.value.seq_)
    {
      outSeq := 0;
      if req.subject == [] || req.action == [] { return -EINVAL, 0; }
      if fault.at == AtMkdir { return -fault.errno, 0; }
      SeedSeq();
      var e := EventFor(req, now, nextSeq);
      WritablePrints(req, now, nextSeq);
      LineFits(e);
      var line := FmtLine(e, LINE_MAX);   // never empty, so -EILSEQ for a line that does not fit cannot occur
      if fault.at == AtOpen { return -fault.errno, 0; }
      OpenBase();
      if fault.at == AtStat { return -fault.errno, 0; }
      if NeedsRotation(|Bytes(segs[0])|, |line|, maxBytes) {
        rc := RotateLocked(fault);
        if rc != 0 { return; }
        if fault.at == AtReopen { return -fault.errno, 0; }
        OpenBase();
      }
      if fault.at == AtWrite { return -EIO, 0; }
      ghost var before := segs[..];
      segs[0] := File(Bytes(segs[0]) + line);
      assert segs[..] == before[0 := File(Bytes(before[0]) + line)];
      nextSeq := Increment(nextSeq);
      rc, outSeq := 0, e.seq_;
    }

    method OpenBase()
      requires Valid()
      modifies segs
      ensures segs[..] == Create(old(segs[..]))
    {
      if segs[0].Absent? {
        segs[0] := File([]);
      }
    }

    method GetStatus() returns (st: Status)
      requires Valid()
      modifies this`nextSeq
      ensures Valid() && View() == Seed(old(View()))
      ensures st.dir == dir && st.seqNext == nextSeq && st.totalEvents == (if nextSeq > 0 then nextSeq - 1 else 0)
      ensures st.totalBytes == TotalBytes(segs[..], maxFiles) && st.segments == Present(segs[..], maxFiles)
    {
      SeedSeq();
      var bytes, count, idx := 0, 0, 0;
      while idx < maxFiles
        invariant 0 <= idx <= maxFiles
        invariant bytes == TotalBytes(segs[..], idx) && count == Present(segs[..], idx)
      {
        if segs[idx].File? {
          count := count + 1;
          bytes := bytes + |segs[idx].bytes|;
        }
        idx := idx + 1;
      }
      st := Status(dir, if nextSeq > 0 then nextSeq - 1 else 0, bytes, nextSeq, count);
    }

    /** audit.log.max_files */
    method SetMaxFiles(value: string) returns (rc: int)
      requires Valid()
      modifies this`maxFiles
      ensures Valid() && rc == (if ParseRange(value, 1, SEG_MAX).Some? then 0 else -EINVAL)
      ensures View() == if rc == 0 then old(View()).(maxFiles := ParseRange(value, 1, SEG_MAX).value) else old(View())
    {
      var n := ParseRange(value, 1, SEG_MAX);
      if n.None? { return -EINVAL; }
      maxFiles := n.value;
      rc := 0;
    }

    /** audit.log.max_bytes */
    method SetMaxBytes(value: string) returns (rc: int)
      requires Valid()
      modifies this`maxBytes
      ensures Valid() && rc == (if ParseSize(value).Some? then 0 else -EINVAL)
      ensures View() == if rc == 0 then old(View()).(maxBytes := ParseSize(value).value) else old(View())
    {
      var b := ParseSize(value);
      if b.None? { return -EINVAL; }
      maxBytes := b.value;
      rc := 0;
    }
  }

  /** The largest seq among the events a file holds. */
  method LastSeq(text: string) returns (last: nat)
    ensures last == MaxSeq(EventsIn(text))
  {
    last := 0;
    var rest := text;
    while rest != []
      invariant MaxSeq(EventsIn(text)) == MaxFrom(last, EventsIn(rest))
      decreases |rest|
    {
      var n := FgetsLen(rest, LINE_MAX);
      var ev := ParseEvent(rest[..n]);
      NextLineMax(rest, last);
      if ev.Some? && ev.value.seq_ > last {
        last := ev.value.seq_;
      }
      rest := rest[n..];
    }
  }

  lemma NextLineMax(text: string, acc: nat)
    requires text != []
    ensures var n := FgetsLen(text, LINE_MAX);
      MaxFrom(acc, EventsIn(text)) ==
      MaxFrom((match Parse(text[..n]) case Some(e) => if e.seq_ > acc then e.seq_ else acc case None => acc),
              EventsIn(text[n..]))
  {
    NextLine(text);
  }

  /** A failing system call reports a non-zero errno. */
  predicate ValidFault(fault: Fault) {
    fault.errno > 0
  }
}
