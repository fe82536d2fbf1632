/**
  Runs of the audit store: appends that may fail at any system call, restarts at
  any point, reconfiguration.  The ghost history lists every event ever written.
 */
module AuditRuns {
  import opened CText
  import opened AuditFormat
  import opened AuditStore

  datatype Action =
    | Append(req: Request, now: int, fault: Fault)
    | Restart               // the process ends or crashes; a new one starts with the defaults
    | Reseed                // the directory is configured away and back: next_seq becomes 0
    | SetMaxFiles(n: int)
    | SetMaxBytes(bytes: nat)
    | GetStatus

  /** The store and every event ever written to it, in order. */
  datatype Run = Run(store: State, history: seq<Event>)

  function Start(): Run {
    Run(State(seq(SEG_MAX, _ => Absent), 0, DEFAULT_MAX_BYTES, DEFAULT_MAX_FILES), [])
  }

  function Step(r: Run, a: Action): (r': Run)
    requires ValidState(r.store)
    ensures ValidState(r'.store)
  {
    match a
    case Append(req, now, fault) =>
      var o := AppendSpec(r.store, req, now, fault);
      AppendKeepsValid(r.store, req, now, fault);
      After(o, r.history)
    case Restart => r.(store := State(r.store.segs, 0, DEFAULT_MAX_BYTES, DEFAULT_MAX_FILES))
    case Reseed => r.(store := r.store.(nextSeq := 0))
    case SetMaxFiles(n) => if 1 <= n <= SEG_MAX then r.(store := r.store.(maxFiles := n)) else r
    case SetMaxBytes(bytes) => r.(store := r.store.(maxBytes := bytes))
    case GetStatus => r.(store := Seed(r.store))
  }

  lemma AppendKeepsValid(s: State, req: Request, now: int, fault: Fault)
    requires ValidState(s)
    ensures ValidState(AppendSpec(s, req, now, fault).state)
  {
  }

  function Execute(actions: seq<Action>): (r: Run)
    ensures ValidState(r.store)
  {
    if actions == [] then Start() else Step(Execute(actions[..|actions| - 1]), actions[|actions| - 1])
  }

  /** Requests a C caller can make, and max_files never set to 1. */
  predicate Allowed(a: Action) {
    match a
    case Append(req, now, fault) => Writable(req, now) && fault.errno > 0
    case SetMaxFiles(n) => n != 1
    case _ => true
  }

  // ---------------------------------------------------------------- the invariant

  /** Where in the history the events of one segment come from: lo <= index < hi. */
  datatype Span = Span(lo: nat, hi: nat)

  predicate NonEmpty(sp: Span) {
    sp.lo < sp.hi
  }

  /** The k-th event ever written carries seq k+1. */
  predicate Consecutive(history: seq<Event>) {
    forall i | 0 <= i < |history| :: history[i].seq_ == i + 1
  }

  /** The spans lie in a history of n events, older ones in higher segments. */
  ghost predicate Ordered(spans: seq<Span>, n: nat) {
    && |spans| == SEG_MAX
    && (forall i | 0 <= i < SEG_MAX :: spans[i].lo <= spans[i].hi <= n)
    && (forall i, j | 0 <= i < j < SEG_MAX && NonEmpty(spans[i]) && NonEmpty(spans[j]) :: spans[j].hi <= spans[i].lo)
  }

  /** What a segment with a given span of the history holds. */
  ghost function Text(history: seq<Event>): Span -> string {
    (sp: Span) => if sp.lo <= sp.hi <= |history| then PrintAll(history[sp.lo..sp.hi]) else []
  }

  /** Each segment holds the text of its span. */
  ghost predicate Holds(segs: seq<Segment>, text: Span -> string, spans: seq<Span>) {
    && |segs| == SEG_MAX && |spans| == SEG_MAX && text(Span(0, 0)) == []
    && forall i | 0 <= i < SEG_MAX :: Bytes(segs[i]) == text(spans[i])
  }

  /** Each segment holds, printed, the stretch of the history its span names. */
  ghost predicate Prints(segs: seq<Segment>, history: seq<Event>, spans: seq<Span>) {
    Holds(segs, Text(history), spans)
  }

  ghost predicate NewestIn(spans: seq<Span>, n: nat, i: nat)
    requires i < |spans|
  {
    NonEmpty(spans[i]) && spans[i].hi == n
  }

  /** The newest of n events is in the base, or in segment 1 while the base is empty. */
  ghost predicate NewestFirst(spans: seq<Span>, n: nat)
    requires |spans| == SEG_MAX
  {
    n == 0 || NewestIn(spans, n, 0) || (!NonEmpty(spans[0]) && NewestIn(spans, n, 1))
  }

  ghost predicate DiskInv(segs: seq<Segment>, history: seq<Event>, spans: seq<Span>) {
    && AllInBounds(history) && Consecutive(history)
    && Ordered(spans, |history|) && NewestFirst(spans, |history|)
    && Prints(segs, history, spans)
  }

  ghost predicate Inv(r: Run, spans: seq<Span>) {
    && ValidState(r.store) && r.store.maxFiles >= 2
    && DiskInv(r.store.segs, r.history, spans)
    && (r.store.nextSeq == 0 || r.store.nextSeq == |r.history| + 1)
  }

  // ---------------------------------------------------------------- segments and spans

  lemma EmptyBytes(segs: seq<Segment>, history: seq<Event>, spans: seq<Span>, i: nat)
    requires Ordered(spans, |history|) && Prints(segs, history, spans) && i < SEG_MAX
    ensures Bytes(segs[i]) == [] <==> !NonEmpty(spans[i])
  {
    PrintAllEmpty(history[spans[i].lo..spans[i].hi]);
  }

  lemma SegmentEvents(segs: seq<Segment>, history: seq<Event>, spans: seq<Span>, i: nat)
    requires AllInBounds(history) && Ordered(spans, |history|) && Prints(segs, history, spans) && i < SEG_MAX
    ensures EventsIn(Bytes(segs[i])) == history[spans[i].lo..spans[i].hi]
  {
    EventsInPrinted(history[spans[i].lo..spans[i].hi]);
  }

  function MoveSpan(segs: seq<Segment>, spans: seq<Span>, i: nat): (r: seq<Span>)
    requires 1 <= i < |segs| && |segs| == |spans|
    ensures |r| == |spans|
  {
    if segs[i - 1].Absent? then spans else spans[i := spans[i - 1]][i - 1 := Span(0, 0)]
  }

  lemma RenameOrdered(segs: seq<Segment>, text: Span -> string, total: nat, spans: seq<Span>, i: nat)
    requires Ordered(spans, total) && Holds(segs, text, spans) && 1 <= i < SEG_MAX
    ensures Ordered(MoveSpan(segs, spans, i), total)
    ensures Holds(Rename(segs, i), text, MoveSpan(segs, spans, i))
  {
    if segs[i - 1].File? {
      var spans' := MoveSpan(segs, spans, i);
      forall a, b | 0 <= a < b < SEG_MAX && NonEmpty(spans'[a]) && NonEmpty(spans'[b])
        ensures spans'[b].hi <= spans'[a].lo
      {
        assert a != i - 1 && b != i - 1;
        if a == i {
          assert spans[b].hi <= spans[i - 1].lo;
        } else if b == i {
          assert spans[i - 1].hi <= spans[a].lo;
        }
      }
    }
  }

  lemma UnlinkOrdered(segs: seq<Segment>, text: Span -> string, total: nat, spans: seq<Span>, i: nat)
    requires Ordered(spans, total) && Holds(segs, text, spans) && i < SEG_MAX
    ensures Ordered(spans[i := Span(0, 0)], total)
    ensures Holds(segs[i := Absent], text, spans[i := Span(0, 0)])
  {
  }

  /** The newest event's place after n system calls of a rotation with max_files m. */
  ghost predicate RotatedNewest(segs: seq<Segment>, spans: seq<Span>, events: nat, m: nat, n: nat)
    requires |spans| == SEG_MAX && |segs| == SEG_MAX
  {
    if n < m - 1 then NewestIn(spans, events, 0) && segs[0].File?
    else NewestIn(spans, events, 1) && !NonEmpty(spans[0]) && segs[0].Absent?
  }

  lemma RenameStep(segs: seq<Segment>, text: Span -> string, total: nat, spans: seq<Span>, m: nat, n: nat) returns (spans': seq<Span>)
    requires Ordered(spans, total) && Holds(segs, text, spans)
    requires 0 < n < m <= SEG_MAX && RotatedNewest(segs, spans, total, m, n - 1)
    ensures Ordered(spans', total) && Holds(Rename(segs, m - n), text, spans')
    ensures RotatedNewest(Rename(segs, m - n), spans', total, m, n)
  {
    RenameOrdered(segs, text, total, spans, m - n);
    spans' := MoveSpan(segs, spans, m - n);
  }

  lemma UnlinkStep(segs: seq<Segment>, text: Span -> string, total: nat, spans: seq<Span>, m: nat, n: nat) returns (spans': seq<Span>)
    requires Ordered(spans, total) && Holds(segs, text, spans)
    requires 2 <= m <= n < SEG_MAX && RotatedNewest(segs, spans, total, m, n - 1)
    ensures Ordered(spans', total) && Holds(segs[n := Absent], text, spans')
    ensures RotatedNewest(segs[n := Absent], spans', total, m, n)
  {
    UnlinkOrdered(segs, text, total, spans, n);
    spans' := spans[n := Span(0, 0)];
  }

  /**
    After any number of system calls of a rotation that starts with a non-empty
    base, the segments are still laid out in order and the newest event is still first.
   */
  lemma {:induction false} RotateOrdered(segs: seq<Segment>, text: Span -> string, total: nat, spans: seq<Span>, m: nat, n: nat)
      returns (spans': seq<Span>)
    requires Ordered(spans, total) && Holds(segs, text, spans)
    requires NewestIn(spans, total, 0) && segs[0].File?
    requires 2 <= m <= SEG_MAX && n <= RotateCalls(m)
    ensures Ordered(spans', total) && Holds(RotateUpTo(segs, m, n), text, spans')
    ensures RotatedNewest(RotateUpTo(segs, m, n), spans', total, m, n)
    decreases n
  {
    if n == 0 {
      spans' := spans;
    } else {
      var before := RotateOrdered(segs, text, total, spans, m, n - 1);
      var mid := RotateUpTo(segs, m, n - 1);
      if n < m {
        spans' := RenameStep(mid, text, total, before, m, n);
      } else {
        spans' := UnlinkStep(mid, text, total, before, m, n);
      }
    }
  }

  lemma CreatePrints(segs: seq<Segment>, history: seq<Event>, spans: seq<Span>)
    requires Ordered(spans, |history|) && Prints(segs, history, spans)
    ensures Prints(Create(segs), history, spans)
  {
  }

  // ---------------------------------------------------------------- seeding

  lemma {:induction false} MaxOfConsecutive(history: seq<Event>, lo: nat, hi: nat, acc: nat)
    requires Consecutive(history) && lo <= hi <= |history| && acc <= lo
    ensures MaxFrom(acc, history[lo..hi]) == if lo < hi then hi else acc
    decreases hi - lo
  {
    if lo < hi {
      var evs := history[lo..hi];
      assert evs[0] == history[lo] && evs[1..] == history[lo + 1..hi];
      MaxOfConsecutive(history, lo + 1, hi, lo + 1);
    }
  }

  lemma SeedOneSegment(segs: seq<Segment>, history: seq<Event>, spans: seq<Span>, i: nat)
    requires DiskInv(segs, history, spans) && i < SEG_MAX
    requires NewestIn(spans, |history|, i)
    ensures MaxSeq(EventsIn(Bytes(segs[i]))) == |history|
  {
    SegmentEvents(segs, history, spans, i);
    MaxOfConsecutive(history, spans[i].lo, spans[i].hi, 0);
  }

  lemma {:induction false} SeedNothing(segs: seq<Segment>, spans: seq<Span>, m: nat, idx: nat)
    requires Ordered(spans, 0) && Prints(segs, [], spans) && idx <= m <= SEG_MAX
    ensures SeedFrom(segs, m, idx) == 1
    decreases m - idx
  {
    if idx < m {
      EmptyBytes(segs, [], spans, idx);
      SeedNothing(segs, spans, m, idx + 1);
    }
  }

  lemma SeedFound(segs: seq<Segment>, m: nat, idx: nat, last: nat)
    requires idx < m <= |segs| && Bytes(segs[idx]) != []
    requires MaxSeq(EventsIn(Bytes(segs[idx]))) == last && last > 0
    ensures SeedFrom(segs, m, idx) == Increment(last)
  {
  }

  lemma SeedFromNext(segs: seq<Segment>, m: nat, idx: nat)
    requires idx < m <= |segs| && Bytes(segs[idx]) == []
    ensures SeedFrom(segs, m, idx) == SeedFrom(segs, m, idx + 1)
  {
  }

  lemma SeedNewestAt(segs: seq<Segment>, history: seq<Event>, spans: seq<Span>, m: nat, i: nat)
    requires DiskInv(segs, history, spans) && i < m <= SEG_MAX && NewestIn(spans, |history|, i)
    ensures SeedFrom(segs, m, i) == Increment(|history|)
  {
    EmptyBytes(segs, history, spans, i);
    SeedOneSegment(segs, history, spans, i);
    SeedFound(segs, m, i, |history|);
  }

  /** Reseeding from disk finds the number after the newest event ever written. */
  lemma SeedNewest(segs: seq<Segment>, history: seq<Event>, spans: seq<Span>, m: nat)
    requires DiskInv(segs, history, spans) && 2 <= m <= SEG_MAX && |history| + 1 < TWO_POW_64
    ensures SeedFrom(segs, m, 0) == |history| + 1
  {
    if history == [] {
      SeedNothing(segs, spans, m, 0);
    } else if NewestIn(spans, |history|, 0) {
      SeedNewestAt(segs, history, spans, m, 0);
    } else {
      EmptyBytes(segs, history, spans, 0);
      SeedFromNext(segs, m, 0);
      SeedNewestAt(segs, history, spans, m, 1);
    }
  }

  lemma SeedExceedsAll(r: Run, spans: seq<Span>)
    requires Inv(r, spans) && |r.history| + 1 < TWO_POW_64
    ensures Seed(r.store) == r.store.(nextSeq := |r.history| + 1)
    ensures Inv(r.(store := Seed(r.store)), spans)
  {
    SeedNewest(r.store.segs, r.history, spans, r.store.maxFiles);
  }

  // ---------------------------------------------------------------- one step

  lemma BasePrints(segs: seq<Segment>, history: seq<Event>, spans: seq<Span>, e: Event, lo: nat)
    requires Ordered(spans, |history|) && Prints(segs, history, spans)
    requires if NonEmpty(spans[0]) then lo == spans[0].lo && spans[0].hi == |history| else lo == |history|
    ensures Bytes(segs[0]) + LineOf(e) == PrintAll((history + [e])[lo..|history| + 1])
  {
    var older := history[lo..];
    assert (history + [e])[lo..|history| + 1] == older + [e];
    PrintAllAppend(older, [e]);
    ConcatMapOne(LineOf, e);
    if NonEmpty(spans[0]) {
      assert history[spans[0].lo..spans[0].hi] == older;
    } else {
      assert history[spans[0].lo..spans[0].hi] == [] && older == [];
    }
  }

  lemma WriteOrdered(spans: seq<Span>, n: nat, lo: nat)
    requires Ordered(spans, n)
    requires if NonEmpty(spans[0]) then lo == spans[0].lo && spans[0].hi == n else lo == n
    ensures Ordered(spans[0 := Span(lo, n + 1)], n + 1)
  {
  }

  /** Older stretches are the same in the longer history. */
  lemma SameStretch(history: seq<Event>, e: Event, sp: Span)
    requires sp.lo <= sp.hi <= |history|
    ensures Text(history + [e])(sp) == Text(history)(sp)
  {
    assert (history + [e])[sp.lo..sp.hi] == history[sp.lo..sp.hi];
  }

  lemma WritePrints(segs: seq<Segment>, history: seq<Event>, spans: seq<Span>, e: Event, text: string, lo: nat)
    requires Ordered(spans, |history|) && Prints(segs, history, spans)
    requires if NonEmpty(spans[0]) then lo == spans[0].lo && spans[0].hi == |history| else lo == |history|
    requires text == PrintAll((history + [e])[lo..|history| + 1])
    ensures Ordered(spans[0 := Span(lo, |history| + 1)], |history| + 1)
    ensures Prints(segs[0 := File(text)], history + [e], spans[0 := Span(lo, |history| + 1)])
  {
    WriteOrdered(spans, |history|, lo);
    var whole := Span(lo, |history| + 1);
    assert Text(history + [e])(whole) == text;
    OlderStretches(segs, history, spans, e);
    HoldsBase(segs, Text(history + [e]), spans, whole, text);
  }

  lemma HoldsBase(segs: seq<Segment>, text: Span -> string, spans: seq<Span>, base: Span, bytes: string)
    requires |segs| == SEG_MAX && |spans| == SEG_MAX && text(Span(0, 0)) == [] && text(base) == bytes
    requires forall i | 0 < i < SEG_MAX :: Bytes(segs[i]) == text(spans[i])
    ensures Holds(segs[0 := File(bytes)], text, spans[0 := base])
  {
  }

  lemma OlderStretches(segs: seq<Segment>, history: seq<Event>, spans: seq<Span>, e: Event)
    requires Ordered(spans, |history|) && Prints(segs, history, spans)
    ensures |segs| == SEG_MAX && forall i | 0 < i < SEG_MAX :: Bytes(segs[i]) == Text(history + [e])(spans[i])
  {
    forall i | 0 < i < SEG_MAX
      ensures Bytes(segs[i]) == Text(history + [e])(spans[i])
    {
      SameStretch(history, e, spans[i]);
    }
  }

  lemma HistoryNext(history: seq<Event>, e: Event)
    requires AllInBounds(history) && Consecutive(history) && InBounds(e) && e.seq_ == |history| + 1
    ensures AllInBounds(history + [e]) && Consecutive(history + [e])
  {
    var h := history + [e];
    forall i | 0 <= i < |h|
      ensures InBounds(h[i]) && h[i].seq_ == i + 1
    {
      assert h[i] == if i < |history| then history[i] else e;
    }
  }

  /** Writing the next event to the base, after a rotation or when it still fits. */
  lemma WriteInv(segs: seq<Segment>, history: seq<Event>, spans: seq<Span>, e: Event) returns (spans': seq<Span>)
    requires DiskInv(segs, history, spans)
    requires InBounds(e) && e.seq_ == |history| + 1
    ensures DiskInv(segs[0 := File(Bytes(segs[0]) + LineOf(e))], history + [e], spans')
  {
    var n := |history|;
    var lo := if NonEmpty(spans[0]) then spans[0].lo else n;
    spans' := spans[0 := Span(lo, n + 1)];
    BasePrints(segs, history, spans, e, lo);
    WritePrints(segs, history, spans, e, Bytes(segs[0]) + LineOf(e), lo);
    HistoryNext(history, e);
  }

  /** An append keeps the invariant wherever it fails. */
  lemma AppendInv(r: Run, spans: seq<Span>, req: Request, now: int, fault: Fault) returns (spans': seq<Span>)
    requires Inv(r, spans) && |r.history| + 2 < TWO_POW_64
    requires Writable(req, now)
    ensures Inv(Step(r, Append(req, now, fault)), spans')
  {
    spans' := spans;
    SeedExceedsAll(r, spans);
    var s1 := Seed(r.store);
    var e := EventFor(req, now, s1.nextSeq);
    WritablePrints(req, now, s1.nextSeq);
    CreateInv(r.(store := s1), spans);
    if req.subject != [] && req.action != [] && fault.at != AtMkdir && fault.at != AtOpen {
      spans' := OpenedInv(Run(s1.(segs := Create(s1.segs)), r.history), spans, e, fault);
    }
  }

  function After(o: Outcome, history: seq<Event>): Run {
    Run(o.state, if o.written.Some? then history + [o.written.value] else history)
  }

  lemma WriteBaseInv(r: Run, spans: seq<Span>, e: Event, fault: Fault) returns (spans': seq<Span>)
    requires Inv(r, spans) && r.store.nextSeq == |r.history| + 1
    requires |r.history| + 2 < TWO_POW_64
    requires InBounds(e) && e.seq_ == |r.history| + 1
    ensures Inv(After(WriteBase(r.store, e, fault), r.history), spans')
  {
    spans' := spans;
    if fault.at != AtWrite {
      spans' := WriteInv(r.store.segs, r.history, spans, e);
    }
  }

  /** A rotation keeps the invariant at every one of its system calls. */
  lemma RotateInv(r: Run, spans: seq<Span>, n: nat) returns (spans': seq<Span>)
    requires Inv(r, spans) && Bytes(r.store.segs[0]) != []
    requires n <= RotateCalls(r.store.maxFiles)
    ensures Inv(r.(store := r.store.(segs := RotateUpTo(r.store.segs, r.store.maxFiles, n))), spans')
  {
    EmptyBytes(r.store.segs, r.history, spans, 0);
    spans' := RotateOrdered(r.store.segs, Text(r.history), |r.history|, spans, r.store.maxFiles, n);
  }

  lemma CreateInv(r: Run, spans: seq<Span>)
    requires Inv(r, spans)
    ensures Inv(r.(store := r.store.(segs := Create(r.store.segs))), spans)
  {
    CreatePrints(r.store.segs, r.history, spans);
  }

  lemma OpenedInv(r: Run, spans: seq<Span>, e: Event, fault: Fault) returns (spans': seq<Span>)
    requires Inv(r, spans) && r.store.nextSeq == |r.history| + 1
    requires |r.history| + 2 < TWO_POW_64
    requires InBounds(e) && e.seq_ == |r.history| + 1
    ensures Inv(After(AppendOpened(r.store, e, fault), r.history), spans')
  {
    spans' := spans;
    var s := r.store;
    if fault.at == AtStat { return; }
    if NeedsRotation(|Bytes(s.segs[0])|, |LineOf(e)|, s.maxBytes) {
      var failed := fault.at.AtRotate? && fault.at.call < RotateCalls(s.maxFiles);
      var n := if failed then fault.at.call else RotateCalls(s.maxFiles);
      spans' := RotateInv(r, spans, n);
      var rotated := r.(store := s.(segs := RotateUpTo(s.segs, s.maxFiles, n)));
      if !failed && fault.at != AtReopen {
        CreateInv(rotated, spans');
        spans' := WriteBaseInv(rotated.(store := rotated.store.(segs := Create(rotated.store.segs))), spans', e, fault);
      }
    } else {
      spans' := WriteBaseInv(r, spans, e, fault);
    }
  }

  lemma StepInv(r: Run, spans: seq<Span>, a: Action) returns (spans': seq<Span>)
    requires Inv(r, spans) && Allowed(a) && |r.history| + 2 < TWO_POW_64
    ensures Inv(Step(r, a), spans')
    ensures |Step(r, a).history| <= |r.history| + 1
  {
    spans' := spans;
    if a.Append? {
      spans' := AppendInv(r, spans, a.req, a.now, a.fault);
    } else if a.GetStatus? {
      SeedExceedsAll(r, spans);
    }
  }

  // ---------------------------------------------------------------- all runs

  lemma {:induction false} RunInv(actions: seq<Action>) returns (spans: seq<Span>)
    requires |actions| + 1 < TWO_POW_64
    requires forall i | 0 <= i < |actions| :: Allowed(actions[i])
    ensures Inv(Execute(actions), spans) && |Execute(actions).history| <= |actions|
  {
    if actions == [] {
      spans := seq(SEG_MAX, _ => Span(0, 0));
    } else {
      var before := RunInv(actions[..|actions| - 1]);
      spans := StepInv(Execute(actions[..|actions| - 1]), before, actions[|actions| - 1]);
    }
  }

  predicate Increasing(evs: seq<Event>) {
    forall i, j | 0 <= i < j < |evs| :: evs[i].seq_ < evs[j].seq_
  }

  /** Every event of evs is the event of the history that its seq names. */
  predicate FromHistory(evs: seq<Event>, history: seq<Event>) {
    forall i | 0 <= i < |evs| :: 1 <= evs[i].seq_ <= |history| && evs[i] == history[evs[i].seq_ - 1]
  }

  /** The stretches of segments n-1, .., 0, oldest first. */
  ghost function Stretches(history: seq<Event>, spans: seq<Span>, n: nat): seq<Event>
    requires Ordered(spans, |history|) && n <= SEG_MAX
  {
    if n == 0 then [] else history[spans[n - 1].lo..spans[n - 1].hi] + Stretches(history, spans, n - 1)
  }

  /** Each segment holds the events of its stretch. */
  ghost predicate Reads(segs: seq<Segment>, history: seq<Event>, spans: seq<Span>) {
    && |segs| == SEG_MAX && Ordered(spans, |history|)
    && forall i {:trigger segs[i]} | 0 <= i < SEG_MAX :: EventsIn(Bytes(segs[i])) == history[spans[i].lo..spans[i].hi]
  }

  lemma DiskReads(segs: seq<Segment>, history: seq<Event>, spans: seq<Span>)
    requires DiskInv(segs, history, spans)
    ensures Reads(segs, history, spans)
  {
    forall i | 0 <= i < SEG_MAX
      ensures EventsIn(Bytes(segs[i])) == history[spans[i].lo..spans[i].hi]
    {
      DiskEvents(segs, history, spans, i);
    }
  }

  lemma {:induction false} AllStretches(segs: seq<Segment>, history: seq<Event>, spans: seq<Span>, n: nat)
    requires Reads(segs, history, spans) && n <= SEG_MAX
    ensures ReadBack(segs, n) == Stretches(history, spans, n)
  {
    if n > 0 {
      AllStretches(segs, history, spans, n - 1);
      OneMoreStretch(segs, history, spans, n);
    }
  }

  lemma ReadBackStretches(segs: seq<Segment>, history: seq<Event>, spans: seq<Span>, n: nat)
    requires DiskInv(segs, history, spans) && n <= SEG_MAX
    ensures ReadBack(segs, n) == Stretches(history, spans, n)
  {
    DiskReads(segs, history, spans);
    AllStretches(segs, history, spans, n);
  }

  lemma DiskEvents(segs: seq<Segment>, history: seq<Event>, spans: seq<Span>, i: nat)
    requires DiskInv(segs, history, spans) && i < SEG_MAX
    ensures EventsIn(Bytes(segs[i])) == history[spans[i].lo..spans[i].hi]
  {
    SegmentEvents(segs, history, spans, i);
  }

  lemma OneMoreStretch(segs: seq<Segment>, history: seq<Event>, spans: seq<Span>, n: nat)
    requires |segs| == SEG_MAX && Ordered(spans, |history|) && 0 < n <= SEG_MAX
    requires EventsIn(Bytes(segs[n - 1])) == history[spans[n - 1].lo..spans[n - 1].hi]
    requires ReadBack(segs, n - 1) == Stretches(history, spans, n - 1)
    ensures ReadBack(segs, n) == Stretches(history, spans, n)
  {
    ReadBackNext(segs, n);
    StretchesNext(history, spans, n);
  }

  lemma ReadBackNext(segs: seq<Segment>, n: nat)
    requires 0 < n <= |segs|
    ensures ReadBack(segs, n) == EventsIn(Bytes(segs[n - 1])) + ReadBack(segs, n - 1)
  {
  }

  lemma StretchesNext(history: seq<Event>, spans: seq<Span>, n: nat)
    requires Ordered(spans, |history|) && 0 < n <= SEG_MAX
    ensures Stretches(history, spans, n) == history[spans[n - 1].lo..spans[n - 1].hi] + Stretches(history, spans, n - 1)
  {
  }

  /** A stretch of the history followed by newer events of the history. */
  lemma StretchThenNewer(history: seq<Event>, sp: Span, newer: seq<Event>)
    requires Consecutive(history) && sp.lo <= sp.hi <= |history|
    requires Increasing(newer) && FromHistory(newer, history)
    requires NonEmpty(sp) ==> NewerThan(newer, sp.hi)
    ensures Increasing(history[sp.lo..sp.hi] + newer) && FromHistory(history[sp.lo..sp.hi] + newer, history)
  {
    var older := history[sp.lo..sp.hi];
    assert forall k | 0 <= k < |older| :: older[k] == history[sp.lo + k] && older[k].seq_ == sp.lo + k + 1;
  }

  ghost predicate NewerThan(evs: seq<Event>, n: nat) {
    forall k | 0 <= k < |evs| :: evs[k].seq_ > n
  }

  lemma {:induction false} StretchesNewer(history: seq<Event>, spans: seq<Span>, n: nat, j: nat)
    requires Consecutive(history) && Ordered(spans, |history|) && n <= j < SEG_MAX && NonEmpty(spans[j])
    ensures NewerThan(Stretches(history, spans, n), spans[j].hi)
  {
    if n > 0 {
      StretchesNewer(history, spans, n - 1, j);
      var sp := spans[n - 1];
      var older := history[sp.lo..sp.hi];
      assert forall k | 0 <= k < |older| :: older[k] == history[sp.lo + k];
    }
  }

  lemma {:induction false} StretchesIncreasing(history: seq<Event>, spans: seq<Span>, n: nat)
    requires Consecutive(history) && Ordered(spans, |history|) && n <= SEG_MAX
    ensures Increasing(Stretches(history, spans, n)) && FromHistory(Stretches(history, spans, n), history)
  {
    if n > 0 {
      StretchesIncreasing(history, spans, n - 1);
      var sp := spans[n - 1];
      if NonEmpty(sp) {
        StretchesNewer(history, spans, n - 1, n - 1);
      }
      StretchThenNewer(history, sp, Stretches(history, spans, n - 1));
    }
  }

  /**
    Over every run of appends failing or crashing anywhere, restarts and
    reconfigurations with max_files >= 2: the k-th event ever written has seq k,
    so no seq is used twice; all segments read from the highest to the base are
    strictly increasing stretches of that history; and whatever number is next,
    now or after a reseed, is the one after the newest event.
   */
  lemma SeqsNeverReused(actions: seq<Action>)
    requires |actions| + 1 < TWO_POW_64
    requires forall i | 0 <= i < |actions| :: Allowed(actions[i])
    ensures var r := Execute(actions);
      && (forall k | 0 <= k < |r.history| :: r.history[k].seq_ == k + 1)
      && Increasing(ReadBack(r.store.segs, SEG_MAX))
      && FromHistory(ReadBack(r.store.segs, SEG_MAX), r.history)
      && Seed(r.store).nextSeq == |r.history| + 1
      && Seed(r.store.(nextSeq := 0)).nextSeq == |r.history| + 1
  {
    var r := Execute(actions);
    var spans := RunInv(actions);
    ReadBackStretches(r.store.segs, r.history, spans, SEG_MAX);
    StretchesIncreasing(r.history, spans, SEG_MAX);
    SeedExceedsAll(r, spans);
    SeedExceedsAll(r.(store := r.store.(nextSeq := 0)), spans);
  }

  lemma LastOfTwo(history: seq<Event>, sp1: Span, sp0: Span)
    requires sp1.lo <= sp1.hi <= |history| && sp0.lo <= sp0.hi <= |history| && history != []
    requires (NonEmpty(sp0) && sp0.hi == |history|) || (!NonEmpty(sp0) && NonEmpty(sp1) && sp1.hi == |history|)
    ensures var two := history[sp1.lo..sp1.hi] + history[sp0.lo..sp0.hi];
      two != [] && two[|two| - 1] == history[|history| - 1]
  {
  }

  lemma StretchesTwo(history: seq<Event>, spans: seq<Span>)
    requires Ordered(spans, |history|)
    ensures Stretches(history, spans, 2) == history[spans[1].lo..spans[1].hi] + history[spans[0].lo..spans[0].hi]
  {
    assert Stretches(history, spans, 0) == [];
    assert Stretches(history, spans, 1) == history[spans[0].lo..spans[0].hi];
  }

  lemma {:induction false} StretchesNewest(history: seq<Event>, spans: seq<Span>, n: nat)
    requires Ordered(spans, |history|) && NewestFirst(spans, |history|) && history != [] && 2 <= n <= SEG_MAX
    ensures var seen := Stretches(history, spans, n);
      seen != [] && seen[|seen| - 1] == history[|history| - 1]
  {
    if n > 2 {
      StretchesNewest(history, spans, n - 1);
    } else {
      StretchesTwo(history, spans);
      LastOfTwo(history, spans[1], spans[0]);
    }
  }

  predicate EndsWithNewest(seen: seq<Event>, history: seq<Event>) {
    history != [] ==> seen != [] && seen[|seen| - 1] == history[|history| - 1]
  }

  lemma NewestSeen(r: Run, spans: seq<Span>)
    requires Inv(r, spans)
    ensures EndsWithNewest(Visible(r.store), r.history)
  {
    var seen := Visible(r.store);
    ReadBackStretches(r.store.segs, r.history, spans, r.store.maxFiles);
    assert seen == Stretches(r.history, spans, r.store.maxFiles);
    NewestStretch(r.history, spans, r.store.maxFiles, seen);
  }

  lemma NewestStretch(history: seq<Event>, spans: seq<Span>, n: nat, seen: seq<Event>)
    requires Ordered(spans, |history|) && NewestFirst(spans, |history|) && 2 <= n <= SEG_MAX
    requires seen == Stretches(history, spans, n)
    ensures EndsWithNewest(seen, history)
  {
    if history != [] {
      StretchesNewest(history, spans, n);
    }
  }

  /** The newest event ever written can always be read back, also right after a failed or crashed rotation. */
  lemma NewestAlwaysVisible(actions: seq<Action>)
    requires |actions| + 1 < TWO_POW_64
    requires forall i | 0 <= i < |actions| :: Allowed(actions[i])
    ensures EndsWithNewest(Visible(Execute(actions).store), Execute(actions).history)
  {
    var spans := RunInv(actions);
    NewestSeen(Execute(actions), spans);
  }
}
