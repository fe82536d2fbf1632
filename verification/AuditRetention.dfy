/**
  What a log keeps: which events stay visible over runs without failures, how
  large segments get, and why the numbering needs max_files >= 2.
 */
module AuditRetention {
  import opened CText
  import opened AuditFormat
  import opened AuditStore
  import opened AuditRuns

  // ---------------------------------------------------------------- a complete rotation

  /** No file is missing below an existing one. */
  predicate GapFree(segs: seq<Segment>) {
    forall i, j | 0 <= i < j < |segs| && segs[i].Absent? :: segs[j].Absent?
  }

  /** Every segment one place higher; what leaves the m retained places is gone. */
  function Shifted(segs: seq<Segment>, m: nat): (r: seq<Segment>)
    requires 2 <= m <= |segs| == SEG_MAX
    ensures |r| == SEG_MAX
  {
    seq(SEG_MAX, i requires 0 <= i < SEG_MAX => if 1 <= i < m then segs[i - 1] else Absent)
  }

  /**
    Segment i after the first n system calls: what was one place lower is here, if
    there was a file; the highest retained place keeps its file if there was none.
   */
  function RotatedAt(segs: seq<Segment>, m: nat, n: nat, i: nat): Segment
    requires 2 <= m <= |segs| == SEG_MAX && n < SEG_MAX && i < SEG_MAX
  {
    if i >= m then (if i <= n then Absent else segs[i])
    else if m - 1 < i + n then
      if i > 0 && (segs[i - 1].File? || i == m - 1) then (if segs[i - 1].File? then segs[i - 1] else segs[i]) else Absent
    else if n > 0 && i + n == m - 1 then Absent
    else segs[i]
  }

  lemma {:induction false} RotateCallByCall(segs: seq<Segment>, m: nat, n: nat)
    requires 2 <= m <= |segs| == SEG_MAX && n < SEG_MAX
    ensures forall i | 0 <= i < SEG_MAX :: RotateUpTo(segs, m, n)[i] == RotatedAt(segs, m, n, i)
    decreases n
  {
    if n > 0 {
      RotateCallByCall(segs, m, n - 1);
    }
  }

  /** A rotation in which every call succeeds shifts the segments by one. */
  lemma RotateShifts(segs: seq<Segment>, m: nat)
    requires 2 <= m <= |segs| == SEG_MAX && GapFree(segs)
    ensures RotateUpTo(segs, m, RotateCalls(m)) == Shifted(segs, m)
  {
    RotateCallByCall(segs, m, SEG_MAX - 1);
  }

  // ---------------------------------------------------------------- runs without failures

  predicate NoFailure(a: Action) {
    a.Append? ==> a.fault.at == NoFault
  }

  /** The first p segments are files holding adjacent stretches that end with the newest event; there are no others. */
  ghost predicate Chained(segs: seq<Segment>, spans: seq<Span>, total: nat, p: nat) {
    && |segs| == SEG_MAX && |spans| == SEG_MAX && p <= SEG_MAX
    && (forall i | 0 <= i < p :: segs[i].File? && NonEmpty(spans[i]))
    && (forall i | p <= i < SEG_MAX :: segs[i].Absent? && !NonEmpty(spans[i]))
    && (forall i | 0 <= i < p - 1 :: spans[i + 1].hi == spans[i].lo)
    && (if p == 0 then total == 0 else spans[0].hi == total)
  }

  function ShiftedSpans(spans: seq<Span>, m: nat): (r: seq<Span>)
    requires 2 <= m <= |spans| == SEG_MAX
    ensures |r| == SEG_MAX
  {
    seq(SEG_MAX, i requires 0 <= i < SEG_MAX => if 1 <= i < m then spans[i - 1] else Span(0, 0))
  }

  lemma ShiftInv(segs: seq<Segment>, history: seq<Event>, spans: seq<Span>, p: nat, m: nat)
    requires Ordered(spans, |history|) && Prints(segs, history, spans)
    requires Chained(segs, spans, |history|, p) && 0 < p && 2 <= m <= SEG_MAX
    ensures Ordered(ShiftedSpans(spans, m), |history|)
    ensures Prints(Shifted(segs, m), history, ShiftedSpans(spans, m))
  {
  }

  lemma WriteChained(segs: seq<Segment>, spans: seq<Span>, total: nat, p: nat, text: string)
    requires Chained(segs, spans, total, p)
    ensures var lo := if NonEmpty(spans[0]) then spans[0].lo else total;
      Chained(segs[0 := File(text)], spans[0 := Span(lo, total + 1)], total + 1, if p == 0 then 1 else p)
  {
  }

  lemma ShiftWriteChained(segs: seq<Segment>, spans: seq<Span>, total: nat, p: nat, m: nat, text: string)
    requires Chained(segs, spans, total, p) && 0 < p && 2 <= m <= SEG_MAX
    ensures Chained(Create(Shifted(segs, m))[0 := File(text)], ShiftedSpans(spans, m)[0 := Span(total, total + 1)],
                    total + 1, if p < m then p + 1 else m)
  {
  }

  ghost predicate CleanInv(r: Run, spans: seq<Span>, p: nat) {
    Inv(r, spans) && Chained(r.store.segs, spans, |r.history|, p)
  }

  ghost predicate CleanDisk(segs: seq<Segment>, history: seq<Event>, spans: seq<Span>, p: nat) {
    DiskInv(segs, history, spans) && Chained(segs, spans, |history|, p)
  }

  /** The base is empty, and the other segments hold stretches of the history. */
  ghost predicate BaseFree(segs: seq<Segment>, history: seq<Event>, spans: seq<Span>) {
    && AllInBounds(history) && Consecutive(history)
    && Ordered(spans, |history|) && Prints(segs, history, spans) && !NonEmpty(spans[0])
  }

  lemma CleanOnEmptyBase(segs: seq<Segment>, history: seq<Event>, spans: seq<Span>, e: Event, p: nat)
    requires BaseFree(segs, history, spans) && InBounds(e) && e.seq_ == |history| + 1
    requires Chained(Create(segs)[0 := File(Bytes(Create(segs)[0]) + LineOf(e))],
                     spans[0 := Span(|history|, |history| + 1)], |history| + 1, p)
    ensures CleanDisk(Create(segs)[0 := File(Bytes(Create(segs)[0]) + LineOf(e))], history + [e],
                      spans[0 := Span(|history|, |history| + 1)], p)
  {
    BaseEmptyInv(segs, history, spans, e);
  }

  lemma ShiftFrees(segs: seq<Segment>, history: seq<Event>, spans: seq<Span>, p: nat, m: nat)
    requires CleanDisk(segs, history, spans, p) && 0 < p && 2 <= m <= SEG_MAX
    ensures BaseFree(Shifted(segs, m), history, ShiftedSpans(spans, m))
  {
    ShiftInv(segs, history, spans, p, m);
  }

  lemma CleanShifted(segs: seq<Segment>, history: seq<Event>, spans: seq<Span>, p: nat, m: nat, e: Event)
      returns (spans': seq<Span>, p': nat)
    requires CleanDisk(segs, history, spans, p) && 0 < p && 2 <= m <= SEG_MAX
    requires InBounds(e) && e.seq_ == |history| + 1
    ensures var base := Create(Shifted(segs, m));
      CleanDisk(base[0 := File(Bytes(base[0]) + LineOf(e))], history + [e], spans', p')
  {
    var total, shifted := |history|, ShiftedSpans(spans, m);
    ShiftFrees(segs, history, spans, p, m);
    p' := if p < m then p + 1 else m;
    ShiftWriteChained(segs, spans, total, p, m, Bytes(Create(Shifted(segs, m))[0]) + LineOf(e));
    CleanOnEmptyBase(Shifted(segs, m), history, shifted, e, p');
    spans' := shifted[0 := Span(total, total + 1)];
  }

  lemma ChainedGapFree(segs: seq<Segment>, spans: seq<Span>, total: nat, p: nat)
    requires Chained(segs, spans, total, p)
    ensures GapFree(segs)
  {
  }

  /** Writing the next event after a complete rotation. */
  lemma CleanRotate(segs: seq<Segment>, history: seq<Event>, spans: seq<Span>, p: nat, m: nat, e: Event)
      returns (spans': seq<Span>, p': nat)
    requires CleanDisk(segs, history, spans, p) && 0 < p && 2 <= m <= SEG_MAX
    requires InBounds(e) && e.seq_ == |history| + 1
    ensures var base := Create(RotateUpTo(segs, m, RotateCalls(m)));
      CleanDisk(base[0 := File(Bytes(base[0]) + LineOf(e))], history + [e], spans', p')
  {
    ChainedGapFree(segs, spans, |history|, p);
    RotateShifts(segs, m);
    spans', p' := CleanShifted(segs, history, spans, p, m, e);
  }

  /** Writing the next event to the base as it is. */
  lemma CleanDirect(segs: seq<Segment>, history: seq<Event>, spans: seq<Span>, p: nat, e: Event)
      returns (spans': seq<Span>, p': nat)
    requires CleanDisk(segs, history, spans, p)
    requires InBounds(e) && e.seq_ == |history| + 1
    ensures var base := Create(segs);
      CleanDisk(base[0 := File(Bytes(base[0]) + LineOf(e))], history + [e], spans', p')
  {
    var base := Create(segs);
    var text := Bytes(base[0]) + LineOf(e);
    var lo := if NonEmpty(spans[0]) then spans[0].lo else |history|;
    spans' := spans[0 := Span(lo, |history| + 1)];
    p' := if p == 0 then 1 else p;
    CreatePrints(segs, history, spans);
    WriteSpans(base, history, spans, e);
    WriteChained(segs, spans, |history|, p, text);
    assert base[0 := File(text)] == segs[0 := File(text)];
  }

  lemma RotatedOutcome(s: State, e: Event, fault: Fault)
    requires |s.segs| == SEG_MAX && s.maxFiles <= SEG_MAX && fault.at == NoFault
    requires NeedsRotation(|Bytes(s.segs[0])|, |LineOf(e)|, s.maxBytes)
    ensures var base := Create(RotateUpTo(s.segs, s.maxFiles, RotateCalls(s.maxFiles)));
      AppendOpened(s, e, fault) ==
      Outcome(s.(segs := base[0 := File(Bytes(base[0]) + LineOf(e))], nextSeq := Increment(s.nextSeq)), 0, Some(e))
  {
  }

  lemma DirectOutcome(s: State, e: Event, fault: Fault)
    requires |s.segs| == SEG_MAX && s.maxFiles <= SEG_MAX && fault.at == NoFault
    requires !NeedsRotation(|Bytes(s.segs[0])|, |LineOf(e)|, s.maxBytes)
    ensures AppendOpened(s, e, fault) ==
      Outcome(s.(segs := s.segs[0 := File(Bytes(s.segs[0]) + LineOf(e))], nextSeq := Increment(s.nextSeq)), 0, Some(e))
  {
  }

  /** The run after the base holds a text that ends with the event. */
  function Written(r: Run, segs: seq<Segment>, e: Event): Run {
    Run(r.store.(segs := segs, nextSeq := Increment(r.store.nextSeq)), r.history + [e])
  }

  lemma WrittenClean(r: Run, segs: seq<Segment>, spans: seq<Span>, p: nat, e: Event)
    requires ValidState(r.store) && 2 <= r.store.maxFiles && r.store.nextSeq == |r.history| + 1
    requires |r.history| + 2 < TWO_POW_64 && CleanDisk(segs, r.history + [e], spans, p)
    ensures CleanInv(Written(r, segs, e), spans, p)
  {
  }

  lemma CleanWriteRotated(r: Run, spans: seq<Span>, p: nat, e: Event, fault: Fault) returns (spans': seq<Span>, p': nat)
    requires CleanInv(r, spans, p) && r.store.nextSeq == |r.history| + 1
    requires |r.history| + 2 < TWO_POW_64 && fault.at == NoFault
    requires InBounds(e) && e.seq_ == |r.history| + 1
    requires NeedsRotation(|Bytes(Create(r.store.segs)[0])|, |LineOf(e)|, r.store.maxBytes)
    ensures CleanInv(After(AppendOpened(r.store.(segs := Create(r.store.segs)), e, fault), r.history), spans', p')
  {
    var segs, m := r.store.segs, r.store.maxFiles;
    assert p > 0 && Create(segs) == segs;
    RotatedOutcome(r.store.(segs := Create(segs)), e, fault);
    spans', p' := CleanRotate(segs, r.history, spans, p, m, e);
    var base := Create(RotateUpTo(segs, m, RotateCalls(m)));
    WrittenClean(r, base[0 := File(Bytes(base[0]) + LineOf(e))], spans', p', e);
  }

  lemma CleanWriteDirect(r: Run, spans: seq<Span>, p: nat, e: Event, fault: Fault) returns (spans': seq<Span>, p': nat)
    requires CleanInv(r, spans, p) && r.store.nextSeq == |r.history| + 1
    requires |r.history| + 2 < TWO_POW_64 && fault.at == NoFault
    requires InBounds(e) && e.seq_ == |r.history| + 1
    requires !NeedsRotation(|Bytes(Create(r.store.segs)[0])|, |LineOf(e)|, r.store.maxBytes)
    ensures CleanInv(After(AppendOpened(r.store.(segs := Create(r.store.segs)), e, fault), r.history), spans', p')
  {
    var base := Create(r.store.segs);
    DirectOutcome(r.store.(segs := base), e, fault);
    spans', p' := CleanDirect(r.store.segs, r.history, spans, p, e);
    WrittenClean(r, base[0 := File(Bytes(base[0]) + LineOf(e))], spans', p', e);
  }

  /** One append in which nothing fails. */
  lemma CleanWrite(r: Run, spans: seq<Span>, p: nat, e: Event, fault: Fault) returns (spans': seq<Span>, p': nat)
    requires CleanInv(r, spans, p) && r.store.nextSeq == |r.history| + 1
    requires |r.history| + 2 < TWO_POW_64 && fault.at == NoFault
    requires InBounds(e) && e.seq_ == |r.history| + 1
    ensures CleanInv(After(AppendOpened(r.store.(segs := Create(r.store.segs)), e, fault), r.history), spans', p')
    ensures |After(AppendOpened(r.store.(segs := Create(r.store.segs)), e, fault), r.history).history| == |r.history| + 1
  {
    if NeedsRotation(|Bytes(Create(r.store.segs)[0])|, |LineOf(e)|, r.store.maxBytes) {
      RotatedOutcome(r.store.(segs := Create(r.store.segs)), e, fault);
      spans', p' := CleanWriteRotated(r, spans, p, e, fault);
    } else {
      DirectOutcome(r.store.(segs := Create(r.store.segs)), e, fault);
      spans', p' := CleanWriteDirect(r, spans, p, e, fault);
    }
  }

  lemma WriteSpans(segs: seq<Segment>, history: seq<Event>, spans: seq<Span>, e: Event)
    requires DiskInv(segs, history, spans)
    requires InBounds(e) && e.seq_ == |history| + 1
    ensures var lo := if NonEmpty(spans[0]) then spans[0].lo else |history|;
      DiskInv(segs[0 := File(Bytes(segs[0]) + LineOf(e))], history + [e], spans[0 := Span(lo, |history| + 1)])
  {
    var n := |history|;
    var lo := if NonEmpty(spans[0]) then spans[0].lo else n;
    BasePrints(segs, history, spans, e, lo);
    WritePrints(segs, history, spans, e, Bytes(segs[0]) + LineOf(e), lo);
    HistoryNext(history, e);
  }

  lemma BaseEmptyInv(segs: seq<Segment>, history: seq<Event>, spans: seq<Span>, e: Event)
    requires AllInBounds(history) && Consecutive(history)
    requires Ordered(spans, |history|) && Prints(segs, history, spans) && !NonEmpty(spans[0])
    requires InBounds(e) && e.seq_ == |history| + 1
    ensures DiskInv(Create(segs)[0 := File(Bytes(Create(segs)[0]) + LineOf(e))], history + [e],
                    spans[0 := Span(|history|, |history| + 1)])
  {
    var base := Create(segs);
    CreatePrints(segs, history, spans);
    BasePrints(base, history, spans, e, |history|);
    WritePrints(base, history, spans, e, Bytes(base[0]) + LineOf(e), |history|);
    HistoryNext(history, e);
  }

  lemma SeededClean(r: Run, spans: seq<Span>, p: nat)
    requires CleanInv(r, spans, p) && |r.history| + 2 < TWO_POW_64
    ensures CleanInv(r.(store := Seed(r.store)), spans, p) && Seed(r.store).nextSeq == |r.history| + 1
    ensures Seed(r.store).segs == r.store.segs
  {
    SeedExceedsAll(r, spans);
  }

  /** An append without failures, once the number is seeded and the base is open. */
  lemma AppendIs(r: Run, a: Action)
    requires a.Append? && NoFailure(a) && ValidState(r.store) && a.req.subject != [] && a.req.action != []
    ensures var s1 := Seed(r.store); var e := EventFor(a.req, a.now, s1.nextSeq);
      Step(r, a) == After(AppendOpened(s1.(segs := Create(s1.segs)), e, a.fault), r.history)
  {
  }

  lemma CleanAppend(r: Run, spans: seq<Span>, p: nat, a: Action) returns (spans': seq<Span>, p': nat)
    requires a.Append? && CleanInv(r, spans, p) && Allowed(a) && NoFailure(a) && |r.history| + 2 < TWO_POW_64
    ensures CleanInv(Step(r, a), spans', p')
    ensures |Step(r, a).history| <= |r.history| + 1
  {
    spans', p' := spans, p;
    if a.req.subject != [] && a.req.action != [] {
      SeededClean(r, spans, p);
      AppendIs(r, a);
      var s1 := Seed(r.store);
      spans', p' := CleanWrite(r.(store := s1), spans, p, EventFor(a.req, a.now, s1.nextSeq), a.fault);
    }
  }

  lemma CleanStep(r: Run, spans: seq<Span>, p: nat, a: Action) returns (spans': seq<Span>, p': nat)
    requires CleanInv(r, spans, p) && Allowed(a) && NoFailure(a) && |r.history| + 2 < TWO_POW_64
    ensures CleanInv(Step(r, a), spans', p')
    ensures |Step(r, a).history| <= |r.history| + 1
  {
    if a.Append? {
      spans', p' := CleanAppend(r, spans, p, a);
    } else {
      spans', p' := spans, p;
      SeedExceedsAll(r, spans);
    }
  }

  lemma {:induction false} CleanRun(actions: seq<Action>) returns (spans: seq<Span>, p: nat)
    requires |actions| + 1 < TWO_POW_64
    requires forall i | 0 <= i < |actions| :: Allowed(actions[i]) && NoFailure(actions[i])
    ensures CleanInv(Execute(actions), spans, p) && |Execute(actions).history| <= |actions|
  {
    if actions == [] {
      spans, p := seq(SEG_MAX, _ => Span(0, 0)), 0;
    } else {
      var n := |actions| - 1;
      spans, p := CleanRun(actions[..n]);
      spans, p := CleanStep(Execute(actions[..n]), spans, p, actions[n]);
    }
  }

  lemma JoinSuffix(history: seq<Event>, lo: nat, hi: nat)
    requires lo <= hi <= |history|
    ensures history[lo..hi] + history[hi..] == history[lo..]
  {
  }

  lemma EmptyStretch(history: seq<Event>, sp: Span)
    requires sp.lo <= sp.hi <= |history| && !NonEmpty(sp)
    ensures history[sp.lo..sp.hi] == []
  {
  }

  /** Adjacent stretches, put together, are one stretch that ends with the newest event. */
  lemma {:induction false} StretchesSuffix(segs: seq<Segment>, history: seq<Event>, spans: seq<Span>, p: nat, n: nat)
      returns (cut: nat)
    requires Ordered(spans, |history|) && Chained(segs, spans, |history|, p) && n <= SEG_MAX
    ensures cut <= |history| && Stretches(history, spans, n) == history[cut..]
    ensures 0 < n <= p ==> cut == spans[n - 1].lo
    ensures n > 0 && p > 0 ==> cut < |history|
  {
    if n == 0 {
      cut := |history|;
    } else {
      cut := StretchesSuffix(segs, history, spans, p, n - 1);
      var sp := spans[n - 1];
      if n <= p {
        assert sp.hi == cut;
        JoinSuffix(history, sp.lo, sp.hi);
        cut := sp.lo;
      } else {
        EmptyStretch(history, sp);
        assert [] + history[cut..] == history[cut..];
      }
    }
  }

  /**
    Over every run without failures, with restarts and max_files >= 2 changed at
    will: what a query sees is exactly the end of the history, ending with the
    newest event, so its seqs are consecutive and end at next_seq - 1.
   */
  lemma VisibleIsSuffix(actions: seq<Action>)
    requires |actions| + 1 < TWO_POW_64
    requires forall i | 0 <= i < |actions| :: Allowed(actions[i]) && NoFailure(actions[i])
    ensures var r := Execute(actions); IsSuffix(Visible(r.store), r.history, Seed(r.store).nextSeq)
  {
    var spans, p := CleanRun(actions);
    SuffixSeen(Execute(actions), spans, p);
  }

  /** The end of the history, and the numbers it ends with. */
  predicate IsSuffix(seen: seq<Event>, history: seq<Event>, next: int) {
    var n := |history|;
    && |seen| <= n && seen == history[n - |seen|..]
    && (n > 0 ==> seen != [] && seen[|seen| - 1].seq_ == next - 1)
    && (forall i | 0 <= i < |seen| :: seen[i].seq_ == n - |seen| + i + 1)
  }

  lemma SuffixIs(history: seq<Event>, cut: nat)
    requires Consecutive(history) && cut <= |history| && (history != [] ==> cut < |history|)
    ensures IsSuffix(history[cut..], history, |history| + 1)
  {
  }

  lemma SuffixSeen(r: Run, spans: seq<Span>, p: nat)
    requires CleanInv(r, spans, p) && |r.history| + 1 < TWO_POW_64
    ensures IsSuffix(Visible(r.store), r.history, Seed(r.store).nextSeq)
  {
    ReadBackStretches(r.store.segs, r.history, spans, r.store.maxFiles);
    var cut := StretchesSuffix(r.store.segs, r.history, spans, p, r.store.maxFiles);
    SeedExceedsAll(r, spans);
    SuffixIs(r.history, cut);
  }

  // ---------------------------------------------------------------- segment sizes

  /** Within the limit, or exactly one line. */
  ghost predicate Small(seg: Segment, limit: nat) {
    |Bytes(seg)| <= limit || exists e: Event :: Bytes(seg) == LineOf(e)
  }

  ghost predicate AllSmall(segs: seq<Segment>, limit: nat) {
    |segs| == SEG_MAX && forall i | 0 <= i < SEG_MAX :: Small(segs[i], limit)
  }

  lemma {:induction false} RotateSmall(segs: seq<Segment>, m: nat, n: nat, limit: nat)
    requires AllSmall(segs, limit) && m <= SEG_MAX && n <= RotateCalls(m)
    ensures AllSmall(RotateUpTo(segs, m, n), limit)
    decreases n
  {
    if n > 0 && m > 1 {
      RotateSmall(segs, m, n - 1, limit);
    }
  }

  lemma WriteSmall(s: State, e: Event, fault: Fault)
    requires AllSmall(s.segs, s.maxBytes)
    requires !NeedsRotation(|Bytes(s.segs[0])|, |LineOf(e)|, s.maxBytes)
    ensures AllSmall(WriteBase(s, e, fault).state.segs, s.maxBytes)
  {
    var text := Bytes(s.segs[0]) + LineOf(e);
    if Bytes(s.segs[0]) == [] {
      assert text == LineOf(e);
    }
    assert Small(File(text), s.maxBytes);
  }

  /** After a complete rotation the base is empty: the line goes in whatever its length. */
  lemma {:induction false} RotatedBaseEmpty(segs: seq<Segment>, m: nat, n: nat)
    requires |segs| == SEG_MAX && 1 <= m <= SEG_MAX && n <= RotateCalls(m)
    requires n >= m - 1 && (m == 1 ==> n == 1)
    ensures Bytes(RotateUpTo(segs, m, n)[0]) == []
    decreases n
  {
    if n > m - 1 && m > 1 {
      RotatedBaseEmpty(segs, m, n - 1);
    }
  }

  lemma AppendSmall(s: State, e: Event, fault: Fault)
    requires AllSmall(s.segs, s.maxBytes) && 1 <= s.maxFiles <= SEG_MAX
    ensures AllSmall(AppendOpened(s, e, fault).state.segs, s.maxBytes)
  {
    if NeedsRotation(|Bytes(s.segs[0])|, |LineOf(e)|, s.maxBytes) {
      var calls := RotateCalls(s.maxFiles);
      if fault.at.AtRotate? && fault.at.call < calls {
        RotateSmall(s.segs, s.maxFiles, fault.at.call, s.maxBytes);
      } else {
        RotateSmall(s.segs, s.maxFiles, calls, s.maxBytes);
        RotatedBaseEmpty(s.segs, s.maxFiles, calls);
        var rotated := s.(segs := Create(RotateUpTo(s.segs, s.maxFiles, calls)));
        WriteSmall(rotated, e, fault);
      }
    } else {
      WriteSmall(s, e, fault);
    }
  }

  /**
    If every append of a run is made under the same max_bytes, then whatever
    fails, every segment is within max_bytes or holds exactly one line.
   */
  lemma {:induction false} SegmentsStaySmall(actions: seq<Action>, limit: nat)
    requires forall i | 0 <= i < |actions| && actions[i].Append? :: Execute(actions[..i]).store.maxBytes == limit
    ensures AllSmall(Execute(actions).store.segs, limit)
  {
    if actions != [] {
      var n := |actions| - 1;
      forall i | 0 <= i < n && actions[..n][i].Append?
        ensures Execute(actions[..n][..i]).store.maxBytes == limit
      {
        assert actions[..n][..i] == actions[..i];
      }
      SegmentsStaySmall(actions[..n], limit);
      assert actions[..n] == actions[..|actions| - 1];
      StepSmall(Execute(actions[..n]), actions[n], limit);
    }
  }

  lemma StepSmall(r: Run, a: Action, limit: nat)
    requires ValidState(r.store) && AllSmall(r.store.segs, limit)
    requires a.Append? ==> r.store.maxBytes == limit
    ensures AllSmall(Step(r, a).store.segs, limit)
  {
    if a.Append? && a.req.subject != [] && a.req.action != [] && a.fault.at != AtMkdir && a.fault.at != AtOpen {
      var s1 := Seed(r.store);
      AppendSmall(s1.(segs := Create(s1.segs)), EventFor(a.req, a.now, s1.nextSeq), a.fault);
    }
  }

  // ---------------------------------------------------------------- max_files == 1

  /** The segments hold stretches of the history that end before its newest event. */
  ghost predicate BelowNewest(segs: seq<Segment>, history: seq<Event>, spans: seq<Span>) {
    && AllInBounds(history) && Consecutive(history) && 0 < |history| < TWO_POW_64
    && Ordered(spans, |history|) && Prints(segs, history, spans)
    && forall i | 0 <= i < SEG_MAX :: spans[i].hi < |history|
  }

  lemma SeedBelowHere(segs: seq<Segment>, history: seq<Event>, spans: seq<Span>, m: nat, idx: nat)
    requires BelowNewest(segs, history, spans) && idx < m <= SEG_MAX && NonEmpty(spans[idx])
    ensures SeedFrom(segs, m, idx) <= |history|
  {
    EmptyBytes(segs, history, spans, idx);
    SegmentEvents(segs, history, spans, idx);
    MaxOfConsecutive(history, spans[idx].lo, spans[idx].hi, 0);
    SeedFound(segs, m, idx, spans[idx].hi);
  }

  /** Every non-empty segment seeds at most this number. */
  ghost predicate SeedsAtMost(segs: seq<Segment>, m: nat, n: nat)
    requires m <= |segs|
  {
    forall i | 0 <= i < m && Bytes(segs[i]) != [] :: SeedFrom(segs, m, i) <= n
  }

  lemma {:induction false} SeedAtMost(segs: seq<Segment>, m: nat, idx: nat, n: nat)
    requires idx <= m <= |segs| && 1 <= n && SeedsAtMost(segs, m, n)
    ensures SeedFrom(segs, m, idx) <= n
    decreases m - idx
  {
    if idx < m {
      if Bytes(segs[idx]) == [] {
        SeedFromNext(segs, m, idx);
        SeedAtMost(segs, m, idx + 1, n);
      } else {
        assert SeedFrom(segs, m, idx) <= n;
      }
    }
  }

  lemma SeedBelow(segs: seq<Segment>, history: seq<Event>, spans: seq<Span>, m: nat)
    requires BelowNewest(segs, history, spans) && m <= SEG_MAX
    ensures SeedFrom(segs, m, 0) <= |history|
  {
    forall i | 0 <= i < m && Bytes(segs[i]) != []
      ensures SeedFrom(segs, m, i) <= |history|
    {
      EmptyBytes(segs, history, spans, i);
      SeedBelowHere(segs, history, spans, m, i);
    }
    SeedAtMost(segs, m, 0, |history|);
  }

  /** The spans that are left when the base is truncated, empty ones at the front. */
  function Tight(spans: seq<Span>): (r: seq<Span>)
    requires |spans| == SEG_MAX
    ensures |r| == SEG_MAX
  {
    seq(SEG_MAX, i requires 0 <= i < SEG_MAX => if i > 0 && NonEmpty(spans[i]) then spans[i] else Span(0, 0))
  }

  function Truncated(segs: seq<Segment>): seq<Segment>
    requires |segs| == SEG_MAX
  {
    if segs[0].File? then segs[0 := File([])] else segs
  }

  lemma RotateTruncates(segs: seq<Segment>)
    requires |segs| == SEG_MAX
    ensures RotateUpTo(segs, 1, 1) == Truncated(segs)
  {
  }

  lemma TightOrdered(spans: seq<Span>, n: nat)
    requires Ordered(spans, n) && NonEmpty(spans[0])
    ensures Ordered(Tight(spans), n) && forall i | 0 <= i < SEG_MAX :: Tight(spans)[i].hi < n
  {
    assert forall i | 0 < i < SEG_MAX && NonEmpty(spans[i]) :: spans[i].hi <= spans[0].lo;
  }

  lemma TightPrints(segs: seq<Segment>, history: seq<Event>, spans: seq<Span>)
    requires Ordered(spans, |history|) && Prints(segs, history, spans) && NonEmpty(spans[0])
    ensures Prints(Truncated(segs), history, Tight(spans))
  {
    forall i | 0 <= i < SEG_MAX
      ensures Bytes(Truncated(segs)[i]) == Text(history)(Tight(spans)[i])
    {
      EmptyBytes(segs, history, spans, i);
    }
  }

  lemma TruncatedBelow(segs: seq<Segment>, history: seq<Event>, spans: seq<Span>, later: nat)
    requires DiskInv(segs, history, spans) && Bytes(segs[0]) != [] && |history| + 1 < TWO_POW_64
    requires later <= SEG_MAX
    ensures SeedFrom(RotateUpTo(segs, 1, 1), later, 0) <= |history|
  {
    EmptyBytes(segs, history, spans, 0);
    RotateTruncates(segs);
    TightOrdered(spans, |history|);
    TightPrints(segs, history, spans);
    SeedBelow(Truncated(segs), history, Tight(spans), later);
  }

  lemma SeedFromEmptyBase(segs: seq<Segment>)
    requires |segs| == SEG_MAX && Bytes(segs[0]) == []
    ensures SeedFrom(segs, 1, 0) == 1
  {
  }

  /**
    A crash between a complete rotation and the write that follows: a later
    process goes on numbering after the newest event if and only if the rotation
    was made with max_files >= 2 and the later process looks at two segments or
    more.  Otherwise it finds no event and old numbers are issued again.
   */
  lemma RotationCrashKeepsNumbersIff(r: Run, spans: seq<Span>, m: nat, later: nat)
    requires Inv(r, spans) && |r.history| + 1 < TWO_POW_64
    requires Bytes(r.store.segs[0]) != [] && 1 <= m <= SEG_MAX && 1 <= later <= SEG_MAX
    ensures SeedFrom(RotateUpTo(r.store.segs, m, RotateCalls(m)), later, 0) == |r.history| + 1 <==> m >= 2 && later >= 2
  {
    EmptyBytes(r.store.segs, r.history, spans, 0);
    if later == 1 {
      RotatedBaseEmpty(r.store.segs, m, RotateCalls(m));
      SeedFromEmptyBase(RotateUpTo(r.store.segs, m, RotateCalls(m)));
    } else if m >= 2 {
      var spans' := RotateInv(r.(store := r.store.(maxFiles := m)), spans, RotateCalls(m));
      SeedNewest(RotateUpTo(r.store.segs, m, RotateCalls(m)), r.history, spans', later);
    } else {
      TruncatedBelow(r.store.segs, r.history, spans, later);
    }
  }

  // ---------------------------------------------------------------- a run that reuses a number

  const NO_FAULT: Fault := Fault(NoFault, 1)
  const REOPEN_FAULT: Fault := Fault(AtReopen, 24)

  lemma {:induction false} SeedAllEmpty(segs: seq<Segment>, m: nat, idx: nat)
    requires idx <= m <= |segs| && forall i | idx <= i < m :: Bytes(segs[i]) == []
    ensures SeedFrom(segs, m, idx) == 1
    decreases m - idx
  {
    if idx < m {
      SeedAllEmpty(segs, m, idx + 1);
    }
  }

  ghost predicate Quiet(req: Request, now: int) {
    Writable(req, now) && req.subject != [] && req.action != []
  }

  /** An append without failures to a directory in which the m newest segments are empty. */
  lemma AppendToEmpty(r: Run, req: Request, now: int)
    requires ValidState(r.store) && r.store.nextSeq == 0 && Quiet(req, now)
    requires forall i | 0 <= i < r.store.maxFiles :: Bytes(r.store.segs[i]) == []
    ensures var t := Step(r, Append(req, now, NO_FAULT));
      && t.history == r.history + [EventFor(req, now, 1)]
      && t.store == State(r.store.segs[0 := File(LineOf(EventFor(req, now, 1)))], 2, r.store.maxBytes, r.store.maxFiles)
  {
    SeedAllEmpty(r.store.segs, r.store.maxFiles, 0);
    var e := EventFor(req, now, 1);
    assert [] + LineOf(e) == LineOf(e);
    assert Create(r.store.segs)[0 := File(LineOf(e))] == r.store.segs[0 := File(LineOf(e))];
  }

  /** An append that rotates and dies before it writes. */
  lemma AppendDies(r: Run, req: Request, now: int)
    requires ValidState(r.store) && r.store.nextSeq != 0 && r.store.maxBytes == 1 && Quiet(req, now)
    requires r.store.segs[0].File? && |Bytes(r.store.segs[0])| > 0
    ensures var m := r.store.maxFiles;
      Step(r, Append(req, now, REOPEN_FAULT)) ==
      Run(r.store.(segs := RotateUpTo(r.store.segs, m, RotateCalls(m))), r.history)
  {
  }

  function FirstRun(req: Request, now: int, m: nat): Run {
    Step(Step(Step(Start(), SetMaxBytes(1)), Append(req, now, NO_FAULT)), SetMaxFiles(m))
  }

  /**
    A process writes an event, rotates with max_files m and dies; the next one
    looks at `later` segments and writes.  When m or later is 1, both events
    carry the number 1.
   */
  lemma NumberIssuedTwice(req: Request, now: int, m: nat, later: nat)
    requires Quiet(req, now) && 1 <= m <= SEG_MAX && 1 <= later <= SEG_MAX && (m == 1 || later == 1)
    ensures var died := Step(FirstRun(req, now, m), Append(req, now, REOPEN_FAULT));
      var last := Step(Step(Step(died, Restart), SetMaxFiles(later)), Append(req, now, NO_FAULT));
      |last.history| == 2 && last.history[0].seq_ == 1 == last.history[1].seq_
  {
    var died := FirstDies(req, now, m, later);
    SecondWrites(died, req, now, later);
  }

  /** The first process: one event, numbered 1, and a rotation that empties what the next process looks at. */
  lemma FirstDies(req: Request, now: int, m: nat, later: nat) returns (died: Run)
    requires Quiet(req, now) && 1 <= m <= SEG_MAX && 1 <= later <= SEG_MAX && (m == 1 || later == 1)
    ensures died == Step(FirstRun(req, now, m), Append(req, now, REOPEN_FAULT))
    ensures ValidState(died.store) && died.history == [EventFor(req, now, 1)]
    ensures forall i | 0 <= i < later :: Bytes(died.store.segs[i]) == []
  {
    FirstWrites(req, now, m);
    var first := FirstRun(req, now, m);
    AppendDies(first, req, now);
    OnlyBase(first.store.segs, m, later);
    died := Step(first, Append(req, now, REOPEN_FAULT));
  }

  lemma FirstWrites(req: Request, now: int, m: nat)
    requires Quiet(req, now) && 1 <= m <= SEG_MAX
    ensures |LineOf(EventFor(req, now, 1))| > 0
    ensures FirstRun(req, now, m) ==
            Run(State(Start().store.segs[0 := File(LineOf(EventFor(req, now, 1)))], 2, 1, m), [EventFor(req, now, 1)])
  {
    AppendToEmpty(Step(Start(), SetMaxBytes(1)), req, now);
  }

  /** A rotation of the only file there is empties what the later process looks at. */
  lemma OnlyBase(segs: seq<Segment>, m: nat, later: nat)
    requires |segs| == SEG_MAX && 1 <= m <= SEG_MAX && 1 <= later <= SEG_MAX && (m == 1 || later == 1)
    requires forall i | 1 <= i < SEG_MAX :: segs[i].Absent?
    ensures forall i | 0 <= i < later :: Bytes(RotateUpTo(segs, m, RotateCalls(m))[i]) == []
  {
    RotatedBaseEmpty(segs, m, RotateCalls(m));
    if m == 1 {
      RotateTruncates(segs);
    }
  }

  lemma SecondWrites(died: Run, req: Request, now: int, later: nat)
    requires Quiet(req, now) && 1 <= later <= SEG_MAX && ValidState(died.store)
    requires forall i | 0 <= i < later :: Bytes(died.store.segs[i]) == []
    ensures Step(Step(Step(died, Restart), SetMaxFiles(later)), Append(req, now, NO_FAULT)).history ==
            died.history + [EventFor(req, now, 1)]
  {
    AppendToEmpty(Step(Step(died, Restart), SetMaxFiles(later)), req, now);
  }
}
