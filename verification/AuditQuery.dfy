/**
  Queries and exports over the retained segments
  (audit/src/audit_impl.c, event_matches, collect_locked, ops_export_events).
 */
module AuditQuery {
  import opened CText
  import opened AuditFormat
  import opened AuditStore
  import opened AuditRuns

  const ORDER_DESC: int := 1

  /** Empty strings, 0 and resultSet 0 mean "any". */
  datatype Query = Query(startTs: int, endTs: int, subject: string, action: string,
                         result: int, resultSet: int, order: int, limit: int)

  function Matches(e: Event, query: Option<Query>): bool {
    match query
    case None => true
    case Some(q) =>
      && !(q.startTs > 0 && e.ts < q.startTs)
      && !(q.endTs > 0 && e.ts > q.endTs)
      && (q.subject == [] || e.subject == q.subject)
      && (q.action == [] || e.action == q.action)
      && (q.resultSet == 0 || e.result == q.result)
  }

  // ---------------------------------------------------------------- specification

  function Select(evs: seq<Event>, q: Option<Query>): seq<Event> {
    if evs == [] then []
    else if Matches(evs[0], q) then [evs[0]] + Select(evs[1..], q)
    else Select(evs[1..], q)
  }

  function Limited(evs: seq<Event>, limit: int): seq<Event> {
    if 0 < limit < |evs| then evs[..limit] else evs
  }

  /** Reversed for DESC, then the first `limit`. */
  function Arranged(chosen: seq<Event>, q: Option<Query>): seq<Event> {
    match q
    case None => chosen
    case Some(query) => Limited(if query.order == ORDER_DESC then Reverse(chosen) else chosen, query.limit)
  }

  /** Filter in ascending order, reverse for DESC, then keep the first `limit`. */
  function Answer(evs: seq<Event>, q: Option<Query>): seq<Event> {
    Arranged(Select(evs, q), q)
  }

  lemma {:induction false} SelectAppend(a: seq<Event>, b: seq<Event>, q: Option<Query>)
    ensures Select(a + b, q) == Select(a, q) + Select(b, q)
  {
    if a == [] {
      assert a + b == b;
    } else {
      SelectAppend(a[1..], b, q);
      AppendHead(a, b);
    }
  }

  // ---------------------------------------------------------------- implementation

  /** Appending to a result array that doubles when it is full. */
  method Push(arr: array<Event>, n: nat, e: Event) returns (arr': array<Event>)
    requires n <= arr.Length
    modifies arr
    ensures n + 1 <= arr'.Length && arr'[..n + 1] == old(arr[..n]) + [e]
    ensures arr' == arr || fresh(arr')
  {
    arr' := arr;
    if n == arr.Length {
      var ncap := if n > 0 then n * 2 else 64;
      arr' := new Event[ncap](i reads arr requires arr.Length == n => if 0 <= i < n then arr[i] else e);
      assert arr'[..n] == arr[..n];
    }
    arr'[n] := e;
  }

  /** The matching events of one segment, read with fgets, appended to arr. */
  method CollectSegment(text: string, q: Option<Query>, arr: array<Event>, n: nat) returns (arr': array<Event>, n': nat)
    requires n <= arr.Length
    modifies arr
    ensures n' <= arr'.Length && arr'[..n'] == old(arr[..n]) + Select(EventsIn(text), q)
    ensures arr' == arr || fresh(arr')
  {
    arr', n' := arr, n;
    var rest := text;
    ghost var goal := arr[..n] + Select(EventsIn(text), q);
    while rest != []
      invariant n' <= arr'.Length && (arr' == arr || fresh(arr'))
      invariant arr'[..n'] + Select(EventsIn(rest), q) == goal
      decreases |rest|
    {
      var len := FgetsLen(rest, LINE_MAX);
      var ev := ParseEvent(rest[..len]);
      SelectNext(rest, q);
      ghost var left := Select(EventsIn(rest[len..]), q);
      if ev.Some? && Matches(ev.value, q) {
        ConcatAssoc(arr'[..n'], [ev.value], left);
        arr' := Push(arr', n', ev.value);
        n' := n' + 1;
      }
      rest := rest[len..];
    }
    assert arr'[..n'] + [] == arr'[..n'];
  }

  lemma SelectNext(text: string, q: Option<Query>)
    requires text != []
    ensures var n := FgetsLen(text, LINE_MAX); var tail := Select(EventsIn(text[n..]), q);
      Select(EventsIn(text), q) ==
        match Parse(text[..n])
        case None => tail
        case Some(e) => if Matches(e, q) then [e] + tail else tail
  {
    NextLine(text);
  }

  /** Swapping from both ends. */
  method ReverseInPlace<T>(arr: array<T>, n: nat)
    requires n <= arr.Length
    modifies arr
    ensures arr[..n] == Reverse(old(arr[..n]))
  {
    ghost var was := arr[..n];
    var i, j := 0, n - 1;
    while i < j
      invariant 0 <= i <= n && j == n - 1 - i && i <= j + 2
      invariant forall k | 0 <= k < i :: arr[k] == was[n - 1 - k]
      invariant forall k | j < k < n :: arr[k] == was[n - 1 - k]
      invariant forall k | i <= k <= j :: arr[k] == was[k]
      decreases j - i
    {
      arr[i], arr[j] := arr[j], arr[i];
      i, j := i + 1, j - 1;
    }
    ReversePointwise(arr[..n], was);
  }

  /** One more segment in front of the n newest ones. */
  lemma SelectReadBack(segs: seq<Segment>, n: nat, q: Option<Query>, done: seq<Event>, found: seq<Event>)
    requires n < |segs| && found == Select(EventsIn(Bytes(segs[n])), q)
    ensures done + Select(ReadBack(segs, n + 1), q) == done + found + Select(ReadBack(segs, n), q)
  {
    SelectAppend(EventsIn(Bytes(segs[n])), ReadBack(segs, n), q);
    ConcatAssoc(done, found, Select(ReadBack(segs, n), q));
  }

  /** The matching events of the m newest segments, oldest first. */
  method CollectAll(segs: seq<Segment>, m: nat, q: Option<Query>) returns (arr: array<Event>, n: nat)
    requires m <= |segs|
    ensures fresh(arr) && n <= arr.Length && arr[..n] == Select(ReadBack(segs, m), q)
  {
    arr := new Event[0];
    n := 0;
    var idx := m;
    ghost var all := Select(ReadBack(segs, m), q);
    assert arr[..n] + all == all;
    while idx > 0
      invariant 0 <= idx <= m && n <= arr.Length && fresh(arr)
      invariant arr[..n] + Select(ReadBack(segs, idx), q) == all
    {
      idx := idx - 1;
      ghost var done := arr[..n];
      arr, n := CollectSegment(Bytes(segs[idx]), q, arr, n);
      SelectReadBack(segs, idx, q, done, Select(EventsIn(Bytes(segs[idx])), q));
    }
    assert arr[..n] + [] == arr[..n];
  }

  /** collect_locked: the answer is the first n elements of arr. */
  method Collect(store: Store, q: Option<Query>) returns (arr: array<Event>, n: nat)
    requires store.Valid()
    ensures fresh(arr) && n <= arr.Length && arr[..n] == Answer(Visible(store.View()), q)
  {
    arr, n := CollectAll(store.segs[..], store.maxFiles, q);
    n := Arrange(arr, n, q);
  }

  /** What collect_locked does to the array once it is filled. */
  method Arrange(arr: array<Event>, n: nat, q: Option<Query>) returns (kept: nat)
    requires n <= arr.Length
    modifies arr
    ensures kept <= n && arr[..kept] == Arranged(old(arr[..n]), q)
  {
    kept := n;
    if q.Some? && q.value.order == ORDER_DESC {
      ReverseInPlace(arr, n);
    }
    if q.Some? && q.value.limit > 0 && n > q.value.limit {
      kept := q.value.limit;
      assert arr[..n][..kept] == arr[..kept];
    }
  }

  /** Where an export fails: opening the file, writing its i-th line, closing it. */
  datatype ExportFault = NoneFails | OpenFails(errno: int) | WriteFails(line: nat) | CloseFails

  /** The lines written until one fails: their text and number. */
  method WriteLines(arr: array<Event>, n: nat, fault: ExportFault) returns (text: string, written: nat)
    requires n <= arr.Length && AllPrintable(arr[..n])
    ensures written == if fault.WriteFails? && fault.line < n then fault.line else n
    ensures text == PrintAll(arr[..written])
  {
    text, written := "", 0;
    while written < n
      invariant 0 <= written <= n && text == PrintAll(arr[..written])
      invariant fault.WriteFails? ==> written <= fault.line
    {
      assert arr[..n][written] == arr[written];
      LineFits(arr[written]);
      var line := FmtLine(arr[written], LINE_MAX);   // never empty, so the error for a line that does not fit cannot occur
      if fault == WriteFails(written) {
        return;
      }
      PrintOneMore(arr[..n], written);
      assert arr[..n][..written + 1] == arr[..written + 1] && arr[..n][..written] == arr[..written];
      text := text + line;
      written := written + 1;
    }
  }

  /** ops_export_events; a failed export leaves no file. */
  method Export(store: Store, q: Option<Query>, fault: ExportFault) returns (rc: int, file: Option<string>, written: nat)
    requires store.Valid() && (fault.OpenFails? ==> fault.errno > 0)
    ensures var answer := Answer(Visible(store.View()), q);
      && (rc == 0 <==> fault.NoneFails? || (fault.WriteFails? && fault.line >= |answer|))
      && file == (if rc == 0 then Some(PrintAll(answer)) else None)
      && rc == (if rc == 0 then 0 else if fault.OpenFails? then -fault.errno else -EIO)
      && written == if fault.OpenFails? then 0 else if fault.WriteFails? && fault.line < |answer| then fault.line else |answer|
  {
    var arr, n := Collect(store, q);
    if fault.OpenFails? {
      return -fault.errno, None, 0;
    }
    AnswersPrintable(store.View(), q);
    var text;
    text, written := WriteLines(arr, n, fault);
    if (fault.WriteFails? && written < n) || fault.CloseFails? {
      return -EIO, None, written;
    }
    return 0, Some(text), written;
  }

  predicate AllPrintable(evs: seq<Event>) {
    forall i | 0 <= i < |evs| :: Printable(evs[i])
  }

  lemma AnswersPrintable(s: State, q: Option<Query>)
    requires ValidState(s)
    ensures AllPrintable(Answer(Visible(s), q))
  {
    forall i | 0 <= i < |Answer(Visible(s), q)|
      ensures Printable(Answer(Visible(s), q)[i])
    {
      AnswerPrintable(s, q, i);
    }
  }

  lemma PrintOneMore(evs: seq<Event>, i: nat)
    requires i < |evs|
    ensures PrintAll(evs[..i + 1]) == PrintAll(evs[..i]) + LineOf(evs[i])
  {
    assert evs[..i + 1] == evs[..i] + [evs[i]];
    PrintAllAppend(evs[..i], [evs[i]]);
    ConcatMapOne(LineOf, evs[i]);
  }

  // ---------------------------------------------------------------- every event read back can be printed

  lemma {:induction false} FieldFits(line: string, k: nat, acc: string, cap: nat)
    requires k <= |line| && NUL !in line && NUL !in acc && |acc| < cap
    ensures Field(line, k, acc, cap).Some? ==> FitsField(Field(line, k, acc, cap).value.0, cap)
    decreases |line| - k
  {
    if k < |line| && line[k] != '|' {
      if line[k] == '\\' {
        if k + 1 < |line| && Unescape(line[k + 1]).Some? && |acc| + 1 < cap {
          FieldFits(line, k + 2, acc + [Unescape(line[k + 1]).value], cap);
        }
      } else if |acc| + 1 < cap {
        assert line[k] in line;
        FieldFits(line, k + 1, acc + [line[k]], cap);
      }
    }
  }

  lemma {:induction false} FieldsFit(line: string, k: nat, i: nat)
    requires k <= |line| && i <= FIELD_COUNT && NUL !in line
    ensures Fields(line, k, i).Some? ==>
      forall j | 0 <= j < FIELD_COUNT - i :: FitsField(Fields(line, k, i).value.0[j], Cap(i + j))
    decreases FIELD_COUNT - i
  {
    if i < FIELD_COUNT {
      FieldFits(line, k, [], Cap(i));
      var f := Field(line, k, [], Cap(i));
      if f.Some? {
        FieldsFit(line, f.value.1, i + 1);
      }
    }
  }

  lemma NumbersInRange(s: string)
    ensures Strtoull(s) < TWO_POW_64 && -TWO_POW_63 <= Strtoll(s) < TWO_POW_63
  {
  }

  lemma ParsedInBounds(buf: string)
    ensures Parse(buf).Some? ==> InBounds(Parse(buf).value)
  {
    var line := StripEol(CStr(buf));
    assert NUL !in line;
    var fields := Fields(line, 0, 0);
    if fields.Some? {
      FieldsFit(line, 0, 0);
      var fs := fields.value.0;
      NumbersInRange(fs[0]);
      NumbersInRange(fs[1]);
      assert FitsField(fs[2], Cap(0 + 2)) && FitsField(fs[3], Cap(0 + 3));
      assert FitsField(fs[4], Cap(0 + 4)) && FitsField(fs[6], Cap(0 + 6));
    }
  }

  lemma {:induction false} EventsInBounds(text: string)
    ensures AllInBounds(EventsIn(text))
    decreases |text|
  {
    if text != [] {
      var n := FgetsLen(text, LINE_MAX);
      NextLine(text);
      ParsedInBounds(text[..n]);
      EventsInBounds(text[n..]);
    }
  }

  lemma {:induction false} ReadBackInBounds(segs: seq<Segment>, n: nat)
    requires n <= |segs|
    ensures AllInBounds(ReadBack(segs, n))
  {
    if n > 0 {
      EventsInBounds(Bytes(segs[n - 1]));
      ReadBackInBounds(segs, n - 1);
      BothInBounds(EventsIn(Bytes(segs[n - 1])), ReadBack(segs, n - 1));
    }
  }

  lemma BothInBounds(a: seq<Event>, b: seq<Event>)
    requires AllInBounds(a) && AllInBounds(b)
    ensures AllInBounds(a + b)
  {
    forall i | 0 <= i < |a + b|
      ensures InBounds((a + b)[i])
    {
      assert (a + b)[i] == if i < |a| then a[i] else b[i - |a|];
    }
  }

  lemma {:induction false} SelectMembers(evs: seq<Event>, q: Option<Query>)
    ensures forall e :: e in Select(evs, q) <==> e in evs && Matches(e, q)
  {
    if evs != [] {
      SelectMembers(evs[1..], q);
      assert evs == [evs[0]] + evs[1..];
    }
  }

  lemma AnswerMembers(evs: seq<Event>, q: Option<Query>)
    ensures forall e :: e in Answer(evs, q) ==> e in evs && Matches(e, q)
  {
    SelectMembers(evs, q);
  }

  lemma AnswerPrintable(s: State, q: Option<Query>, i: nat)
    requires ValidState(s) && i < |Answer(Visible(s), q)|
    ensures Printable(Answer(Visible(s), q)[i]) && |LineOf(Answer(Visible(s), q)[i])| < LINE_MAX
    ensures |LineOf(Answer(Visible(s), q)[i])| > 0
  {
    var e := Answer(Visible(s), q)[i];
    AnswerMembers(Visible(s), q);
    assert e in Answer(Visible(s), q);
    ReadBackInBounds(s.segs, s.maxFiles);
    LineFits(e);
  }

  // ---------------------------------------------------------------- what answers mean

  lemma {:induction false} SelectIncreasing(evs: seq<Event>, q: Option<Query>)
    requires Increasing(evs)
    ensures Increasing(Select(evs, q))
    ensures forall i, n: nat | 0 <= i < |Select(evs, q)| && NewerThan(evs, n) :: Select(evs, q)[i].seq_ > n
  {
    if evs != [] {
      SelectIncreasing(evs[1..], q);
      assert NewerThan(evs[1..], evs[0].seq_);
      forall i, n: nat | 0 <= i < |Select(evs, q)| && NewerThan(evs, n)
        ensures Select(evs, q)[i].seq_ > n
      {
        assert NewerThan(evs[1..], n) && evs[0].seq_ > n;
      }
    }
  }

  predicate Decreasing(evs: seq<Event>) {
    forall i, j | 0 <= i < j < |evs| :: evs[i].seq_ > evs[j].seq_
  }

  lemma AnswerOfIncreasing(evs: seq<Event>, q: Query)
    requires Increasing(evs) && q.limit <= 0
    ensures forall e :: e in Answer(evs, Some(q)) <==>
      && e in evs
      && (q.startTs > 0 ==> q.startTs <= e.ts) && (q.endTs > 0 ==> e.ts <= q.endTs)
      && (q.subject != "" ==> q.subject == e.subject) && (q.action != "" ==> q.action == e.action)
      && (q.resultSet != 0 ==> q.result == e.result)
    ensures if q.order == ORDER_DESC then Decreasing(Answer(evs, Some(q))) else Increasing(Answer(evs, Some(q)))
  {
    SelectMembers(evs, Some(q));
    SelectIncreasing(evs, Some(q));
    ReverseMembers(Select(evs, Some(q)));
  }

  /**
    Over every run: an unlimited answer holds exactly the visible events within the
    window of time, of the subject, the action and the result asked for, as far as
    they are asked for; each once, by ascending seq, or by descending seq for DESC.
   */
  lemma AnswerIsExact(actions: seq<Action>, q: Query)
    requires |actions| + 1 < TWO_POW_64
    requires forall i | 0 <= i < |actions| :: Allowed(actions[i])
    requires q.limit <= 0
    ensures var seen := Visible(Execute(actions).store); var answer := Answer(seen, Some(q));
      && (forall e :: e in answer <==>
           && e in seen
           && (q.startTs > 0 ==> q.startTs <= e.ts) && (q.endTs > 0 ==> e.ts <= q.endTs)
           && (q.subject != "" ==> q.subject == e.subject) && (q.action != "" ==> q.action == e.action)
           && (q.resultSet != 0 ==> q.result == e.result))
      && (if q.order == 1 then Decreasing(answer) else Increasing(answer))
  {
    VisibleIncreasing(actions);
    AnswerOfIncreasing(Visible(Execute(actions).store), q);
  }

  lemma VisibleIncreasing(actions: seq<Action>)
    requires |actions| + 1 < TWO_POW_64
    requires forall i | 0 <= i < |actions| :: Allowed(actions[i])
    ensures Increasing(Visible(Execute(actions).store))
  {
    var r := Execute(actions);
    var spans := RunInv(actions);
    ReadBackStretches(r.store.segs, r.history, spans, r.store.maxFiles);
    StretchesIncreasing(r.history, spans, r.store.maxFiles);
  }

  /** A limit keeps the first so many of the events that would be returned without one, in either order. */
  lemma LimitKeepsFirst(evs: seq<Event>, q: Query)
    requires q.limit > 0
    ensures var all := Answer(evs, Some(q.(limit := 0)));
      Answer(evs, Some(q)) == if q.limit < |all| then all[..q.limit] else all
  {
    SelectSame(evs, q, q.(limit := 0));
  }

  lemma {:induction false} SelectSame(evs: seq<Event>, q: Query, r: Query)
    requires r == q.(limit := r.limit)
    ensures Select(evs, Some(q)) == Select(evs, Some(r))
  {
    if evs != [] {
      SelectSame(evs[1..], q, r);
    }
  }

  /** The last `limit` of these events, newest first. */
  function Newest(evs: seq<Event>, limit: int): seq<Event>
    requires limit > 0
  {
    var kept := if limit < |evs| then limit else |evs|;
    Reverse(evs[|evs| - kept..])
  }

  /** order=DESC, limit=N is the tail of the log: the newest N matching events, newest first. */
  lemma TailIsNewest(evs: seq<Event>, q: Query)
    requires q.order == 1 && q.limit > 0
    ensures Answer(evs, Some(q)) == Newest(Select(evs, Some(q)), q.limit)
  {
    ReversedPrefix(Select(evs, Some(q)), q.limit);
  }

  lemma ReversedPrefix(evs: seq<Event>, limit: int)
    requires limit > 0
    ensures Limited(Reverse(evs), limit) == Newest(evs, limit)
  {
    var kept := if limit < |evs| then limit else |evs|;
    ReverseTake(evs, kept);
    LimitedIs(Reverse(evs), limit, kept, Reverse(evs[|evs| - kept..]));
  }

  lemma LimitedIs(evs: seq<Event>, limit: int, kept: nat, front: seq<Event>)
    requires limit > 0 && kept == (if limit < |evs| then limit else |evs|) && evs[..kept] == front
    ensures Limited(evs, limit) == front
  {
  }

  lemma ReverseTake<T>(s: seq<T>, k: nat)
    requires k <= |s|
    ensures Reverse(s)[..k] == Reverse(s[|s| - k..])
  {
    var front, tail := Reverse(s)[..k], s[|s| - k..];
    forall i | 0 <= i < k
      ensures front[i] == tail[k - 1 - i]
    {
      assert front[i] == s[|s| - 1 - i];
    }
    ReversePointwise(front, tail);
  }

  /** The bytes of segments n-1, .., 0, oldest first. */
  function LogBytes(segs: seq<Segment>, n: nat): string
    requires n <= |segs|
  {
    if n == 0 then [] else Bytes(segs[n - 1]) + LogBytes(segs, n - 1)
  }

  /** A query structure that is all zero. */
  const EMPTY_QUERY: Query := Query(0, 0, [], [], 0, 0, 0, 0)

  predicate Unconditional(q: Option<Query>) {
    q == None || q == Some(EMPTY_QUERY)
  }

  lemma {:induction false} SelectAll(evs: seq<Event>, q: Option<Query>)
    requires Unconditional(q)
    ensures Select(evs, q) == evs
  {
    if evs != [] {
      SelectAll(evs[1..], q);
    }
  }

  ghost function SpanTexts(text: Span -> string, spans: seq<Span>, n: nat): string
    requires n <= |spans|
  {
    if n == 0 then [] else text(spans[n - 1]) + SpanTexts(text, spans, n - 1)
  }

  lemma {:induction false} LogIsSpanTexts(segs: seq<Segment>, text: Span -> string, spans: seq<Span>, n: nat)
    requires Holds(segs, text, spans) && n <= SEG_MAX
    ensures LogBytes(segs, n) == SpanTexts(text, spans, n)
  {
    if n > 0 {
      LogIsSpanTexts(segs, text, spans, n - 1);
    }
  }

  lemma {:induction false} PrintedStretches(history: seq<Event>, spans: seq<Span>, n: nat)
    requires Ordered(spans, |history|) && n <= SEG_MAX
    ensures PrintAll(Stretches(history, spans, n)) == SpanTexts(Text(history), spans, n)
  {
    if n > 0 {
      PrintedStretches(history, spans, n - 1);
      PrintAllAppend(history[spans[n - 1].lo..spans[n - 1].hi], Stretches(history, spans, n - 1));
    }
  }

  /** Over every run: an export without conditions is, byte for byte, the segments from the oldest to the base. */
  lemma ExportReproducesLog(actions: seq<Action>, q: Option<Query>)
    requires |actions| + 1 < TWO_POW_64
    requires forall i | 0 <= i < |actions| :: Allowed(actions[i])
    requires Unconditional(q)
    ensures var s := Execute(actions).store;
      PrintAll(Answer(Visible(s), q)) == LogBytes(s.segs, s.maxFiles)
  {
    var r := Execute(actions);
    var spans := RunInv(actions);
    SelectAll(Visible(r.store), q);
    ReadBackStretches(r.store.segs, r.history, spans, r.store.maxFiles);
    PrintedStretches(r.history, spans, r.store.maxFiles);
    LogIsSpanTexts(r.store.segs, Text(r.history), spans, r.store.maxFiles);
  }
}
