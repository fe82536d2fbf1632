/**
  What one append does, told from the request: when it succeeds, what it records,
  which files it changes, and that queries and the status then show it
  (audit/src/audit_impl.c, ops_append, ops_query, ops_status).
 */
module AuditEffects {
  import opened CText
  import opened AuditFormat
  import opened AuditStore
  import opened AuditRuns
  import opened AuditRetention
  import opened AuditQuery

  // ---------------------------------------------------------------- one append

  /** A successful append records the request: each text in its place, the time of the request or else the clock's, the next number. */
  lemma AppendRecordsRequest(s: State, req: Request, now: int, fault: Fault)
    requires ValidState(s) && fault.errno > 0
    ensures var o := AppendSpec(s, req, now, fault);
      && (o.rc == 0 <==> o.written.Some?)
      && (o.rc == 0 ==>
            var e := o.written.value;
            && e.subject == req.subject && e.action == req.action && e.target == req.target && e.detail == req.detail
            && e.result == req.result && e.ts == (if req.ts > 0 then req.ts else now)
            && e.seq_ == Seed(s).nextSeq && o.state.nextSeq == (if e.seq_ == TWO_POW_64 - 1 then 0 else e.seq_ + 1))
  {
  }

  /** The event a request asks for. */
  ghost predicate Asks(req: Request, now: int, n: nat, e: Event) {
    && e.subject == req.subject && e.action == req.action && e.target == req.target && e.detail == req.detail
    && e.result == req.result && e.ts == (if req.ts > 0 then req.ts else now) && e.seq_ == n
  }

  /** The base has something, and another line would take it over the limit. */
  ghost predicate Full(s: State, e: Event)
    requires ValidState(s)
  {
    |Bytes(s.segs[0])| != 0 && |Bytes(s.segs[0])| + |LineOf(e)| > s.maxBytes
  }

  /** An append succeeds exactly when subject and action are given and no call that it makes fails. */
  lemma AppendSucceedsIff(s: State, req: Request, now: int, fault: Fault, e: Event)
    requires ValidState(s) && fault.errno > 0 && Asks(req, now, Seed(s).nextSeq, e)
    ensures AppendSpec(s, req, now, fault).rc == 0 <==>
      && req.subject != "" && req.action != ""
      && fault.at !in {AtMkdir, AtOpen, AtStat, AtWrite}
      && (Full(s, e) ==> fault.at != AtReopen && (fault.at.AtRotate? ==> fault.at.call >= if s.maxFiles == 1 then 1 else 15))
  {
  }

  /** One that fails: its code, and that no number is used up and no limit changed; refused, it changes nothing at all. */
  lemma AppendFails(s: State, req: Request, now: int, fault: Fault)
    requires ValidState(s) && fault.errno > 0 && AppendSpec(s, req, now, fault).rc != 0
    ensures var o := AppendSpec(s, req, now, fault); var missing := req.subject == "" || req.action == "";
      && o.rc == (if missing then -22 else if fault.at == AtWrite then -5 else -fault.errno)
      && o.state.nextSeq == (if missing || fault.at == AtMkdir then s.nextSeq else Seed(s).nextSeq)
      && o.state.maxFiles == s.maxFiles && o.state.maxBytes == s.maxBytes
      && (missing || fault.at in {AtMkdir, AtOpen} ==> o.state.segs == s.segs)
  {
  }

  /** One that succeeds adds its line to the base, and touches no other file, if the line fits or the base is empty. */
  lemma AppendInPlace(s: State, req: Request, now: int, fault: Fault, e: Event)
    requires ValidState(s) && fault.errno > 0 && Asks(req, now, Seed(s).nextSeq, e) && !Full(s, e)
    requires AppendSpec(s, req, now, fault).rc == 0
    ensures var after := AppendSpec(s, req, now, fault).state;
      && after.segs == s.segs[0 := File(Bytes(s.segs[0]) + LineOf(e))]
      && after.maxFiles == s.maxFiles && after.maxBytes == s.maxBytes
  {
  }

  /** If it does not fit, every file moves one place up first, none is left beyond max_files, and the base holds the new line alone. */
  lemma AppendRotates(s: State, req: Request, now: int, fault: Fault, e: Event)
    requires ValidState(s) && fault.errno > 0 && Asks(req, now, Seed(s).nextSeq, e) && Full(s, e)
    requires AppendSpec(s, req, now, fault).rc == 0
    ensures var after := AppendSpec(s, req, now, fault).state;
      && after.segs[0] == File(LineOf(e)) && after.maxFiles == s.maxFiles && after.maxBytes == s.maxBytes
      && (forall i | 1 <= i < s.maxFiles :: after.segs[i] ==
            if s.segs[i - 1].File? then s.segs[i - 1] else if i == s.maxFiles - 1 then s.segs[i] else Absent)
      && (forall i | s.maxFiles <= i < SEG_MAX && s.maxFiles >= 2 :: after.segs[i] == Absent)
  {
    var rotated := RotateUpTo(s.segs, s.maxFiles, RotateCalls(s.maxFiles));
    RotatedBaseEmpty(s.segs, s.maxFiles, RotateCalls(s.maxFiles));
    WrittenRotated(s, req, now, fault, e);
    LineAlone(rotated, LineOf(e));
    AllMoved(s.segs, s.maxFiles);
  }

  lemma WrittenRotated(s: State, req: Request, now: int, fault: Fault, e: Event)
    requires ValidState(s) && fault.errno > 0 && Asks(req, now, Seed(s).nextSeq, e) && Full(s, e)
    requires AppendSpec(s, req, now, fault).rc == 0
    ensures var created := Create(RotateUpTo(s.segs, s.maxFiles, RotateCalls(s.maxFiles)));
      AppendSpec(s, req, now, fault).state ==
      Seed(s).(segs := created[0 := File(Bytes(created[0]) + LineOf(e))], nextSeq := Increment(Seed(s).nextSeq))
  {
    assert Create(s.segs) == s.segs;
    assert EventFor(req, now, Seed(s).nextSeq) == e;
  }

  lemma LineAlone(segs: seq<Segment>, line: string)
    requires |segs| == SEG_MAX && Bytes(segs[0]) == []
    ensures Create(segs)[0 := File(Bytes(Create(segs)[0]) + line)] == segs[0 := File(line)]
  {
    assert [] + line == line;
  }

  lemma AllMoved(segs: seq<Segment>, m: nat)
    requires |segs| == SEG_MAX && 1 <= m <= SEG_MAX
    ensures var after := RotateUpTo(segs, m, RotateCalls(m));
      && (forall i | 1 <= i < m :: after[i] ==
            if segs[i - 1].File? then segs[i - 1] else if i == m - 1 then segs[i] else Absent)
      && (forall i | m <= i < SEG_MAX && m >= 2 :: after[i] == Absent)
  {
    if m >= 2 {
      RotateCallByCall(segs, m, SEG_MAX - 1);
    }
  }

  // ---------------------------------------------------------------- runs

  lemma ExecuteNext(actions: seq<Action>, a: Action)
    ensures Execute(actions + [a]) == Step(Execute(actions), a)
  {
    assert (actions + [a])[..|actions|] == actions;
  }

  /** What the other actions of a run do: none touches a file, and only an append adds to the history. */
  lemma ActionsAre(r: Run, n: int, bytes: nat)
    requires ValidState(r.store)
    ensures Step(r, Restart) == Run(State(r.store.segs, 0, 1_048_576, 3), r.history)
    ensures Step(r, Reseed) == r.(store := r.store.(nextSeq := 0))
    ensures Step(r, SetMaxFiles(n)) == if 1 <= n <= 16 then r.(store := r.store.(maxFiles := n)) else r
    ensures Step(r, SetMaxBytes(bytes)) == r.(store := r.store.(maxBytes := bytes))
    ensures Step(r, GetStatus) ==
      if r.store.nextSeq != 0 then r else r.(store := r.store.(nextSeq := SeedFrom(r.store.segs, r.store.maxFiles, 0)))
  {
  }

  /** Over every run: what an append that succeeds has recorded is what was asked, and it is the newest event of the history. */
  lemma HistoryIsAsked(actions: seq<Action>, req: Request, now: int, fault: Fault)
    requires fault.errno > 0
    ensures var r, after := Execute(actions), Execute(actions + [Append(req, now, fault)]);
      if AppendSpec(r.store, req, now, fault).rc != 0 then after.history == r.history
      else
        && |after.history| == |r.history| + 1 && after.history[..|r.history|] == r.history
        && Asks(req, now, Seed(r.store).nextSeq, after.history[|r.history|])
  {
    ExecuteNext(actions, Append(req, now, fault));
    AppendRecordsRequest(Execute(actions).store, req, now, fault);
  }

  lemma AllowedNext(actions: seq<Action>, a: Action)
    requires (forall i | 0 <= i < |actions| :: Allowed(actions[i])) && Allowed(a)
    ensures forall i | 0 <= i < |actions + [a]| :: Allowed((actions + [a])[i])
  {
  }

  /** The event is there to be read right after it was appended. */
  lemma NewestIsAsked(actions: seq<Action>, req: Request, now: int, fault: Fault) returns (e: Event)
    requires |actions| + 2 < TWO_POW_64
    requires (forall i | 0 <= i < |actions| :: Allowed(actions[i])) && Allowed(Append(req, now, fault))
    requires AppendSpec(Execute(actions).store, req, now, fault).rc == 0
    ensures var seen := Visible(Execute(actions + [Append(req, now, fault)]).store);
      seen != [] && seen[|seen| - 1] == e && Asks(req, now, |Execute(actions).history| + 1, e)
  {
    var all := actions + [Append(req, now, fault)];
    AllowedNext(actions, Append(req, now, fault));
    HistoryIsAsked(actions, req, now, fault);
    SeqsNeverReused(actions);
    NewestAlwaysVisible(all);
    e := Execute(all).history[|Execute(actions).history|];
  }

  lemma {:induction false} SelectNewest(evs: seq<Event>, q: Option<Query>)
    requires evs != [] && Matches(evs[|evs| - 1], q)
    ensures Select(evs, q) != [] && Select(evs, q)[|Select(evs, q)| - 1] == evs[|evs| - 1]
  {
    if |evs| > 1 {
      SelectNewest(evs[1..], q);
    }
  }

  /**
    After an append that succeeded, in every run: a query for its subject and
    action, its time and its result returns the event, and the newest such event
    it returns is this one.
   */
  lemma AppendIsFound(actions: seq<Action>, req: Request, now: int, fault: Fault, q: Query)
    requires |actions| + 2 < TWO_POW_64
    requires (forall i | 0 <= i < |actions| :: Allowed(actions[i])) && Allowed(Append(req, now, fault))
    requires AppendSpec(Execute(actions).store, req, now, fault).rc == 0
    requires q.subject in {"", req.subject} && q.action in {"", req.action}
    requires q.resultSet == 0 || q.result == req.result
    requires var ts := if req.ts > 0 then req.ts else now; q.startTs <= ts && (q.endTs > 0 ==> ts <= q.endTs)
    ensures var seen := Visible(Execute(actions + [Append(req, now, fault)]).store);
      && (exists e :: e in Answer(seen, Some(q.(limit := 0))) && Asks(req, now, |Execute(actions).history| + 1, e))
      && var tail := Answer(seen, Some(q.(order := 1, limit := 1)));
         |tail| == 1 && Asks(req, now, |Execute(actions).history| + 1, tail[0])
  {
    var e := NewestIsAsked(actions, req, now, fault);
    var seen := Visible(Execute(actions + [Append(req, now, fault)]).store);
    TailOfSeen(seen, q, e);
  }

  lemma TailOfSeen(seen: seq<Event>, q: Query, e: Event)
    requires seen != [] && seen[|seen| - 1] == e && Matches(e, Some(q))
    ensures e in Answer(seen, Some(q.(limit := 0)))
    ensures Answer(seen, Some(q.(order := 1, limit := 1))) == [e]
  {
    AmongAll(seen, q.(limit := 0), e);
    NewestAlone(seen, q.(order := 1, limit := 1), e);
  }

  lemma AmongAll(seen: seq<Event>, all: Query, e: Event)
    requires seen != [] && seen[|seen| - 1] == e && Matches(e, Some(all)) && all.limit == 0
    ensures e in Answer(seen, Some(all))
  {
    SelectNewest(seen, Some(all));
    ReverseMembers(Select(seen, Some(all)));
  }

  lemma NewestAlone(seen: seq<Event>, last: Query, e: Event)
    requires seen != [] && seen[|seen| - 1] == e && Matches(e, Some(last)) && last.order == 1 && last.limit == 1
    ensures Answer(seen, Some(last)) == [e]
  {
    SelectNewest(seen, Some(last));
    TailIsNewest(seen, last);
    var chosen := Select(seen, Some(last));
    assert chosen[|chosen| - 1..] == [e];
  }

  // ---------------------------------------------------------------- seeding

  /** The largest number in a text, 0 if there is none. */
  ghost predicate Largest(evs: seq<Event>, n: nat) {
    (forall e | e in evs :: e.seq_ <= n) && (n == 0 || exists e | e in evs :: e.seq_ == n)
  }

  lemma {:induction false} MaxIsLargest(acc: nat, evs: seq<Event>)
    ensures acc <= MaxFrom(acc, evs) && (forall e | e in evs :: e.seq_ <= MaxFrom(acc, evs))
    ensures MaxFrom(acc, evs) == acc || exists e | e in evs :: e.seq_ == MaxFrom(acc, evs)
    decreases evs
  {
    if evs != [] {
      var next := if evs[0].seq_ > acc then evs[0].seq_ else acc;
      MaxIsLargest(next, evs[1..]);
      assert evs == [evs[0]] + evs[1..];
      assert evs[0] in evs;
    }
  }

  /**
    Reseeding looks at the first of the segments, from the base on, that is not
    empty: one more than the largest number in it, or 1 if nothing in it can be
    parsed; and 1 if all are empty.
   */
  lemma SeedIs(segs: seq<Segment>, m: nat, idx: nat, i: nat, n: nat)
    requires idx <= i <= m <= |segs| && forall j | idx <= j < i :: Bytes(segs[j]) == ""
    requires i < m ==> Bytes(segs[i]) != "" && Largest(EventsIn(Bytes(segs[i])), n)
    ensures SeedFrom(segs, m, idx) == if i == m || n == 0 then 1 else if n == TWO_POW_64 - 1 then 0 else n + 1
  {
    SeedSkips(segs, m, idx, i);
    if i < m {
      SeedHere(segs, m, i, n);
    }
  }

  lemma {:induction false} SeedSkips(segs: seq<Segment>, m: nat, idx: nat, i: nat)
    requires idx <= i <= m <= |segs| && forall j | idx <= j < i :: Bytes(segs[j]) == ""
    ensures SeedFrom(segs, m, idx) == SeedFrom(segs, m, i)
    decreases i - idx
  {
    if idx < i {
      SeedFromNext(segs, m, idx);
      SeedSkips(segs, m, idx + 1, i);
    }
  }

  lemma SeedHere(segs: seq<Segment>, m: nat, i: nat, n: nat)
    requires i < m <= |segs| && Bytes(segs[i]) != "" && Largest(EventsIn(Bytes(segs[i])), n)
    ensures SeedFrom(segs, m, i) == if n == 0 then 1 else if n == TWO_POW_64 - 1 then 0 else n + 1
  {
    LargestIsMax(EventsIn(Bytes(segs[i])), n);
    LargestInRange(EventsIn(Bytes(segs[i])), Bytes(segs[i]), n);
    if n > 0 {
      SeedFound(segs, m, i, n);
    }
  }

  lemma LargestIsMax(evs: seq<Event>, n: nat)
    requires Largest(evs, n)
    ensures MaxSeq(evs) == n
  {
    MaxIsLargest(0, evs);
  }

  lemma LargestInRange(evs: seq<Event>, text: string, n: nat)
    requires evs == EventsIn(text) && Largest(evs, n)
    ensures n < TWO_POW_64
  {
    EventsInBounds(text);
  }

  // ---------------------------------------------------------------- status

  /** The status counts the bytes that an export without conditions would write, and the files there are. */
  lemma StatusCounts(segs: seq<Segment>, n: nat)
    requires n <= |segs|
    ensures TotalBytes(segs, n) == |LogBytes(segs, n)|
    ensures Present(segs, n) == |Files(segs, n)|
  {
    BytesCounted(segs, n);
    FilesCounted(segs, n);
  }

  ghost function Files(segs: seq<Segment>, n: nat): set<nat>
    requires n <= |segs|
  {
    set i: nat | i < n && segs[i] != Absent
  }

  lemma {:induction false} BytesCounted(segs: seq<Segment>, n: nat)
    requires n <= |segs|
    ensures TotalBytes(segs, n) == |LogBytes(segs, n)|
  {
    if n > 0 {
      BytesCounted(segs, n - 1);
    }
  }

  lemma {:induction false} FilesCounted(segs: seq<Segment>, n: nat)
    requires n <= |segs|
    ensures Present(segs, n) == |Files(segs, n)|
  {
    if n > 0 {
      FilesCounted(segs, n - 1);
      assert Files(segs, n) == if segs[n - 1] != Absent then Files(segs, n - 1) + {n - 1} else Files(segs, n - 1);
    }
  }

  // ---------------------------------------------------------------- the format

  /** A line of the log: seven fields between bars. */
  lemma LineFields(e: Event)
    ensures LineOf(e) == Dec(e.seq_) + ("|" + (DecInt(e.ts) + ("|" + (Esc(e.subject) + ("|" + (Esc(e.action) + ("|" +
                         (Esc(e.target) + ("|" + (DecInt(e.result) + ("|" + Esc(e.detail)))))))))))) + "\n"
  {
    var fs := [Dec(e.seq_), DecInt(e.ts), Esc(e.subject), Esc(e.action), Esc(e.target), DecInt(e.result), Esc(e.detail)];
    BarsNext(fs);
    BarsNext(fs[1..]);
    BarsNext(fs[2..]);
    BarsNext(fs[3..]);
    BarsNext(fs[4..]);
    BarsNext(fs[5..]);
  }

  lemma BarsNext(fs: seq<string>)
    requires |fs| > 1
    ensures Bars(fs) == fs[0] + ("|" + Bars(fs[1..]))
  {
  }

  /** What is escaped, and how numbers are written. */
  lemma EscExample()
    ensures Esc("a\\|") == "a\\\\\\|" && Esc("\n\rb") == "\\n\\rb"
    ensures Dec(1709) == "1709" && DecInt(-13) == "-13"
  {
    EscNext('a', "\\|");
    EscNext('\\', "|");
    EscNext('|', "");
    EscNext('\n', "\rb");
    EscNext('\r', "b");
    EscNext('b', "");
  }

  lemma EscNext(c: char, rest: string)
    ensures Esc([c] + rest) == EscChar(c) + Esc(rest)
  {
    assert ([c] + rest)[1..] == rest;
  }
}
