/**
  Write-through persistence under concurrency.  An operation changes memory in
  one critical section and saves it in a second one; between the two, other
  threads run, and the process may die at any step
  (permission/src/permission_impl.c, ops_role_add ... ops_revoke,
  autosave_state, state_write_locked, ops_load, hw_permission_state_open).
  What memory holds, how it is changed and how it is written is a parameter.
 */
module WriteThrough {
  import opened CText

  /** The state kept in memory: its start, its operations, its text and what is read back; `ok` is what operations keep. */
  datatype Codec<!S, !Op> = Codec(
    start: S,
    apply: (S, Op) -> (S, int),
    text: S -> string,
    load: string -> S,
    ok: S -> bool)

  /** What a start makes of the text of a state; it must be stable from the first restart on. */
  ghost function Norm<S, Op>(c: Codec<S, Op>, s: S): S {
    c.load(c.text(s))
  }

  ghost predicate Sound<S(!new), Op(!new)>(c: Codec<S, Op>)
  {
    && c.ok(c.start) && Norm(c, c.start) == c.start
    && (forall s: S, op: Op {:trigger c.apply(s, op)} :: c.ok(s) ==> c.ok(c.apply(s, op).0))
    && (forall s: S {:trigger Norm(c, s)} :: c.ok(s) ==> c.ok(Norm(c, s)) && Norm(c, Norm(c, s)) == Norm(c, s))
  }

  /** NeedSave: changed memory, not saving yet.  Saving: holds the lock, `written` bytes reached the temporary file. */
  datatype Phase = Idle | NeedSave(version: nat) | Saving(version: nat, written: nat)

  /**
    Memory, files and threads, and the history that the properties speak of:
    everything memory ever held, which of it the file encodes, the last of it
    whose operation has returned after a successful save, and whether a save
    has failed since memory and file last agreed.
   */
  datatype World<S> = World(
    memory: S,
    file: Option<string>,
    tmp: Option<string>,
    threads: seq<Phase>,
    held: seq<S>,
    saved: nat,
    acked: nat,
    failed: bool)

  datatype Event<Op> =
    | Mutate(thread: nat, op: Op)       // the first critical section of an operation, if it succeeds
    | Begin(thread: nat)                // a save takes the lock and truncates the temporary file
    | Flush(thread: nat, upTo: nat)     // so many bytes have reached the temporary file
    | Rename(thread: nat)               // a complete temporary file replaces the state file; unlock
    | Fail(thread: nat)                 // opening, writing or renaming fails; unlock
    | Reload(thread: nat)               // an explicit load
    | Crash                             // the process dies and is started again

  ghost function Fresh<S, Op>(c: Codec<S, Op>, threads: nat): World<S> {
    World(c.start, None, None, seq(threads, _ => Idle), [c.start], 0, 0, false)
  }

  ghost predicate Unlocked(threads: seq<Phase>) {
    forall i | 0 <= i < |threads| :: !threads[i].Saving?
  }

  ghost predicate AllIdle(threads: seq<Phase>) {
    forall i | 0 <= i < |threads| :: threads[i].Idle?
  }

  /** What a start of the plugin finds. */
  ghost function Decoded<S, Op>(c: Codec<S, Op>, file: Option<string>): S {
    match file case None => c.start case Some(text) => c.load(text)
  }

  ghost predicate Enabled<S, Op>(c: Codec<S, Op>, w: World<S>, e: Event<Op>) {
    match e
    case Mutate(t, op) => t < |w.threads| && w.threads[t].Idle? && Unlocked(w.threads) && c.apply(w.memory, op).1 == 0
    case Begin(t) => t < |w.threads| && Unlocked(w.threads)
    case Flush(t, n) => t < |w.threads| && w.threads[t].Saving? && w.threads[t].written <= n <= |c.text(w.memory)|
    case Rename(t) => t < |w.threads| && w.threads[t].Saving? && w.threads[t].written == |c.text(w.memory)|
    case Fail(t) => t < |w.threads| && w.threads[t].Saving?
    case Reload(t) => t < |w.threads| && w.threads[t].Idle? && Unlocked(w.threads) && w.file.Some?
    case Crash => true
  }

  ghost function Remember<S>(w: World<S>, memory: S): World<S> {
    w.(memory := memory, held := w.held + [memory])
  }

  ghost function SetPhase<S>(w: World<S>, t: nat, p: Phase): World<S>
    requires t < |w.threads|
  {
    w.(threads := w.threads[t := p])
  }

  /** One step; an event that cannot happen now changes nothing. */
  ghost function Next<S, Op>(c: Codec<S, Op>, w: World<S>, e: Event<Op>): World<S> {
    if !Enabled(c, w, e) then w
    else
      match e
      case Mutate(t, op) => SetPhase(Remember(w, c.apply(w.memory, op).0), t, NeedSave(|w.held|))
      case Begin(t) =>
        var latest: int := |w.held| - 1;
        var version := if w.threads[t].NeedSave? then w.threads[t].version else if latest >= 0 then latest else 0;
        SetPhase(w.(tmp := Some("")), t, Saving(version, 0))
      case Flush(t, n) =>
        SetPhase(w.(tmp := Some(c.text(w.memory)[..n])), t, w.threads[t].(written := n))
      case Rename(t) =>
        var version := w.threads[t].version;
        SetPhase(w, t, Idle).(file := w.tmp, tmp := None, failed := false,
                              saved := if w.held == [] then 0 else |w.held| - 1,
                              acked := if version > w.acked then version else w.acked)
      case Fail(t) => SetPhase(w.(tmp := None, failed := true), t, Idle)
      case Reload(t) => Remember(w, Decoded(c, w.file))
      case Crash => Remember(w, Decoded(c, w.file)).(threads := seq(|w.threads|, _ => Idle), failed := false)
  }

  ghost function Execute<S, Op>(c: Codec<S, Op>, w: World<S>, events: seq<Event<Op>>): World<S>
    decreases |events|
  {
    if events == [] then w else Execute(c, Next(c, w, events[0]), events[1..])
  }

  // ---------------------------------------------------------------- one operation alone

  lemma ExecuteHead<S, Op>(c: Codec<S, Op>, w: World<S>, e: Event<Op>, rest: seq<Event<Op>>)
    ensures Execute(c, w, [e] + rest) == Execute(c, Next(c, w, e), rest)
  {
    assert ([e] + rest)[1..] == rest;
  }

  lemma ExecuteTwo<S, Op>(c: Codec<S, Op>, w: World<S>, e: Event<Op>, f: Event<Op>)
    ensures Execute(c, w, [e, f]) == Next(c, Next(c, w, e), f)
  {
    ExecuteHead(c, w, e, [f]);
    ExecuteHead(c, Next(c, w, e), f, []);
    assert [e] + [f] == [e, f] && [f] + [] == [f];
  }

  /**
    A successful operation that nobody disturbs changes memory, and in its second
    section the file: afterwards the file is the text of memory and the change is
    acknowledged.  If that save fails, memory keeps the change and the file is as
    it was.  An operation that is refused changes nothing.
   */
  lemma OperationSaves<S(!new), Op(!new)>(c: Codec<S, Op>, w: World<S>, t: nat, op: Op)
    requires t < |w.threads| && AllIdle(w.threads)
    ensures c.apply(w.memory, op).1 != 0 ==> Next(c, w, Mutate(t, op)) == w
    ensures c.apply(w.memory, op).1 == 0 ==>
      var after := c.apply(w.memory, op).0;
      var begun := Execute(c, w, [Mutate(t, op), Begin(t)]);
      var saved := Execute(c, begun, [Flush(t, |c.text(after)|), Rename(t)]);
      var lost := Next(c, begun, Fail(t));
      && saved.memory == after && saved.file == Some(c.text(after)) && saved.tmp == None && !saved.failed
      && saved.threads == w.threads && saved.held == w.held + [after] && saved.saved == |w.held|
      && saved.acked == (if |w.held| > w.acked then |w.held| else w.acked)
      && lost.memory == after && lost.file == w.file && lost.tmp == None && lost.failed
      && lost.threads == w.threads && lost.acked == w.acked
  {
    if c.apply(w.memory, op).1 == 0 {
      var after := c.apply(w.memory, op).0;
      var changed := Next(c, w, Mutate(t, op));
      MutateAlone(c, w, t, op);
      BeginAlone(c, changed, t, |w.held|);
      ExecuteTwo(c, w, Mutate(t, op), Begin(t));
      var begun := Execute(c, w, [Mutate(t, op), Begin(t)]);
      SaveAlone(c, begun, t, |w.held|);
      assert w.threads[t := NeedSave(|w.held|)][t := Saving(|w.held|, 0)][t := Idle] == w.threads;
    }
  }

  /** A reload puts into memory what the file holds, and the file stays; without a file it changes nothing. */
  lemma ReloadReads<S, Op>(c: Codec<S, Op>, w: World<S>, t: nat)
    requires t < |w.threads| && AllIdle(w.threads)
    ensures Next(c, w, Reload(t)) ==
            if w.file.None? then w else w.(memory := c.load(w.file.value), held := w.held + [c.load(w.file.value)])
  {
  }

  lemma MutateAlone<S, Op>(c: Codec<S, Op>, w: World<S>, t: nat, op: Op)
    requires t < |w.threads| && AllIdle(w.threads) && c.apply(w.memory, op).1 == 0
    ensures Next(c, w, Mutate(t, op)) ==
            w.(memory := c.apply(w.memory, op).0, held := w.held + [c.apply(w.memory, op).0],
               threads := w.threads[t := NeedSave(|w.held|)])
    ensures Unlocked(Next(c, w, Mutate(t, op)).threads)
  {
  }

  lemma BeginAlone<S, Op>(c: Codec<S, Op>, w: World<S>, t: nat, version: nat)
    requires t < |w.threads| && Unlocked(w.threads) && w.threads[t] == NeedSave(version)
    ensures Next(c, w, Begin(t)) == w.(tmp := Some(""), threads := w.threads[t := Saving(version, 0)])
  {
  }

  lemma SaveAlone<S, Op>(c: Codec<S, Op>, w: World<S>, t: nat, version: nat)
    requires t < |w.threads| && w.threads[t] == Saving(version, 0) && w.held != []
    ensures Execute(c, w, [Flush(t, |c.text(w.memory)|), Rename(t)]) ==
            w.(file := Some(c.text(w.memory)), tmp := None, failed := false, saved := |w.held| - 1,
               acked := if version > w.acked then version else w.acked, threads := w.threads[t := Idle])
    ensures Next(c, w, Fail(t)) == w.(tmp := None, failed := true, threads := w.threads[t := Idle])
  {
    var n := |c.text(w.memory)|;
    ExecuteTwo(c, w, Flush(t, n), Rename(t));
    assert c.text(w.memory)[..n] == c.text(w.memory);
    assert w.threads[t := Saving(version, n)][t := Idle] == w.threads[t := Idle];
  }

  // ---------------------------------------------------------------- invariant

  ghost predicate OneSaver(threads: seq<Phase>) {
    forall i, j | 0 <= i < |threads| && 0 <= j < |threads| && threads[i].Saving? && threads[j].Saving? :: i == j
  }

  /** What threads still have to save is something memory held. */
  ghost predicate VersionsHeld(threads: seq<Phase>, latest: int) {
    forall i | 0 <= i < |threads| && !threads[i].Idle? :: threads[i].version <= latest
  }

  /** The temporary file of the thread that is saving holds the start of memory's text. */
  ghost predicate TmpIs(text: string, tmp: Option<string>, threads: seq<Phase>) {
    forall i | 0 <= i < |threads| && threads[i].Saving? ::
      threads[i].written <= |text| && tmp == Some(text[..threads[i].written])
  }

  ghost predicate HeldOk<S, Op>(c: Codec<S, Op>, w: World<S>) {
    && w.held != [] && w.held[|w.held| - 1] == w.memory && w.held[0] == c.start
    && forall v | 0 <= v < |w.held| :: c.ok(w.held[v])
  }

  /** The file is the text of something memory held, no older than anything acknowledged. */
  ghost predicate FileOk<S, Op>(c: Codec<S, Op>, w: World<S>) {
    && w.acked <= w.saved < |w.held|
    && (w.file.None? ==> w.saved == 0)
    && (w.file.Some? ==> w.file.value == c.text(w.held[w.saved]))
  }

  /** Unless a save failed or is still to come, a restart finds what memory holds. */
  ghost predicate Caught<S, Op>(c: Codec<S, Op>, w: World<S>) {
    AllIdle(w.threads) && !w.failed ==> Decoded(c, w.file) == Norm(c, w.memory)
  }

  ghost predicate Inv<S, Op>(c: Codec<S, Op>, w: World<S>) {
    && HeldOk(c, w) && FileOk(c, w) && Caught(c, w)
    && OneSaver(w.threads) && VersionsHeld(w.threads, |w.held| - 1) && TmpIs(c.text(w.memory), w.tmp, w.threads)
  }

  lemma FreshInv<S(!new), Op(!new)>(c: Codec<S, Op>, threads: nat)
    requires Sound(c)
    ensures Inv(c, Fresh(c, threads))
  {
  }

  /** What a start finds in the file. */
  lemma DecodedFile<S(!new), Op(!new)>(c: Codec<S, Op>, w: World<S>)
    requires Sound(c) && HeldOk(c, w) && FileOk(c, w)
    ensures Decoded(c, w.file) == Norm(c, w.held[w.saved])
    ensures c.ok(Decoded(c, w.file)) && Norm(c, Decoded(c, w.file)) == Decoded(c, w.file)
  {
    assert c.ok(w.held[w.saved]);
    assert Norm(c, w.held[w.saved]) == c.load(c.text(w.held[w.saved]));
  }

  lemma RememberOk<S, Op>(c: Codec<S, Op>, w: World<S>, memory: S)
    requires HeldOk(c, w) && FileOk(c, w) && c.ok(memory)
    ensures HeldOk(c, Remember(w, memory)) && FileOk(c, Remember(w, memory))
  {
  }

  lemma MutateInv<S(!new), Op(!new)>(c: Codec<S, Op>, w: World<S>, t: nat, op: Op)
    requires Sound(c) && Inv(c, w) && Enabled(c, w, Mutate(t, op))
    ensures Inv(c, Next(c, w, Mutate(t, op)))
  {
    assert c.ok(w.held[|w.held| - 1]);
    RememberOk(c, w, c.apply(w.memory, op).0);
    assert !Next(c, w, Mutate(t, op)).threads[t].Idle?;
  }

  lemma BeginInv<S, Op>(c: Codec<S, Op>, w: World<S>, t: nat)
    requires Inv(c, w) && Enabled(c, w, Event<Op>.Begin(t))
    ensures Inv(c, Next(c, w, Begin(t)))
  {
    assert !Next(c, w, Begin(t)).threads[t].Idle?;
    assert c.text(w.memory)[..0] == "";
  }

  lemma FlushInv<S, Op>(c: Codec<S, Op>, w: World<S>, t: nat, n: nat)
    requires Inv(c, w) && Enabled(c, w, Event<Op>.Flush(t, n))
    ensures Inv(c, Next(c, w, Flush(t, n)))
  {
    assert !Next(c, w, Flush(t, n)).threads[t].Idle?;
  }

  lemma RenameInv<S, Op>(c: Codec<S, Op>, w: World<S>, t: nat)
    requires Inv(c, w) && Enabled(c, w, Event<Op>.Rename(t))
    ensures Inv(c, Next(c, w, Rename(t)))
  {
    assert c.text(w.memory)[..|c.text(w.memory)|] == c.text(w.memory);
  }

  lemma LoadInv<S(!new), Op(!new)>(c: Codec<S, Op>, w: World<S>, e: Event<Op>)
    requires Sound(c) && Inv(c, w) && Enabled(c, w, e) && (e.Reload? || e.Crash?)
    ensures Inv(c, Next(c, w, e))
  {
    DecodedFile(c, w);
    RememberOk(c, w, Decoded(c, w.file));
  }

  lemma NextInv<S(!new), Op(!new)>(c: Codec<S, Op>, w: World<S>, e: Event<Op>)
    requires Sound(c) && Inv(c, w)
    ensures Inv(c, Next(c, w, e))
  {
    if Enabled(c, w, e) {
      match e {
        case Mutate(t, op) => MutateInv(c, w, t, op);
        case Begin(t) => BeginInv(c, w, t);
        case Flush(t, n) => FlushInv(c, w, t, n);
        case Rename(t) => RenameInv(c, w, t);
        case Fail(t) =>
        case _ => LoadInv(c, w, e);
      }
    }
  }

  lemma {:induction false} ExecuteInv<S(!new), Op(!new)>(c: Codec<S, Op>, w: World<S>, events: seq<Event<Op>>)
    requires Sound(c) && Inv(c, w)
    ensures Inv(c, Execute(c, w, events))
    decreases |events|
  {
    if events != [] {
      NextInv(c, w, events[0]);
      ExecuteInv(c, Next(c, w, events[0]), events[1..]);
    }
  }

  lemma NextForward<S, Op>(c: Codec<S, Op>, w: World<S>, e: Event<Op>)
    requires Inv(c, w)
    ensures w.saved <= Next(c, w, e).saved && w.acked <= Next(c, w, e).acked && w.held <= Next(c, w, e).held
  {
  }

  /** The file never goes back to something older, whatever the interleaving. */
  lemma {:induction false} FileNeverGoesBack<S(!new), Op(!new)>(c: Codec<S, Op>, w: World<S>, events: seq<Event<Op>>)
    requires Sound(c) && Inv(c, w)
    ensures var r := Execute(c, w, events); w.saved <= r.saved && w.acked <= r.acked && w.held <= r.held
    decreases |events|
  {
    if events != [] {
      NextInv(c, w, events[0]);
      NextForward(c, w, events[0]);
      FileNeverGoesBack(c, Next(c, w, events[0]), events[1..]);
    }
  }

  lemma CrashFindsHeld<S(!new), Op(!new)>(c: Codec<S, Op>, threads: nat, events: seq<Event<Op>>)
    requires Sound(c)
    ensures var w := Execute(c, Fresh(c, threads), events);
      && w.acked <= w.saved < |w.held|
      && (w.file == None || w.file == Some(c.text(w.held[w.saved])))
      && Next(c, w, Crash).memory == Norm(c, w.held[w.saved])
  {
    FreshInv(c, threads);
    ExecuteInv(c, Fresh(c, threads), events);
    DecodedFile(c, Execute(c, Fresh(c, threads), events));
  }

  lemma QuietIsCurrent<S(!new), Op(!new)>(c: Codec<S, Op>, threads: nat, events: seq<Event<Op>>)
    requires Sound(c)
    ensures var w := Execute(c, Fresh(c, threads), events);
      AllIdle(w.threads) && !w.failed ==> c.ok(w.memory) && Next(c, w, Crash).memory == Norm(c, w.memory)
  {
    FreshInv(c, threads);
    ExecuteInv(c, Fresh(c, threads), events);
    var w := Execute(c, Fresh(c, threads), events);
    assert c.ok(w.held[|w.held| - 1]);
  }
}
