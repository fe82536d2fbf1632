/**
  Restarts of the storage registry within its runs: a restart loads the file and
  saves nothing, so further restarts find the same file again
  (storage/src/storage_impl.c, storage_impl_init, storage_load, storage_persist).
 */
module StorageRestarts {
  import opened CText
  import opened StorageText
  import opened StorageRoundTrip
  import opened StorageRegistry
  import opened StorageRuns

  function Restarts(n: nat): seq<Event> {
    if n == 0 then [] else [Restart] + Restarts(n - 1)
  }

  /** After the first restart, further ones change nothing. */
  lemma {:induction false} RestartsIdempotent(stateDir: string, w: World, n: nat)
    requires n > 0
    ensures Execute(stateDir, w, Restarts(n)) == Next(stateDir, w, Restart)
    decreases n
  {
    var w1 := Next(stateDir, w, Restart);
    assert Restarts(n)[0] == Restart && Restarts(n)[1..] == Restarts(n - 1);
    if n > 1 {
      RestartsIdempotent(stateDir, w1, n - 1);
    }
  }

  // ---------------------------------------------------------------- the file follows memory

  /** The event does not leave memory and file apart: no restart, and no removal whose saving fails. */
  predicate Saves(e: Event) {
    match e
    case Delete(_, _, _, rc) => rc == 0
    case Unregister(_, rc) => rc == 0
    case Drop(_, rc, _) => rc == 0
    case Restart => false
    case _ => true
  }

  ghost predicate InStep(w: World) {
    FileOf(w.state.file, w.state.lists)
  }

  lemma NextInStep(stateDir: string, w: World, e: Event)
    requires InStep(w) && Saves(e)
    ensures InStep(Next(stateDir, w, e))
  {
    match e {
      case Create(d, kind, mkdirRc, id, now, rc) => CreateIs(w.state, d, kind, mkdirRc, id, now, rc);
      case Delete(_, _, _, _) => RemoveIs(stateDir, w, e);
      case Unregister(_, _) => RemoveIs(stateDir, w, e);
      case CommitCopy(t, copyRc, id, now, rc) =>
        if t in w.pending {
          CommitIs(w.state, w.pending[t], copyRc, id, now, rc);
        }
      case Drop(key, rc, rmRc) => DropIs(w.state, key, rc, rmRc);
      case _ =>
    }
  }

  /** As long as no removal fails to be saved, the file holds what memory holds. */
  lemma {:induction false} RunInStep(stateDir: string, w: World, events: seq<Event>)
    requires InStep(w) && forall k | 0 <= k < |events| :: Saves(events[k])
    ensures InStep(Execute(stateDir, w, events))
    decreases |events|
  {
    if events != [] {
      NextInStep(stateDir, w, events[0]);
      RunInStep(stateDir, Next(stateDir, w, events[0]), events[1..]);
    }
  }

  // ---------------------------------------------------------------- order

  lemma VolumesBackAppend(a: seq<Volume>, b: seq<Volume>)
    ensures VolumesBack(a + b) == VolumesBack(a) + VolumesBack(b)
  {
    VolumesBackIsKept(a);
    VolumesBackIsKept(b);
    VolumesBackIsKept(a + b);
    KeptAppend(VolumeBack, CompleteVolume, a, b);
  }

  lemma SnapshotsBackAppend(a: seq<Snapshot>, b: seq<Snapshot>)
    ensures SnapshotsBack(a + b) == SnapshotsBack(a) + SnapshotsBack(b)
  {
    SnapshotsBackIsKept(a);
    SnapshotsBackIsKept(b);
    SnapshotsBackIsKept(a + b);
    KeptAppend(SnapshotBack, CompleteSnapshot, a, b);
  }

  lemma ReverseAfterOne<T>(first: seq<T>, s: seq<T>)
    requires |first| <= 1
    ensures Reverse(first + Reverse(s)) == s + first
  {
  }

  /** What is read back, and saved and read back again. */
  lemma BackAgain(x: Lists)
    requires ListsOk(x)
    ensures VolumesBack(Reverse(VolumesBack(x.volumes))) == Reverse(VolumesBack(x.volumes))
    ensures SnapshotsBack(Reverse(SnapshotsBack(x.snapshots))) == Reverse(SnapshotsBack(x.snapshots))
  {
    RestartedOk(x);
    VolumesBackIff(Restarted(x).volumes);
    SnapshotsBackIff(Restarted(x).snapshots);
  }

  lemma OneBack(v: Volume, s: Snapshot)
    ensures |VolumesBack([v])| <= 1 && |SnapshotsBack([s])| <= 1
  {
  }

  lemma CreatedRestarted(x: Lists, d: Def, id: string, now: nat)
    requires ListsOk(x)
    ensures Restarted(Created(Restarted(x), d, id, now)) ==
            Lists(VolumesBack(x.volumes) + VolumesBack([NewVolume(d, id, now)]), SnapshotsBack(x.snapshots))
  {
    var v := NewVolume(d, id, now);
    BackAgain(x);
    VolumesBackAppend([v], Reverse(VolumesBack(x.volumes)));
    OneBack(v, NO_SNAPSHOT);
    ReverseAfterOne(VolumesBack([v]), VolumesBack(x.volumes));
    ReverseTwice(SnapshotsBack(x.snapshots));
  }

  lemma CommittedRestarted(x: Lists, p: Pending, id: string, now: nat)
    requires ListsOk(x)
    ensures Restarted(Committed(Restarted(x), p, id, now)) ==
            Lists(VolumesBack(x.volumes), SnapshotsBack(x.snapshots) + SnapshotsBack([Snapshot(id, p.name, p.volume, p.path, now, 1)]))
  {
    var s := Snapshot(id, p.name, p.volume, p.path, now, 1);
    BackAgain(x);
    SnapshotsBackAppend([s], Reverse(SnapshotsBack(x.snapshots)));
    OneBack(NO_VOLUME, s);
    ReverseAfterOne(SnapshotsBack([s]), SnapshotsBack(x.snapshots));
    ReverseTwice(VolumesBack(x.volumes));
  }

  lemma WithoutIndex<T>(s: seq<T>, i: nat, k: nat)
    requires i < |s| && k < |s| - 1
    ensures |WithoutAt(s, i)| == |s| - 1 && WithoutAt(s, i)[k] == s[if k < i then k else k + 1]
  {
  }

  /** r is s turned round: so are the two without the same element. */
  lemma TurnedWithout<T>(s: seq<T>, r: seq<T>, i: nat)
    requires i < |s| == |r| && forall k | 0 <= k < |r| :: r[k] == s[|s| - 1 - k]
    ensures var a, b := WithoutAt(s, |s| - 1 - i), WithoutAt(r, i);
      |a| == |s| - 1 == |b| && forall k | 0 <= k < |a| :: a[k] == b[|b| - 1 - k]
  {
    var a, b := WithoutAt(s, |s| - 1 - i), WithoutAt(r, i);
    forall k | 0 <= k < |a|
      ensures a[k] == b[|b| - 1 - k]
    {
      WithoutIndex(s, |s| - 1 - i, k);
      WithoutIndex(r, i, |s| - 2 - k);
    }
  }

  lemma ReverseWithout<T>(s: seq<T>, i: nat)
    requires i < |s|
    ensures Reverse(WithoutAt(Reverse(s), i)) == WithoutAt(s, |s| - 1 - i)
  {
    TurnedWithout(s, Reverse(s), i);
    ReversePointwise(WithoutAt(s, |s| - 1 - i), WithoutAt(Reverse(s), i));
  }

  lemma WithoutMembers<T>(s: seq<T>, i: nat)
    requires i < |s|
    ensures forall k | 0 <= k < |WithoutAt(s, i)| :: WithoutAt(s, i)[k] in s
  {
  }

  lemma TidyRemoved(volumes: seq<Volume>, i: nat)
    requires i < |volumes| && TidyVolumes(volumes) && forall k | 0 <= k < |volumes| :: VolumeOk(volumes[k])
    ensures VolumesBack(WithoutAt(volumes, i)) == WithoutAt(volumes, i)
  {
    WithoutMembers(volumes, i);
    VolumesBackIff(WithoutAt(volumes, i));
  }

  lemma TidyDropped(snapshots: seq<Snapshot>, i: nat)
    requires i < |snapshots| && TidySnapshots(snapshots) && forall k | 0 <= k < |snapshots| :: SnapshotOk(snapshots[k])
    ensures SnapshotsBack(WithoutAt(snapshots, i)) == WithoutAt(snapshots, i)
  {
    WithoutMembers(snapshots, i);
    SnapshotsBackIff(WithoutAt(snapshots, i));
  }

  lemma RemovedRestarted(x: Lists, i: nat) returns (k: nat)
    requires ListsOk(x) && i < |Restarted(x).volumes|
    ensures k < |VolumesBack(x.volumes)| && VolumesBack(x.volumes)[k] == Restarted(x).volumes[i]
    ensures Restarted(Removed(Restarted(x), i)) == Lists(WithoutAt(VolumesBack(x.volumes), k), SnapshotsBack(x.snapshots))
  {
    k := |VolumesBack(x.volumes)| - 1 - i;
    RestartedOk(x);
    TidyRemoved(Restarted(x).volumes, i);
    BackAgain(x);
    ReverseWithout(VolumesBack(x.volumes), i);
    ReverseTwice(SnapshotsBack(x.snapshots));
  }

  lemma DroppedRestarted(x: Lists, i: nat) returns (k: nat)
    requires ListsOk(x) && i < |Restarted(x).snapshots|
    ensures k < |SnapshotsBack(x.snapshots)| && SnapshotsBack(x.snapshots)[k] == Restarted(x).snapshots[i]
    ensures Restarted(Dropped(Restarted(x), i)) == Lists(VolumesBack(x.volumes), WithoutAt(SnapshotsBack(x.snapshots), k))
  {
    k := |SnapshotsBack(x.snapshots)| - 1 - i;
    RestartedOk(x);
    TidyDropped(Restarted(x).snapshots, i);
    BackAgain(x);
    ReverseWithout(SnapshotsBack(x.snapshots), i);
    ReverseTwice(VolumesBack(x.volumes));
  }

  /** The lists that a restart, one event and another restart leave. */
  ghost function After(stateDir: string, w: World, e: Event): Lists {
    Next(stateDir, Next(stateDir, Next(stateDir, w, Restart), e), Restart).state.lists
  }

  /** A restart of a world whose file is in step. */
  lemma RestartIs(stateDir: string, w: World)
    requires ListsOk(w.state.lists) && InStep(w)
    ensures Next(stateDir, w, Restart) == World(State(Restarted(w.state.lists), w.state.file), map[])
  {
    RestartOpens(stateDir, w);
    OpenedIs(w.state.file, w.state.lists);
  }

  lemma SavedRestart(stateDir: string, w: World, y: Lists)
    requires w.state.lists == y && w.state.file == Some(StateText(y)) && ListsOk(y)
    ensures Next(stateDir, w, Restart).state.lists == Restarted(y)
  {
    RestartOpens(stateDir, w);
    LoadPersisted(y);
  }

  /** An event that saves new lists, and a restart. */
  lemma SavedThenRestart(stateDir: string, w: World, e: Event, y: Lists)
    requires Next(stateDir, w, e).state == Saved(w.state, y, 0) && ListsOk(y)
    ensures Next(stateDir, Next(stateDir, w, e), Restart).state.lists == Restarted(y)
  {
    SavedRestart(stateDir, Next(stateDir, w, e), y);
  }

  /** The code an event of the run returns, 0 when it has changed and saved the lists. */
  function Code(w: World, e: Event): int {
    match e
    case Create(d, kind, mkdirRc, id, now, rc) => CreateSpec(w.state, d, kind, mkdirRc, id, now, rc).1
    case Delete(key, kind, rmRc, rc) => DeleteSpec(w.state, key, kind, rmRc, rc).1
    case Unregister(key, rc) => UnregisterSpec(w.state, key, rc).1
    case CommitCopy(t, copyRc, id, now, rc) => if t in w.pending then CommitSpec(w.state, w.pending[t], copyRc, id, now, rc).1 else EINVAL
    case Drop(key, rc, rmRc) => DropSpec(w.state, key, rc, rmRc).1
    case _ => 0
  }

  lemma CreateSaves(stateDir: string, w: World, e: Event)
    requires e.Create? && Code(w, e) == 0
    ensures CreateCheck(w.state.lists.volumes, e.d, e.kind, e.mkdirRc) == 0
    ensures Next(stateDir, w, e).state == Saved(w.state, Created(w.state.lists, e.d, e.id, e.now), 0)
  {
  }

  lemma RemoveSaves(stateDir: string, w: World, e: Event) returns (i: nat)
    requires (e.Delete? || e.Unregister?) && Code(w, e) == 0
    ensures i < |w.state.lists.volumes| && Answers(w.state.lists.volumes[i], e.key)
    ensures Next(stateDir, w, e).state == Saved(w.state, Removed(w.state.lists, i), 0)
  {
    i := FindVolume(w.state.lists.volumes, e.key);
  }

  lemma DropSaves(stateDir: string, w: World, e: Event) returns (i: nat)
    requires e.Drop? && Code(w, e) == 0
    ensures i < |w.state.lists.snapshots|
    ensures w.state.lists.snapshots[i].id == e.key || w.state.lists.snapshots[i].name == e.key
    ensures Next(stateDir, w, e).state == Saved(w.state, Dropped(w.state.lists, i), 0)
  {
    i := FindSnapshot(w.state.lists.snapshots, e.key);
  }

  lemma CommitSaves(stateDir: string, w: World, e: Event)
    requires e.CommitCopy? && Code(w, e) == 0
    ensures e.thread in w.pending && !HasSnapshot(w.state.lists.snapshots, w.pending[e.thread].volume, w.pending[e.thread].name)
    ensures Next(stateDir, w, e).state == Saved(w.state, Committed(w.state.lists, w.pending[e.thread], e.id, e.now), 0)
  {
  }

  /** What a restart of a sane world in step leaves is sane, and the older records are all in it, turned round. */
  lemma RestartedWorld(stateDir: string, w: World) returns (w1: World)
    requires Inv(Sane, w) && InStep(w)
    ensures w1 == Next(stateDir, w, Restart) && Inv(Sane, w1) && ListsOk(w.state.lists)
    ensures w1.state.lists == Restarted(w.state.lists) && w1.pending == map[]
  {
    RestartIs(stateDir, w);
    RestartKeeps(Sane, stateDir, w);
    w1 := Next(stateDir, w, Restart);
  }

  /**
    A creation that succeeds after a restart saves the turned lists, so the
    next restart puts the older records back in their order, the new one at the
    end.
   */
  lemma CreationTurnsBack(stateDir: string, w: World, e: Event)
    requires Inv(Sane, w) && InStep(w) && e.Create?
    requires Allowed(Next(stateDir, w, Restart), e) && Code(Next(stateDir, w, Restart), e) == 0
    ensures After(stateDir, w, e) ==
            Lists(VolumesBack(w.state.lists.volumes) + VolumesBack([NewVolume(e.d, e.id, e.now)]),
                  SnapshotsBack(w.state.lists.snapshots))
  {
    var w1 := RestartedWorld(stateDir, w);
    CreateSaves(stateDir, w1, e);
    CreatedKeeps(Sane, w1, e);
    SavedThenRestart(stateDir, w1, e, Created(w1.state.lists, e.d, e.id, e.now));
    CreatedRestarted(w.state.lists, e.d, e.id, e.now);
  }

  /** The same for removing a volume: the records that stay are back in their order. */
  lemma RemovalTurnsBack(stateDir: string, w: World, e: Event) returns (k: nat)
    requires Inv(Sane, w) && InStep(w) && (e.Delete? || e.Unregister?)
    requires Code(Next(stateDir, w, Restart), e) == 0
    ensures var b := VolumesBack(w.state.lists.volumes);
      && k < |b| && Answers(b[k], e.key)
      && After(stateDir, w, e) == Lists(WithoutAt(b, k), SnapshotsBack(w.state.lists.snapshots))
  {
    var w1 := RestartedWorld(stateDir, w);
    var i := RemoveSaves(stateDir, w1, e);
    RemovedSane(w1.state.lists, i);
    SavedThenRestart(stateDir, w1, e, Removed(w1.state.lists, i));
    k := RemovedRestarted(w.state.lists, i);
  }

  lemma RemovedSane(x: Lists, i: nat)
    requires Keeps(Sane, x) && i < |x.volumes|
    ensures ListsOk(Removed(x, i))
  {
    VolumeRemoved(Sane, x, i);
  }

  /** And for dropping a snapshot. */
  lemma DropTurnsBack(stateDir: string, w: World, e: Event) returns (k: nat)
    requires Inv(Sane, w) && InStep(w) && e.Drop?
    requires Code(Next(stateDir, w, Restart), e) == 0
    ensures var c := SnapshotsBack(w.state.lists.snapshots);
      && k < |c| && (c[k].id == e.key || c[k].name == e.key)
      && After(stateDir, w, e) == Lists(VolumesBack(w.state.lists.volumes), WithoutAt(c, k))
  {
    var w1 := RestartedWorld(stateDir, w);
    var i := DropSaves(stateDir, w1, e);
    SnapshotRemoved(Sane, w1.state.lists, i);
    SavedThenRestart(stateDir, w1, e, Dropped(w1.state.lists, i));
    k := DroppedRestarted(w.state.lists, i);
  }

  /** And for taking one, which has to begin after the restart. */
  lemma SnapshotTurnsBack(stateDir: string, w: World, begin: Event, e: Event)
    requires DirOk(stateDir) && Inv(Sane, w) && InStep(w) && begin.Begin? && e.CommitCopy?
    requires var begun := Next(stateDir, Next(stateDir, w, Restart), begin); Allowed(begun, e) && Code(begun, e) == 0
    ensures var begun := Next(stateDir, Next(stateDir, w, Restart), begin);
      && e.thread in begun.pending
      && var p := begun.pending[e.thread];
         Next(stateDir, Next(stateDir, begun, e), Restart).state.lists ==
         Lists(VolumesBack(w.state.lists.volumes),
               SnapshotsBack(w.state.lists.snapshots) + SnapshotsBack([Snapshot(e.id, p.name, p.volume, p.path, e.now, 1)]))
  {
    var w1 := RestartedWorld(stateDir, w);
    BeginKeeps(Sane, stateDir, w1, begin);
    var begun := Next(stateDir, w1, begin);
    BeginLists(stateDir, w1, begin);
    CommitSaves(stateDir, begun, e);
    var p := begun.pending[e.thread];
    CommittedKeeps(Sane, begun.state, p, e.id, e.now);
    SavedThenRestart(stateDir, begun, e, Committed(begun.state.lists, p, e.id, e.now));
    CommittedRestarted(w.state.lists, p, e.id, e.now);
  }

  lemma BeginLists(stateDir: string, w: World, e: Event)
    requires e.Begin?
    ensures Next(stateDir, w, e).state == w.state
  {
  }

  // ---------------------------------------------------------------- lookups

  ghost predicate SameLookups(a: seq<Volume>, b: seq<Volume>) {
    forall key :: Lookup(a, key) == Lookup(b, key)
  }

  /** Where a complete record is after it was read back. */
  ghost function Position<T>(back: T -> T, complete: T -> bool, s: seq<T>, i: nat): nat
    requires i <= |s|
  {
    |Kept(back, complete, s[..i])|
  }

  lemma KeptAt<T>(back: T -> T, complete: T -> bool, s: seq<T>, i: nat)
    requires i < |s| && complete(back(s[i]))
    ensures Position(back, complete, s, i) < |Kept(back, complete, s)|
    ensures Kept(back, complete, s)[Position(back, complete, s, i)] == back(s[i])
  {
    assert s == s[..i] + s[i..] && s[i..][0] == s[i];
    KeptAppend(back, complete, s[..i], s[i..]);
  }

  /** Reading back keeps the order. */
  lemma KeptOrder<T>(back: T -> T, complete: T -> bool, s: seq<T>, i: nat, j: nat)
    requires i < j <= |s| && complete(back(s[i]))
    ensures Position(back, complete, s, i) < Position(back, complete, s, j)
  {
    assert s[..j] == s[..i] + s[i..j] && s[i..j][0] == s[i];
    KeptAppend(back, complete, s[..i], s[i..j]);
  }

  lemma {:induction false} KeptFrom<T>(back: T -> T, complete: T -> bool, s: seq<T>, p: nat) returns (i: nat)
    requires p < |Kept(back, complete, s)|
    ensures i < |s| && complete(back(s[i])) && Kept(back, complete, s)[p] == back(s[i])
  {
    if complete(back(s[0])) && p == 0 {
      i := 0;
    } else {
      i := KeptFrom(back, complete, s[1..], if complete(back(s[0])) then p - 1 else p);
      i := i + 1;
    }
  }

  ghost predicate SaneVolumes(volumes: seq<Volume>) {
    Pairwise(IdsApart, volumes) && forall i | 0 <= i < |volumes| :: VolumeOk(volumes[i])
  }

  /** A volume as it is read back does not answer to blanks. */
  lemma NoBlankKey(v: Volume, key: string)
    requires VolumeOk(v) && VolumeBack(v) == v && TrimEnd(key) == ""
    ensures !Answers(v, key)
  {
  }

  lemma NobodyAnswers(volumes: seq<Volume>, key: string)
    requires forall k | 0 <= k < |volumes| :: !Answers(volumes[k], key)
    ensures Lookup(volumes, key) == None
  {
  }

  lemma EarlierAnswer(volumes: seq<Volume>, i: nat, key: string)
    requires i < |volumes| && Answers(volumes[i], key)
    ensures FindVolume(volumes, key) <= i && Lookup(volumes, key).Some?
  {
  }

  lemma LaterAnswer(volumes: seq<Volume>, i: nat, key: string)
    requires i < |volumes| && Answers(volumes[i], key)
    ensures FindVolume(Reverse(volumes), key) <= |volumes| - 1 - i
  {
    EarlierAnswer(Reverse(volumes), |volumes| - 1 - i, key);
  }

  /** After a restart nothing answers to blanks. */
  lemma BlanksUnanswered(volumes: seq<Volume>, key: string)
    requires (forall i | 0 <= i < |volumes| :: VolumeOk(volumes[i])) && TrimEnd(key) == ""
    ensures Lookup(Reverse(VolumesBack(volumes)), key) == None
  {
    VolumesBackOk(volumes);
    var b := VolumesBack(volumes);
    forall k | 0 <= k < |b|
      ensures !Answers(Reverse(b)[k], key)
    {
      NoBlankKey(b[|b| - 1 - k], key);
    }
    NobodyAnswers(Reverse(b), key);
  }

  lemma IncompleteIsBlank(v: Volume)
    requires VolumeOk(v) && !CompleteVolume(VolumeBack(v))
    ensures TrimEnd(v.name) == ""
  {
    TrimEndAfter("/", v.path[1..]);
    assert "/" + v.path[1..] == v.path;
  }

  /** A volume whose name is all blanks answers to that name before a restart, and nothing does after it. */
  lemma BlankNameLost(volumes: seq<Volume>, i: nat)
    requires SaneVolumes(volumes) && i < |volumes| && !CompleteVolume(VolumeBack(volumes[i]))
    ensures Lookup(Reverse(VolumesBack(volumes)), volumes[i].name) == None != Lookup(volumes, volumes[i].name)
  {
    IncompleteIsBlank(volumes[i]);
    BlanksUnanswered(volumes, volumes[i].name);
    EarlierAnswer(volumes, i, volumes[i].name);
  }

  lemma IdsOnce(volumes: seq<Volume>, i: nat, j: nat)
    requires Pairwise(IdsApart, volumes) && i < |volumes| && j < |volumes| && volumes[i].id == volumes[j].id
    ensures i == j
  {
  }

  /** When lookups stay as they are, what a key leads to is read back as it is, at p, and nothing behind it answers. */
  lemma AnswerAfter(volumes: seq<Volume>, key: string, i: nat) returns (f: nat, p: nat)
    requires SaneVolumes(volumes) && SameLookups(Reverse(VolumesBack(volumes)), volumes)
    requires i < |volumes| && Answers(volumes[i], key)
    ensures f <= i && VolumeBack(volumes[f]) == volumes[f] && CompleteVolume(volumes[f])
    ensures p == Position(VolumeBack, CompleteVolume, volumes, f) < |VolumesBack(volumes)|
    ensures FindVolume(Reverse(VolumesBack(volumes)), key) == |VolumesBack(volumes)| - 1 - p
  {
    EarlierAnswer(volumes, i, key);
    f := FindVolume(volumes, key);
    assert Lookup(Reverse(VolumesBack(volumes)), key) == Lookup(volumes, key) == Some(volumes[f]);
    p := AnswerReversed(VolumesBack(volumes), key, volumes[f]);
    BackOnce(volumes, p, f);
  }

  lemma AnswerReversed(b: seq<Volume>, key: string, v: Volume) returns (p: nat)
    requires Lookup(Reverse(b), key) == Some(v)
    ensures p < |b| && b[p] == v && FindVolume(Reverse(b), key) == |b| - 1 - p
  {
    p := |b| - 1 - FindVolume(Reverse(b), key);
  }

  /** A volume that is read back as it is, is read back at its own place. */
  lemma BackOnce(volumes: seq<Volume>, p: nat, f: nat)
    requires SaneVolumes(volumes) && p < |VolumesBack(volumes)| && f < |volumes| && VolumesBack(volumes)[p] == volumes[f]
    ensures VolumeBack(volumes[f]) == volumes[f] && CompleteVolume(volumes[f])
    ensures p == Position(VolumeBack, CompleteVolume, volumes, f)
  {
    VolumesBackIsKept(volumes);
    var j := KeptFrom(VolumeBack, CompleteVolume, volumes, p);
    assert VolumeOk(volumes[j]);
    IdsOnce(volumes, j, f);
    KeptAt(VolumeBack, CompleteVolume, volumes, f);
    BackIds(volumes);
    IdsOnce(VolumesBack(volumes), p, Position(VolumeBack, CompleteVolume, volumes, f));
  }

  /** A complete record is read back behind those before it, under its own id. */
  lemma BackBehind(volumes: seq<Volume>, f: nat, i: nat) returns (q: nat)
    requires f < i < |volumes| && CompleteVolume(VolumeBack(volumes[f])) && CompleteVolume(VolumeBack(volumes[i]))
    ensures Position(VolumeBack, CompleteVolume, volumes, f) < q < |VolumesBack(volumes)|
    ensures VolumesBack(volumes)[q] == VolumeBack(volumes[i])
  {
    VolumesBackIsKept(volumes);
    KeptAt(VolumeBack, CompleteVolume, volumes, i);
    KeptOrder(VolumeBack, CompleteVolume, volumes, f, i);
    q := Position(VolumeBack, CompleteVolume, volumes, i);
  }

  /** When lookups stay as they are, the id of a volume leads to that volume, and it is read back as it is. */
  lemma IdLeadsToIt(volumes: seq<Volume>, i: nat)
    requires SaneVolumes(volumes) && i < |volumes| && CompleteVolume(VolumeBack(volumes[i]))
    requires SameLookups(Reverse(VolumesBack(volumes)), volumes)
    ensures VolumeBack(volumes[i]) == volumes[i]
  {
    var key := volumes[i].id;
    assert VolumeOk(volumes[i]) && VolumeBack(volumes[i]).id == key;
    var f, p := AnswerAfter(volumes, key, i);
    if f < i {
      var q := BackBehind(volumes, f, i);
      LaterAnswer(VolumesBack(volumes), q, key);
    }
  }

  lemma SameImpliesTidy(volumes: seq<Volume>)
    requires SaneVolumes(volumes) && SameLookups(Reverse(VolumesBack(volumes)), volumes)
    ensures TidyVolumes(volumes)
  {
    forall i | 0 <= i < |volumes|
      ensures VolumeBack(volumes[i]) == volumes[i]
    {
      if !CompleteVolume(VolumeBack(volumes[i])) {
        BlankNameLost(volumes, i);
        assert false;
      }
      IdLeadsToIt(volumes, i);
    }
  }

  lemma SameImpliesKeysApart(volumes: seq<Volume>)
    requires SaneVolumes(volumes) && SameLookups(Reverse(volumes), volumes)
    ensures Pairwise(KeysApart, volumes)
  {
    forall i, j | 0 <= i < j < |volumes|
      ensures KeysApart(volumes[i], volumes[j])
    {
      OneAnswer(volumes, i, j, volumes[i].id);
      OneAnswer(volumes, i, j, volumes[i].name);
    }
  }

  /** When lookups stay as they are, the first volume to answer is also the last. */
  lemma FirstIsLast(volumes: seq<Volume>, key: string, i: nat)
    requires SaneVolumes(volumes) && SameLookups(Reverse(volumes), volumes)
    requires i < |volumes| && Answers(volumes[i], key)
    ensures FindVolume(Reverse(volumes), key) == |volumes| - 1 - FindVolume(volumes, key)
  {
    var r := Reverse(volumes);
    EarlierAnswer(volumes, i, key);
    LaterAnswer(volumes, i, key);
    var f, g := FindVolume(volumes, key), FindVolume(r, key);
    assert Lookup(r, key) == Lookup(volumes, key);
    assert r[g] == volumes[|r| - 1 - g] == volumes[f];
    IdsOnce(volumes, |r| - 1 - g, f);
  }

  lemma OneAnswer(volumes: seq<Volume>, i: nat, j: nat, key: string)
    requires SaneVolumes(volumes) && SameLookups(Reverse(volumes), volumes)
    requires i < j < |volumes| && Answers(volumes[i], key)
    ensures !Answers(volumes[j], key)
  {
    FirstIsLast(volumes, key, i);
    EarlierAnswer(volumes, i, key);
    if Answers(volumes[j], key) {
      LaterAnswer(volumes, j, key);
    }
  }

  /** One restart of sane volumes leaves every lookup as it was exactly when nothing ends in a blank and no key leads to two. */
  lemma SameLookupsIff(volumes: seq<Volume>)
    requires SaneVolumes(volumes)
    ensures SameLookups(Reverse(VolumesBack(volumes)), volumes) <==> TidyVolumes(volumes) && Pairwise(KeysApart, volumes)
  {
    VolumesBackIff(volumes);
    if SameLookups(Reverse(VolumesBack(volumes)), volumes) {
      SameImpliesTidy(volumes);
      SameImpliesKeysApart(volumes);
    }
    if TidyVolumes(volumes) && Pairwise(KeysApart, volumes) {
      forall key
        ensures Lookup(Reverse(volumes), key) == Lookup(volumes, key)
      {
        LookupReversed(volumes, key);
      }
    }
  }

  /**
    In every reachable world whose file is in step, any number of restarts in a
    row leaves what every name and id leads to as it was, if and only if no
    volume's field ends in a blank and no key leads to two volumes.
   */
  lemma LookupSurvivesIff(stateDir: string, events: seq<Event>, n: nat)
    requires DirOk(stateDir) && AllAllowed(stateDir, EMPTY, events) && n > 0
    requires InStep(Execute(stateDir, EMPTY, events))
    ensures var w := Execute(stateDir, EMPTY, events); var volumes := w.state.lists.volumes;
      SameLookups(Execute(stateDir, w, Restarts(n)).state.lists.volumes, volumes) <==>
      TidyVolumes(volumes) && Pairwise(KeysApart, volumes)
  {
    var w := Execute(stateDir, EMPTY, events);
    EmptyInv(Sane);
    ExecuteKeeps(Sane, stateDir, EMPTY, events);
    RestartsIdempotent(stateDir, w, n);
    RestartIs(stateDir, w);
    SameLookupsIff(w.state.lists.volumes);
  }

  /** Without restarts and failing saves before, what a name or id leads to survives when nothing registered ends in a blank. */
  lemma LookupSurvives(stateDir: string, events: seq<Event>, n: nat, key: string)
    requires DirOk(stateDir) && AllAllowed(stateDir, EMPTY, events) && n > 0
    requires forall k | 0 <= k < |events| :: Saves(events[k]) && TidyEvent(events[k])
    ensures var w := Execute(stateDir, EMPTY, events);
      Lookup(Execute(stateDir, w, Restarts(n)).state.lists.volumes, key) == Lookup(w.state.lists.volumes, key)
  {
    var w := Execute(stateDir, EMPTY, events);
    RunInStep(stateDir, EMPTY, events);
    EmptyInv(AllTidy);
    ExecuteKeeps(AllTidy, stateDir, EMPTY, events);
    TidyLookups(w.state.lists);
    LookupSurvivesIff(stateDir, events, n);
    assert SameLookups(Execute(stateDir, w, Restarts(n)).state.lists.volumes, w.state.lists.volumes);
  }

  lemma TidyLookups(x: Lists)
    requires Keeps(AllTidy, x)
    ensures TidyVolumes(x.volumes) && Pairwise(KeysApart, x.volumes)
  {
    forall i, j | 0 <= i < j < |x.volumes|
      ensures KeysApart(x.volumes[i], x.volumes[j])
    {
      assert Apart(x.volumes[i], x.volumes[j]);
    }
  }

  // ---------------------------------------------------------------- trailing blanks

  lemma VolumesDistinctIff(x: Lists)
    ensures Pairwise(Apart, Restarted(x).volumes) <==> ApartBack(Apart, VolumeBack, CompleteVolume, x.volumes)
  {
    VolumesBackIsKept(x.volumes);
    KeptPairwise(Apart, VolumeBack, CompleteVolume, x.volumes);
    ReversedPairwise(Apart, VolumesBack(x.volumes));
  }

  lemma SnapshotsDistinctIff(x: Lists)
    ensures Pairwise(ApartSnapshots, Restarted(x).snapshots) <==>
            ApartBack(ApartSnapshots, SnapshotBack, CompleteSnapshot, x.snapshots)
  {
    SnapshotsBackIsKept(x.snapshots);
    KeptPairwise(ApartSnapshots, SnapshotBack, CompleteSnapshot, x.snapshots);
    ReversedPairwise(ApartSnapshots, SnapshotsBack(x.snapshots));
  }

  /** Cutting off trailing blanks can make records clash: a restart keeps volumes and snapshots distinct exactly when it does not. */
  lemma RestartDistinctIff(stateDir: string, w: World)
    requires Inv(Sane, w) && InStep(w)
    ensures Distinct(Next(stateDir, w, Restart).state.lists) <==>
            ApartBack(Apart, VolumeBack, CompleteVolume, w.state.lists.volumes) &&
            ApartBack(ApartSnapshots, SnapshotBack, CompleteSnapshot, w.state.lists.snapshots)
  {
    RestartIs(stateDir, w);
    VolumesDistinctIff(w.state.lists);
    SnapshotsDistinctIff(w.state.lists);
  }

  lemma BlankCut(s: string)
    requires s != "" && !IsEdge(s[|s| - 1])
    ensures TrimEnd(s + " ") == s && TrimEnd(s) == s
  {
    assert (s + " ")[..|s|] == s;
  }

  /** Creations of two volumes, one called like the other with a blank behind it. */
  function FirstOfTwo(name: string): Event {
    Create(Def(name, "/x", "", 0, false), Directory, 0, "1", 0, 0)
  }

  function SecondOfTwo(name: string): Event {
    Create(Def(name + " ", "/y", "", 0, false), Directory, 0, "2", 0, 0)
  }

  lemma LabelsAccepted(name: string)
    requires LabelOk(name) && |name| < NAME_MAX - 1 && name[0] > '9'
    ensures LabelOk(name + " ") && ValidPath("/x") == 0 && ValidPath("/y") == 0
    ensures name != name + " " && name != "1" && name + " " != "1"
  {
    assert forall i | 0 <= i < |name| :: LabelChar(name[i]);
    assert (name + " ")[0] == name[0] && "1"[0] == '1';
    assert |name + " "| == |name| + 1;
  }

  function First(name: string): Volume {
    Volume("1", name, "/x", "", 0, 0, 0)
  }

  function Second(name: string): Volume {
    Volume("2", name + " ", "/y", "", 0, 0, 0)
  }

  lemma FirstCreated(stateDir: string, name: string)
    requires LabelOk(name) && ValidPath("/x") == 0
    ensures Next(stateDir, EMPTY, FirstOfTwo(name)).state == Saved(EMPTY.state, Lists([First(name)], []), 0)
  {
    assert NewVolume(Def(name, "/x", "", 0, false), "1", 0) == First(name);
    assert [First(name)] + [] == [First(name)];
  }

  lemma SecondCreated(stateDir: string, w: World, name: string)
    requires LabelOk(name + " ") && ValidPath("/y") == 0 && name != name + " " && name + " " != "1"
    requires w.state.lists == Lists([First(name)], [])
    ensures Next(stateDir, w, SecondOfTwo(name)).state ==
            Saved(w.state, Lists([Second(name), First(name)], []), 0)
  {
    var volumes := w.state.lists.volumes;
    assert FindVolume(volumes, name + " ") == 1 by {
      assert volumes[1..] == [];
    }
    assert "/x"[1] != "/y"[1];
    assert NewVolume(Def(name + " ", "/y", "", 0, false), "2", 0) == Second(name);
    assert [Second(name)] + [First(name)] == [Second(name), First(name)];
  }

  lemma BothLoaded(name: string)
    requires LabelOk(name) && !IsEdge(name[|name| - 1]) && |name| < NAME_MAX - 1
    ensures var x := Lists([Second(name), First(name)], []);
      ListsOk(x) && Restarted(x).volumes == [First(name), VolumeBack(Second(name))] && VolumeBack(Second(name)).name == name
  {
    LabelClean(name);
    PairBack(name);
    PairLoaded(Second(name), First(name));
  }

  lemma PairBack(name: string)
    requires LabelOk(name) && !IsEdge(name[|name| - 1])
    ensures VolumeBack(First(name)) == First(name) && CompleteVolume(First(name))
    ensures VolumeBack(Second(name)).name == name && CompleteVolume(VolumeBack(Second(name)))
  {
    BlankCut(name);
  }

  lemma PairLoaded(v: Volume, u: Volume)
    requires VolumeBack(u) == u && CompleteVolume(u) && CompleteVolume(VolumeBack(v))
    ensures Reverse(VolumesBack([v, u])) == [u, VolumeBack(v)]
  {
    VolumesBackAppend([v], [u]);
    assert [v] + [u] == [v, u] && [v][1..] == [] && [u][1..] == [];
    assert VolumesBack([v]) == [VolumeBack(v)] && VolumesBack([u]) == [u];
  }

  /**
    Two volumes whose names differ by a trailing blank are both created, and the
    next restart gives them one name.
   */
  lemma TrailingBlankClashes(stateDir: string, name: string)
    requires LabelOk(name) && !IsEdge(name[|name| - 1]) && |name| < NAME_MAX - 1 && name[0] > '9'
    ensures var w1 := Next(stateDir, EMPTY, FirstOfTwo(name)); var w2 := Next(stateDir, w1, SecondOfTwo(name));
      && w1.state.lists.volumes == [First(name)]
      && w2.state.lists.volumes == [Second(name), First(name)] && Second(name).name != First(name).name
      && var after := Next(stateDir, w2, Restart).state.lists.volumes;
         |after| == 2 && after[0].name == after[1].name == name
  {
    LabelsAccepted(name);
    var w1 := Next(stateDir, EMPTY, FirstOfTwo(name));
    FirstCreated(stateDir, name);
    SecondCreated(stateDir, w1, name);
    BothLoaded(name);
    SavedRestart(stateDir, Next(stateDir, w1, SecondOfTwo(name)), Lists([Second(name), First(name)], []));
  }
}
