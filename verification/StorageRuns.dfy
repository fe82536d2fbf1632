/**
  Runs of the storage registry: any interleaving of creations, removals,
  two-phase snapshots and restarts, with any answers of the file system
  (storage/src/storage_impl.c).
 */
module StorageRuns {
  import opened CText
  import opened StorageText
  import opened StorageRoundTrip
  import opened StorageRegistry

  /** The registry, and the snapshots that threads have begun and not yet committed. */
  datatype World = World(state: State, pending: map<nat, Pending>)

  datatype Event =
    | Create(d: Def, kind: PathKind, mkdirRc: int, id: string, now: nat, persistRc: int)
    | Delete(key: string, kind: PathKind, rmRc: int, persistRc: int)
    | Unregister(key: string, persistRc: int)
    | Begin(thread: nat, key: string, name: string, kind: PathKind, pathTaken: bool)
    | CommitCopy(thread: nat, copyRc: int, id: string, now: nat, persistRc: int)
    | Drop(key: string, persistRc: int, rmRc: int)
    | Restart                      // the process ends, and a new one loads the file; nothing is saved on the way

  function Next(stateDir: string, w: World, e: Event): World {
    match e
    case Create(d, kind, mkdirRc, id, now, persistRc) =>
      w.(state := CreateSpec(w.state, d, kind, mkdirRc, id, now, persistRc).0)
    case Delete(key, kind, rmRc, persistRc) => w.(state := DeleteSpec(w.state, key, kind, rmRc, persistRc).0)
    case Unregister(key, persistRc) => w.(state := UnregisterSpec(w.state, key, persistRc).0)
    case Begin(t, key, name, kind, pathTaken) =>
      var p := BeginSpec(w.state, stateDir, key, name, kind, pathTaken).0;
      if p.Some? && t !in w.pending then w.(pending := w.pending[t := p.value]) else w
    case CommitCopy(t, copyRc, id, now, persistRc) =>
      if t in w.pending
      then World(CommitSpec(w.state, w.pending[t], copyRc, id, now, persistRc).0, w.pending - {t})
      else w
    case Drop(key, persistRc, rmRc) => w.(state := DropSpec(w.state, key, persistRc, rmRc).0)
    case Restart => World(State(Opened(w.state.file), w.state.file), map[])
  }

  const EMPTY: World := World(State(Lists([], []), None), map[])

  // ---------------------------------------------------------------- what must stay distinct

  ghost predicate Apart(a: Volume, b: Volume) {
    a.id != b.id && a.name != b.name && a.id != b.name && a.name != b.id && a.path != b.path
  }

  ghost predicate ApartSnapshots(a: Snapshot, b: Snapshot) {
    a.id != b.id && !(a.volume == b.volume && a.name == b.name)
  }

  ghost predicate IdsApart(a: Volume, b: Volume) {
    a.id != b.id
  }

  /** No key leads to both: a volume answers to its id and to its name. */
  ghost predicate KeysApart(a: Volume, b: Volume) {
    a.id != b.id && a.name != b.name && a.id != b.name && a.name != b.id
  }

  ghost predicate Pairwise<T(!new)>(apart: (T, T) -> bool, s: seq<T>) {
    forall i, j {:trigger s[i], s[j]} | 0 <= i < j < |s| :: apart(s[i], s[j])
  }

  /** Names, ids and paths of volumes, ids of snapshots and their names within a volume are all different. */
  ghost predicate Distinct(x: Lists) {
    Pairwise(Apart, x.volumes) && Pairwise(ApartSnapshots, x.snapshots)
  }

  // ---------------------------------------------------------------- what is assumed of requests

  predicate GoodId(id: string) {
    0 < |id| < ID_MAX && Clean(id) && TrimEnd(id) == id
  }

  /** C strings and 64-bit numbers; ids are random and new. */
  ghost predicate Allowed(w: World, e: Event) {
    match e
    case Create(d, _, _, id, now, _) =>
      && GoodId(id) && (forall i | 0 <= i < |w.state.lists.volumes| :: !Answers(w.state.lists.volumes[i], id)) && id != d.name
      && NUL !in d.path && NUL !in d.description && d.sizeLimit < TWO_POW_64 && now < TWO_POW_64
    case CommitCopy(_, _, id, now, _) =>
      && GoodId(id) && (forall i | 0 <= i < |w.state.lists.snapshots| :: w.state.lists.snapshots[i].id != id)
      && now < TWO_POW_64
    case _ => true
  }

  ghost predicate AllAllowed(stateDir: string, w: World, events: seq<Event>)
    decreases |events|
  {
    events == [] || (Allowed(w, events[0]) && AllAllowed(stateDir, Next(stateDir, w, events[0]), events[1..]))
  }

  function Execute(stateDir: string, w: World, events: seq<Event>): World
    decreases |events|
  {
    if events == [] then w else Execute(stateDir, Next(stateDir, w, events[0]), events[1..])
  }

  /** No trailing blank in what the event brings into the registry. */
  ghost predicate TidyEvent(e: Event) {
    match e
    case Create(d, _, _, _, _, _) =>
      && TrimEnd(d.name) == d.name && TrimEnd(d.path) == d.path
      && TrimEnd(Sanitize(d.description, DESC_MAX - 1)) == Sanitize(d.description, DESC_MAX - 1)
    case Begin(_, _, name, _, _) => TrimEnd(name) == name
    case _ => true
  }

  predicate LabelOk(s: string) {
    ValidLabel(s, NAME_MAX) == 0
  }

  predicate DirOk(dir: string) {
    0 < |dir| < DIR_MAX && Clean(dir)
  }

  // ---------------------------------------------------------------- invariant

  /** How much is known of the lists: fields and ids; and that all is distinct; and that nothing ends in a blank. */
  datatype Level = Sane | AllApart | AllTidy

  ghost predicate Keeps(level: Level, x: Lists) {
    && ListsOk(x) && Pairwise(IdsApart, x.volumes)
    && (level != Sane ==> Distinct(x))
    && (level == AllTidy ==> Tidy(x))
  }

  ghost predicate PendingOk(p: Pending) {
    && 0 < |p.volume| < NAME_MAX && Clean(p.volume)
    && 0 < |p.name| < NAME_MAX && Clean(p.name)
    && 0 < |p.path| < PATH_MAX && Clean(p.path)
  }

  ghost predicate TidyPending(p: Pending) {
    TrimEnd(p.volume) == p.volume && TrimEnd(p.name) == p.name && TrimEnd(p.path) == p.path
  }

  ghost predicate PendingKeeps(level: Level, p: Pending) {
    PendingOk(p) && (level == AllTidy ==> TidyPending(p))
  }

  /** The file holds the text of these lists; without a file they are empty. */
  ghost predicate FileOf(file: Option<string>, x: Lists) {
    if file.None? then x == Lists([], []) else file.value == StateText(x)
  }

  ghost predicate FileKeeps(level: Level, file: Option<string>) {
    exists x :: FileOf(file, x) && Keeps(level, x)
  }

  ghost predicate Inv(level: Level, w: World) {
    && Keeps(level, w.state.lists) && FileKeeps(level, w.state.file)
    && forall t | t in w.pending :: PendingKeeps(level, w.pending[t])
  }

  /** What an event must meet to keep a level: restarts keep the lowest and the highest, blanks at ends the lower two. */
  ghost predicate Fits(level: Level, e: Event) {
    && (e.Restart? ==> level != AllApart)
    && (level == AllTidy ==> TidyEvent(e))
  }

  lemma EmptyInv(level: Level)
    ensures Inv(level, EMPTY)
  {
    assert FileOf(None, Lists([], []));
  }

  lemma LabelClean(s: string)
    requires LabelOk(s)
    ensures 0 < |s| < NAME_MAX && Clean(s)
  {
    assert forall i | 0 <= i < |s| :: LabelChar(s[i]);
  }

  /** New lists, written to the file or not. */
  lemma SavedKeeps(level: Level, w: World, lists: Lists, persistRc: int)
    requires Inv(level, w) && Keeps(level, lists)
    ensures Inv(level, w.(state := Saved(w.state, lists, persistRc)))
  {
    if persistRc == 0 {
      assert FileOf(Saved(w.state, lists, persistRc).file, lists);
    }
  }

  // ---------------------------------------------------------------- changes of the lists

  /** A new record that is apart from all others goes to the head of the list. */
  lemma VolumeAdded(level: Level, x: Lists, v: Volume)
    requires Keeps(level, x) && VolumeOk(v) && (level == AllTidy ==> VolumeBack(v) == v)
    requires forall i | 0 <= i < |x.volumes| :: Apart(v, x.volumes[i])
    ensures Keeps(level, x.(volumes := [v] + x.volumes))
  {
  }

  lemma SnapshotAdded(level: Level, x: Lists, s: Snapshot)
    requires Keeps(level, x) && SnapshotOk(s) && (level == AllTidy ==> SnapshotBack(s) == s)
    requires forall i | 0 <= i < |x.snapshots| :: ApartSnapshots(s, x.snapshots[i])
    ensures Keeps(level, x.(snapshots := [s] + x.snapshots))
  {
  }

  lemma PairwiseRemoved<T(!new)>(apart: (T, T) -> bool, s: seq<T>, i: nat)
    requires Pairwise(apart, s) && i < |s|
    ensures Pairwise(apart, WithoutAt(s, i))
  {
    var w := WithoutAt(s, i);
    forall a, b | 0 <= a < b < |w|
      ensures apart(w[a], w[b])
    {
      assert w[a] == s[if a < i then a else a + 1] && w[b] == s[if b < i then b else b + 1];
    }
  }

  lemma VolumeRemoved(level: Level, x: Lists, i: nat)
    requires Keeps(level, x) && i < |x.volumes|
    ensures Keeps(level, x.(volumes := WithoutAt(x.volumes, i)))
  {
    var w := WithoutAt(x.volumes, i);
    assert forall k | 0 <= k < |w| :: w[k] == x.volumes[if k < i then k else k + 1];
    PairwiseRemoved(IdsApart, x.volumes, i);
    if level != Sane {
      PairwiseRemoved(Apart, x.volumes, i);
    }
  }

  lemma SnapshotRemoved(level: Level, x: Lists, i: nat)
    requires Keeps(level, x) && i < |x.snapshots|
    ensures Keeps(level, x.(snapshots := WithoutAt(x.snapshots, i)))
  {
    var w := WithoutAt(x.snapshots, i);
    assert forall k | 0 <= k < |w| :: w[k] == x.snapshots[if k < i then k else k + 1];
    if level != Sane {
      PairwiseRemoved(ApartSnapshots, x.snapshots, i);
    }
  }

  /** A volume that passes the checks of its creation differs from all registered ones. */
  lemma CreatedApart(volumes: seq<Volume>, d: Def, kind: PathKind, mkdirRc: int, id: string, now: nat)
    requires CreateCheck(volumes, d, kind, mkdirRc) == 0
    requires forall i | 0 <= i < |volumes| :: !Answers(volumes[i], id)
    ensures forall i | 0 <= i < |volumes| :: Apart(NewVolume(d, id, now), volumes[i])
  {
    assert FindVolume(volumes, d.name) == |volumes|;
    forall i | 0 <= i < |volumes|
      ensures Apart(NewVolume(d, id, now), volumes[i])
    {
      assert !Answers(volumes[i], d.name) && !Answers(volumes[i], id);
    }
  }

  lemma CreatedOk(d: Def, id: string, now: nat)
    requires LabelOk(d.name) && ValidPath(d.path) == 0 && GoodId(id)
    requires NUL !in d.path && NUL !in d.description && d.sizeLimit < TWO_POW_64 && now < TWO_POW_64
    ensures VolumeOk(NewVolume(d, id, now))
  {
    LabelClean(d.name);
  }

  /** The lists after a creation that succeeds. */
  function Created(x: Lists, d: Def, id: string, now: nat): Lists {
    x.(volumes := [NewVolume(d, id, now)] + x.volumes)
  }

  lemma CreateIs(s: State, d: Def, kind: PathKind, mkdirRc: int, id: string, now: nat, persistRc: int)
    ensures var t := CreateSpec(s, d, kind, mkdirRc, id, now, persistRc).0;
      || t == s
      || (CreateCheck(s.lists.volumes, d, kind, mkdirRc) == 0 && t == Saved(s, Created(s.lists, d, id, now), 0))
  {
  }

  lemma CreatedKeeps(level: Level, w: World, e: Event)
    requires e.Create? && Keeps(level, w.state.lists) && Allowed(w, e) && Fits(level, e)
    requires CreateCheck(w.state.lists.volumes, e.d, e.kind, e.mkdirRc) == 0
    ensures Keeps(level, Created(w.state.lists, e.d, e.id, e.now))
  {
    CreatedApart(w.state.lists.volumes, e.d, e.kind, e.mkdirRc, e.id, e.now);
    CreatedOk(e.d, e.id, e.now);
    VolumeAdded(level, w.state.lists, NewVolume(e.d, e.id, e.now));
  }

  lemma CreateKeeps(level: Level, stateDir: string, w: World, e: Event)
    requires e.Create? && Inv(level, w) && Allowed(w, e) && Fits(level, e)
    ensures Inv(level, Next(stateDir, w, e))
  {
    CreateIs(w.state, e.d, e.kind, e.mkdirRc, e.id, e.now, e.persistRc);
    if CreateCheck(w.state.lists.volumes, e.d, e.kind, e.mkdirRc) == 0 {
      CreatedKeeps(level, w, e);
      SavedKeeps(level, w, Created(w.state.lists, e.d, e.id, e.now), 0);
    }
  }

  function Removed(x: Lists, i: nat): Lists
    requires i < |x.volumes|
  {
    x.(volumes := WithoutAt(x.volumes, i))
  }

  lemma RemoveIs(stateDir: string, w: World, e: Event)
    requires e.Delete? || e.Unregister?
    ensures var i := FindVolume(w.state.lists.volumes, e.key);
      || Next(stateDir, w, e) == w
      || (i < |w.state.lists.volumes| &&
          Next(stateDir, w, e) == w.(state := Saved(w.state, Removed(w.state.lists, i), e.persistRc)))
  {
  }

  lemma RemoveKeeps(level: Level, stateDir: string, w: World, e: Event)
    requires (e.Delete? || e.Unregister?) && Inv(level, w)
    ensures Inv(level, Next(stateDir, w, e))
  {
    var i := FindVolume(w.state.lists.volumes, e.key);
    RemoveIs(stateDir, w, e);
    if i < |w.state.lists.volumes| {
      VolumeRemoved(level, w.state.lists, i);
      SavedKeeps(level, w, Removed(w.state.lists, i), e.persistRc);
    }
  }

  function Dropped(x: Lists, i: nat): Lists
    requires i < |x.snapshots|
  {
    x.(snapshots := WithoutAt(x.snapshots, i))
  }

  lemma DropIs(s: State, key: string, persistRc: int, rmRc: int)
    ensures var i := FindSnapshot(s.lists.snapshots, key); var t := DropSpec(s, key, persistRc, rmRc).0;
      t == s || (i < |s.lists.snapshots| && t == Saved(s, Dropped(s.lists, i), persistRc))
  {
  }

  lemma DropKeeps(level: Level, stateDir: string, w: World, e: Event)
    requires e.Drop? && Inv(level, w)
    ensures Inv(level, Next(stateDir, w, e))
  {
    var i := FindSnapshot(w.state.lists.snapshots, e.key);
    DropIs(w.state, e.key, e.persistRc, e.rmRc);
    if i < |w.state.lists.snapshots| {
      SnapshotRemoved(level, w.state.lists, i);
      SavedKeeps(level, w, Dropped(w.state.lists, i), e.persistRc);
    }
  }

  /** The longest snapshot path fits its buffer. */
  lemma PathFits(stateDir: string, volume: string, name: string)
    requires DirOk(stateDir) && 0 < |volume| < NAME_MAX && Clean(volume) && LabelOk(name)
    ensures PendingOk(Pending(volume, name, SnapshotPath(stateDir, volume, name)))
  {
    LabelClean(name);
  }

  lemma PathTidy(stateDir: string, volume: string, name: string)
    requires TrimEnd(name) == name
    ensures TrimEnd(SnapshotPath(stateDir, volume, name)) == SnapshotPath(stateDir, volume, name)
  {
    var head := stateDir + "/snapshots/" + volume + "/";
    assert head[|head| - 1] == '/';
    TrimEndAfter(head, name);
  }

  lemma PendingAdded(level: Level, w: World, t: nat, p: Pending)
    requires Inv(level, w) && PendingKeeps(level, p)
    ensures Inv(level, w.(pending := w.pending[t := p]))
  {
  }

  lemma BegunOk(level: Level, stateDir: string, s: State, e: Event)
    requires e.Begin? && Keeps(level, s.lists) && DirOk(stateDir) && Fits(level, e)
    ensures var p := BeginSpec(s, stateDir, e.key, e.name, e.kind, e.pathTaken).0;
      p.Some? ==> PendingKeeps(level, p.value)
  {
    var vs := s.lists.volumes;
    var i := FindVolume(vs, e.key);
    if i < |vs| && ValidLabel(e.name, NAME_MAX) == 0 {
      assert VolumeOk(vs[i]);
      PathFits(stateDir, vs[i].name, e.name);
      if level == AllTidy {
        assert VolumeBack(vs[i]) == vs[i];
        PathTidy(stateDir, vs[i].name, e.name);
      }
    }
  }

  lemma BeginKeeps(level: Level, stateDir: string, w: World, e: Event)
    requires e.Begin? && Inv(level, w) && DirOk(stateDir) && Fits(level, e)
    ensures Inv(level, Next(stateDir, w, e))
  {
    BegunOk(level, stateDir, w.state, e);
    var p := BeginSpec(w.state, stateDir, e.key, e.name, e.kind, e.pathTaken).0;
    if p.Some? {
      PendingAdded(level, w, e.thread, p.value);
    }
  }

  function Committed(x: Lists, p: Pending, id: string, now: nat): Lists {
    x.(snapshots := [Snapshot(id, p.name, p.volume, p.path, now, 1)] + x.snapshots)
  }

  lemma CommitIs(s: State, p: Pending, copyRc: int, id: string, now: nat, persistRc: int)
    ensures var t := CommitSpec(s, p, copyRc, id, now, persistRc).0;
      || t == s
      || (!HasSnapshot(s.lists.snapshots, p.volume, p.name) && t == Saved(s, Committed(s.lists, p, id, now), 0))
  {
  }

  lemma CommittedKeeps(level: Level, s: State, p: Pending, id: string, now: nat)
    requires Keeps(level, s.lists) && PendingKeeps(level, p) && GoodId(id) && now < TWO_POW_64
    requires forall i | 0 <= i < |s.lists.snapshots| :: s.lists.snapshots[i].id != id
    requires !HasSnapshot(s.lists.snapshots, p.volume, p.name)
    ensures Keeps(level, Committed(s.lists, p, id, now))
  {
    SnapshotAdded(level, s.lists, Snapshot(id, p.name, p.volume, p.path, now, 1));
  }

  lemma EndedKeeps(level: Level, w: World, t: nat)
    requires Inv(level, w)
    ensures Inv(level, w.(pending := w.pending - {t}))
  {
  }

  lemma CommitKeeps(level: Level, stateDir: string, w: World, e: Event)
    requires e.CommitCopy? && Inv(level, w) && Allowed(w, e)
    ensures Inv(level, Next(stateDir, w, e))
  {
    if e.thread in w.pending {
      var p := w.pending[e.thread];
      EndedKeeps(level, w, e.thread);
      CommitIs(w.state, p, e.copyRc, e.id, e.now, e.persistRc);
      if !HasSnapshot(w.state.lists.snapshots, p.volume, p.name) {
        CommittedKeeps(level, w.state, p, e.id, e.now);
        SavedKeeps(level, w.(pending := w.pending - {e.thread}), Committed(w.state.lists, p, e.id, e.now), 0);
      }
    }
  }

  // ---------------------------------------------------------------- restarts

  /** Loading a file gives the reversed, trimmed lists it was written from. */
  lemma OpenedIs(file: Option<string>, x: Lists)
    requires FileOf(file, x) && ListsOk(x)
    ensures Opened(file) == Restarted(x)
  {
    if file.Some? {
      LoadPersisted(x);
    }
  }

  /** Records as they are read back, those that are not complete left out. */
  ghost function Kept<T>(back: T -> T, complete: T -> bool, s: seq<T>): seq<T> {
    if s == [] then [] else (if complete(back(s[0])) then [back(s[0])] else []) + Kept(back, complete, s[1..])
  }

  lemma KeptCons<T>(back: T -> T, complete: T -> bool, s: seq<T>)
    requires s != []
    ensures Kept(back, complete, s) ==
            if complete(back(s[0])) then [back(s[0])] + Kept(back, complete, s[1..]) else Kept(back, complete, s[1..])
  {
  }

  lemma {:induction false} KeptAppend<T>(back: T -> T, complete: T -> bool, a: seq<T>, b: seq<T>)
    ensures Kept(back, complete, a + b) == Kept(back, complete, a) + Kept(back, complete, b)
  {
    if a == [] {
      assert a + b == b;
    } else {
      AppendHead(a, b);
      KeptAppend(back, complete, a[1..], b);
    }
  }

  lemma {:induction false} VolumesBackIsKept(volumes: seq<Volume>)
    ensures VolumesBack(volumes) == Kept(VolumeBack, CompleteVolume, volumes)
  {
    if volumes != [] {
      VolumesBackIsKept(volumes[1..]);
    }
  }

  lemma {:induction false} SnapshotsBackIsKept(snapshots: seq<Snapshot>)
    ensures SnapshotsBack(snapshots) == Kept(SnapshotBack, CompleteSnapshot, snapshots)
  {
    if snapshots != [] {
      SnapshotsBackIsKept(snapshots[1..]);
    }
  }

  /** The records that are read back stay apart. */
  ghost predicate ApartBack<T(!new)>(apart: (T, T) -> bool, back: T -> T, complete: T -> bool, s: seq<T>) {
    forall i, j {:trigger s[i], s[j]} | 0 <= i < j < |s| && complete(back(s[i])) && complete(back(s[j])) ::
      apart(back(s[i]), back(s[j]))
  }

  ghost predicate ApartFrom<T(!new)>(apart: (T, T) -> bool, x: T, s: seq<T>) {
    forall j | 0 <= j < |s| :: apart(x, s[j])
  }

  lemma PairwiseCons<T(!new)>(apart: (T, T) -> bool, x: T, s: seq<T>)
    ensures Pairwise(apart, [x] + s) <==> Pairwise(apart, s) && ApartFrom(apart, x, s)
  {
    var all := [x] + s;
    assert forall j | 0 <= j < |s| :: all[j + 1] == s[j];
    assert all[0] == x;
  }

  ghost predicate ApartFromBack<T(!new)>(apart: (T, T) -> bool, back: T -> T, complete: T -> bool, x: T, s: seq<T>) {
    forall j | 0 <= j < |s| && complete(back(s[j])) :: apart(x, back(s[j]))
  }

  lemma ApartFromCons<T(!new)>(apart: (T, T) -> bool, x: T, y: T, s: seq<T>)
    ensures ApartFrom(apart, x, [y] + s) <==> apart(x, y) && ApartFrom(apart, x, s)
  {
    var all := [y] + s;
    assert all[0] == y && forall j | 0 <= j < |s| :: all[j + 1] == s[j];
  }

  lemma ApartFromBackCons<T(!new)>(apart: (T, T) -> bool, back: T -> T, complete: T -> bool, x: T, s: seq<T>)
    requires s != []
    ensures ApartFromBack(apart, back, complete, x, s) <==>
            (complete(back(s[0])) ==> apart(x, back(s[0]))) && ApartFromBack(apart, back, complete, x, s[1..])
  {
    assert forall j | 0 < j < |s| :: s[j] == s[1..][j - 1];
  }

  lemma {:induction false} ApartFromKept<T(!new)>(apart: (T, T) -> bool, back: T -> T, complete: T -> bool, x: T, s: seq<T>)
    ensures ApartFrom(apart, x, Kept(back, complete, s)) <==> ApartFromBack(apart, back, complete, x, s)
  {
    if s != [] {
      ApartFromKept(apart, back, complete, x, s[1..]);
      ApartFromBackCons(apart, back, complete, x, s);
      KeptCons(back, complete, s);
      ApartFromCons(apart, x, back(s[0]), Kept(back, complete, s[1..]));
    }
  }

  lemma ApartBackCons<T(!new)>(apart: (T, T) -> bool, back: T -> T, complete: T -> bool, s: seq<T>)
    requires s != []
    ensures ApartBack(apart, back, complete, s) <==>
            ApartBack(apart, back, complete, s[1..]) &&
            (complete(back(s[0])) ==> ApartFromBack(apart, back, complete, back(s[0]), s[1..]))
  {
    var rest := s[1..];
    assert forall j | 0 <= j < |rest| :: rest[j] == s[j + 1];
    assert forall j | 0 < j < |s| :: s[j] == rest[j - 1];
  }

  lemma {:induction false} KeptPairwise<T(!new)>(apart: (T, T) -> bool, back: T -> T, complete: T -> bool, s: seq<T>)
    ensures Pairwise(apart, Kept(back, complete, s)) <==> ApartBack(apart, back, complete, s)
  {
    if s != [] {
      KeptPairwise(apart, back, complete, s[1..]);
      KeptCons(back, complete, s);
      ApartBackCons(apart, back, complete, s);
      ApartFromKept(apart, back, complete, back(s[0]), s[1..]);
      PairwiseCons(apart, back(s[0]), Kept(back, complete, s[1..]));
    }
  }

  lemma ReversedPairwise<T(!new)>(apart: (T, T) -> bool, s: seq<T>)
    requires forall a, b :: apart(a, b) ==> apart(b, a)
    ensures Pairwise(apart, Reverse(s)) <==> Pairwise(apart, s)
  {
    var r := Reverse(s);
    forall i, j | Pairwise(apart, s) && 0 <= i < j < |r|
      ensures apart(r[i], r[j])
    {
      assert apart(s[|s| - 1 - j], s[|s| - 1 - i]);
    }
    forall i, j | Pairwise(apart, r) && 0 <= i < j < |s|
      ensures apart(s[i], s[j])
    {
      assert apart(r[|s| - 1 - j], r[|s| - 1 - i]);
    }
  }

  lemma BackIds(volumes: seq<Volume>)
    requires Pairwise(IdsApart, volumes) && forall i | 0 <= i < |volumes| :: VolumeOk(volumes[i])
    ensures Pairwise(IdsApart, VolumesBack(volumes)) && Pairwise(IdsApart, Reverse(VolumesBack(volumes)))
  {
    assert forall i | 0 <= i < |volumes| :: VolumeBack(volumes[i]).id == volumes[i].id;
    KeptPairwise(IdsApart, VolumeBack, CompleteVolume, volumes);
    VolumesBackIsKept(volumes);
    ReversedPairwise(IdsApart, VolumesBack(volumes));
  }

  lemma RestartedKeeps(level: Level, x: Lists)
    requires Keeps(level, x) && level != AllApart
    ensures Keeps(level, Restarted(x))
  {
    RestartedOk(x);
    BackIds(x.volumes);
    if level == AllTidy {
      VolumesBackIff(x.volumes);
      SnapshotsBackIff(x.snapshots);
      ReversedPairwise(Apart, x.volumes);
      ReversedPairwise(ApartSnapshots, x.snapshots);
    }
  }

  lemma OpenedKeeps(level: Level, file: Option<string>)
    requires FileKeeps(level, file) && level != AllApart
    ensures Keeps(level, Opened(file))
  {
    var x :| FileOf(file, x) && Keeps(level, x);
    OpenedIs(file, x);
    RestartedKeeps(level, x);
  }

  lemma RestartOpens(stateDir: string, w: World)
    ensures Next(stateDir, w, Restart) == World(State(Opened(w.state.file), w.state.file), map[])
  {
  }

  lemma FreshWorldInv(level: Level, lists: Lists, file: Option<string>)
    requires Keeps(level, lists) && FileKeeps(level, file)
    ensures Inv(level, World(State(lists, file), map[]))
  {
  }

  lemma RestartKeeps(level: Level, stateDir: string, w: World)
    requires Inv(level, w) && level != AllApart
    ensures Inv(level, Next(stateDir, w, Restart))
  {
    RestartOpens(stateDir, w);
    OpenedKeeps(level, w.state.file);
    FreshWorldInv(level, Opened(w.state.file), w.state.file);
  }

  /** Every step keeps each level whose conditions it meets. */
  lemma NextKeeps(level: Level, stateDir: string, w: World, e: Event)
    requires DirOk(stateDir) && Inv(level, w) && Allowed(w, e) && Fits(level, e)
    ensures Inv(level, Next(stateDir, w, e))
  {
    match e {
      case Create(_, _, _, _, _, _) => CreateKeeps(level, stateDir, w, e);
      case Delete(_, _, _, _) => RemoveKeeps(level, stateDir, w, e);
      case Unregister(_, _) => RemoveKeeps(level, stateDir, w, e);
      case Begin(_, _, _, _, _) => BeginKeeps(level, stateDir, w, e);
      case CommitCopy(_, _, _, _, _) => CommitKeeps(level, stateDir, w, e);
      case Drop(_, _, _) => DropKeeps(level, stateDir, w, e);
      case Restart => RestartKeeps(level, stateDir, w);
    }
  }

  lemma {:induction false} ExecuteKeeps(level: Level, stateDir: string, w: World, events: seq<Event>)
    requires DirOk(stateDir) && Inv(level, w) && AllAllowed(stateDir, w, events)
    requires forall k | 0 <= k < |events| :: Fits(level, events[k])
    ensures Inv(level, Execute(stateDir, w, events))
    decreases |events|
  {
    if events != [] {
      NextKeeps(level, stateDir, w, events[0]);
      ExecuteKeeps(level, stateDir, Next(stateDir, w, events[0]), events[1..]);
    }
  }

  // ---------------------------------------------------------------- distinct under every interleaving

  /**
    Under every interleaving of creations, removals and two-phase snapshots, and
    whatever the file system answers, names, ids and paths of volumes stay
    different, no name is another volume's id, and a volume's snapshots keep
    different names.
   */
  lemma RunsStayDistinct(stateDir: string, events: seq<Event>)
    requires DirOk(stateDir) && AllAllowed(stateDir, EMPTY, events)
    requires forall k | 0 <= k < |events| :: !events[k].Restart?
    ensures Distinct(Execute(stateDir, EMPTY, events).state.lists)
  {
    EmptyInv(AllApart);
    ExecuteKeeps(AllApart, stateDir, EMPTY, events);
  }

  /** With restarts in between, the same holds when nothing registered ends in a blank. */
  lemma RestartsStayDistinct(stateDir: string, events: seq<Event>)
    requires DirOk(stateDir) && AllAllowed(stateDir, EMPTY, events)
    requires forall k | 0 <= k < |events| :: TidyEvent(events[k])
    ensures Distinct(Execute(stateDir, EMPTY, events).state.lists)
  {
    EmptyInv(AllTidy);
    ExecuteKeeps(AllTidy, stateDir, EMPTY, events);
  }

  /**
    A creation or a snapshot succeeds exactly when it changes the lists, and then
    the file holds their text; if saving fails, lists and file are as they were.
   */
  lemma SucceedsIffSaved(s: State, d: Def, kind: PathKind, mkdirRc: int, id: string, now: nat,
                         p: Pending, copyRc: int, persistRc: int)
    ensures var r := CreateSpec(s, d, kind, mkdirRc, id, now, persistRc);
      && (r.1 == 0 <==> r.0.lists != s.lists) && (persistRc != 0 ==> r.1 != 0)
      && r.0.file == if r.1 == 0 then Some(StateText(r.0.lists)) else s.file
    ensures var r := CommitSpec(s, p, copyRc, id, now, persistRc);
      && (r.1 == 0 <==> r.0.lists != s.lists) && (persistRc != 0 ==> r.1 != 0)
      && r.0.file == if r.1 == 0 then Some(StateText(r.0.lists)) else s.file
  {
    var created, committed := CreateSpec(s, d, kind, mkdirRc, id, now, persistRc), CommitSpec(s, p, copyRc, id, now, persistRc);
    assert created.1 == 0 ==> |created.0.lists.volumes| > |s.lists.volumes|;
    assert committed.1 == 0 ==> |committed.0.lists.snapshots| > |s.lists.snapshots|;
  }

  // ---------------------------------------------------------------- looking volumes up

  function Lookup(volumes: seq<Volume>, key: string): Option<Volume> {
    var i := FindVolume(volumes, key);
    if i < |volumes| then Some(volumes[i]) else None
  }

  /** What a creation promises: afterwards its name and its id lead to the new volume, and every other key leads where it led. */
  lemma CreateThenFind(s: State, d: Def, kind: PathKind, mkdirRc: int, id: string, now: nat, key: string)
    requires CreateSpec(s, d, kind, mkdirRc, id, now, 0).1 == 0
    ensures var t := CreateSpec(s, d, kind, mkdirRc, id, now, 0).0;
      && Lookup(t.lists.volumes, d.name) == Some(NewVolume(d, id, now)) == Lookup(t.lists.volumes, id)
      && (key != d.name && key != id ==> Lookup(t.lists.volumes, key) == Lookup(s.lists.volumes, key))
  {
    var t := CreateSpec(s, d, kind, mkdirRc, id, now, 0).0;
    assert t.lists.volumes[1..] == s.lists.volumes;
  }

  /** When no key leads to two volumes, it leads to the one that has it, in whatever order they are. */
  lemma LookupIff(volumes: seq<Volume>, key: string, v: Volume)
    requires Pairwise(KeysApart, volumes)
    ensures Lookup(volumes, key) == Some(v) <==> v in volumes && Answers(v, key)
  {
    var i := FindVolume(volumes, key);
    forall j | 0 <= j < |volumes| && Answers(volumes[j], key)
      ensures i == j
    {
      assert i <= j && (i < j ==> KeysApart(volumes[i], volumes[j]));
    }
  }

  lemma LookupReversed(volumes: seq<Volume>, key: string)
    requires Pairwise(KeysApart, volumes)
    ensures Lookup(Reverse(volumes), key) == Lookup(volumes, key)
  {
    ReverseMembers(volumes);
    ReversedPairwise(KeysApart, volumes);
    var a, b := Lookup(volumes, key), Lookup(Reverse(volumes), key);
    if a.Some? {
      LookupIff(volumes, key, a.value);
      LookupIff(Reverse(volumes), key, a.value);
    } else if b.Some? {
      LookupIff(Reverse(volumes), key, b.value);
      LookupIff(volumes, key, b.value);
    }
  }
}
