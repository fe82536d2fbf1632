/**
  What the operations of the storage registry refuse, and what they change when
  they do not, told from the requests: the protection of read-only volumes, the
  fields of new records, the records that go (storage/src/storage_impl.c,
  storage_create_volume .. storage_snapshot_delete).
 */
module StorageGuards {
  import opened CText
  import opened StorageText
  import opened StorageRoundTrip
  import opened StorageRegistry
  import opened StorageRuns

  // ---------------------------------------------------------------- what a key leads to

  /** The volume is the first with this name or id. */
  ghost predicate Leads(volumes: seq<Volume>, key: string, v: Volume) {
    exists i | 0 <= i < |volumes| :: volumes[i] == v && (v.name == key || v.id == key)
      && forall j | 0 <= j < i :: volumes[j].name != key && volumes[j].id != key
  }

  ghost predicate Known(volumes: seq<Volume>, key: string) {
    exists v | v in volumes :: v.name == key || v.id == key
  }

  lemma KnownFound(volumes: seq<Volume>, key: string)
    ensures Known(volumes, key) <==> FindVolume(volumes, key) < |volumes|
  {
    var i := FindVolume(volumes, key);
    if Known(volumes, key) {
      var v :| v in volumes && (v.name == key || v.id == key);
      var k :| 0 <= k < |volumes| && volumes[k] == v;
      assert Answers(volumes[k], key);
    }
    if i < |volumes| {
      assert volumes[i] in volumes && Answers(volumes[i], key);
    }
  }

  lemma FoundLeads(volumes: seq<Volume>, key: string)
    requires FindVolume(volumes, key) < |volumes|
    ensures Leads(volumes, key, volumes[FindVolume(volumes, key)])
  {
    var i := FindVolume(volumes, key);
    assert forall j | 0 <= j < i :: !Answers(volumes[j], key);
    assert Answers(volumes[i], key);
  }

  lemma LeadsFound(volumes: seq<Volume>, key: string, v: Volume)
    requires Leads(volumes, key, v)
    ensures FindVolume(volumes, key) < |volumes| && v == volumes[FindVolume(volumes, key)]
  {
    var k :| 0 <= k < |volumes| && volumes[k] == v && (v.name == key || v.id == key)
      && forall j | 0 <= j < k :: volumes[j].name != key && volumes[j].id != key;
    assert Answers(volumes[k], key);
    assert forall j | 0 <= j < k :: !Answers(volumes[j], key);
  }

  lemma FindLeads(volumes: seq<Volume>, key: string)
    ensures Known(volumes, key) <==> FindVolume(volumes, key) < |volumes|
    ensures Known(volumes, key) ==> Leads(volumes, key, volumes[FindVolume(volumes, key)])
    ensures forall v | Leads(volumes, key, v) :: Known(volumes, key) && v == volumes[FindVolume(volumes, key)]
  {
    KnownFound(volumes, key);
    if Known(volumes, key) {
      FoundLeads(volumes, key);
    }
    forall v | Leads(volumes, key, v)
      ensures Known(volumes, key) && v == volumes[FindVolume(volumes, key)]
    {
      LeadsFound(volumes, key, v);
    }
  }

  /** The list without one of its items, the others in their order. */
  ghost predicate OneOut<T>(s: seq<T>, left: seq<T>, x: T) {
    exists i | 0 <= i < |s| :: s[i] == x && left == s[..i] + s[i + 1..]
  }

  lemma OneOutAt<T>(s: seq<T>, i: nat)
    requires i < |s|
    ensures OneOut(s, WithoutAt(s, i), s[i])
  {
  }

  // ---------------------------------------------------------------- deleting

  /** The code of a deletion: the key, the protection of read-only volumes and of the root, the kind of file, the removal, the save. */
  lemma DeleteCode(s: State, key: string, kind: PathKind, rmRc: int, persistRc: int, v: Volume)
    requires Known(s.lists.volumes, key) ==> Leads(s.lists.volumes, key, v)
    ensures DeleteSpec(s, key, kind, rmRc, persistRc).1 ==
      if key == "" then EINVAL
      else if !Known(s.lists.volumes, key) then ENOENT
      else if v.readonly != 0 then EPERM
      else if v.path == "/" then EINVAL
      else if kind.Other? then ENOTDIR
      else if kind.Directory? && rmRc != 0 then (if rmRc == -1 then EIO else rmRc)
      else persistRc
  {
    FindLeads(s.lists.volumes, key);
  }

  /** A deletion succeeds exactly when the key leads to a volume that may be deleted and both the removal and the save work. */
  lemma DeleteSucceedsIff(s: State, key: string, kind: PathKind, rmRc: int, persistRc: int)
    ensures DeleteSpec(s, key, kind, rmRc, persistRc).1 == 0 <==>
      && key != "" && persistRc == 0 && !kind.Other? && (kind.Directory? ==> rmRc == 0)
      && exists v :: Leads(s.lists.volumes, key, v) && v.readonly == 0 && v.path != "/"
  {
    FindLeads(s.lists.volumes, key);
    if Known(s.lists.volumes, key) {
      DeleteCode(s, key, kind, rmRc, persistRc, s.lists.volumes[FindVolume(s.lists.volumes, key)]);
    }
  }

  /** It gets as far as taking the record out exactly when nothing before the save stops it, and then that record goes and no other. */
  lemma DeleteEffect(s: State, key: string, kind: PathKind, rmRc: int, persistRc: int, v: Volume)
    requires Leads(s.lists.volumes, key, v)
    ensures var t := DeleteSpec(s, key, kind, rmRc, persistRc).0;
      if key != "" && v.readonly == 0 && v.path != "/" && !kind.Other? && (kind.Directory? ==> rmRc == 0) then
        && OneOut(s.lists.volumes, t.lists.volumes, v) && t.lists.snapshots == s.lists.snapshots
        && t.file == if persistRc == 0 then Some(StateText(t.lists)) else s.file
      else t == s
  {
    FindLeads(s.lists.volumes, key);
    OneOutAt(s.lists.volumes, FindVolume(s.lists.volumes, key));
  }

  /** A deletion that meets a read-only volume leaves everything as it was, the file included. */
  lemma ReadonlyRefused(stateDir: string, w: World, key: string, kind: PathKind, rmRc: int, persistRc: int, v: Volume)
    requires Leads(w.state.lists.volumes, key, v) && v.readonly != 0
    ensures Next(stateDir, w, Delete(key, kind, rmRc, persistRc)) == w
    ensures key != "" ==> DeleteSpec(w.state, key, kind, rmRc, persistRc).1 == EPERM
  {
    DeleteEffect(w.state, key, kind, rmRc, persistRc, v);
    FindLeads(w.state.lists.volumes, key);
    DeleteCode(w.state, key, kind, rmRc, persistRc, v);
  }

  /** Not an unregistration under one of the volume's keys. */
  predicate Spares(e: Event, v: Volume) {
    e.Unregister? ==> e.key != v.id && e.key != v.name
  }

  lemma OthersStay<T>(s: seq<T>, i: nat, x: T)
    requires x in s && i < |s| && s[i] != x
    ensures x in WithoutAt(s, i)
  {
    var k :| 0 <= k < |s| && s[k] == x;
    assert WithoutAt(s, i)[if k < i then k else k - 1] == x;
  }

  /** No event but an unregistration under its key takes a read-only volume out of the list. */
  lemma StepSpares(stateDir: string, w: World, e: Event, v: Volume)
    requires v in w.state.lists.volumes && v.readonly != 0 && Spares(e, v) && !e.Restart?
    ensures v in Next(stateDir, w, e).state.lists.volumes
    ensures Next(stateDir, w, e).state.file in {w.state.file, Some(StateText(Next(stateDir, w, e).state.lists))}
  {
    var volumes := w.state.lists.volumes;
    match e
    case Delete(key, _, _, _) =>
      var i := FindVolume(volumes, key);
      if i < |volumes| && volumes[i] != v {
        OthersStay(volumes, i, v);
      }
    case Unregister(key, _) =>
      var i := FindVolume(volumes, key);
      if i < |volumes| {
        OthersStay(volumes, i, v);
      }
    case _ =>
  }

  /** In memory, and in the lists that the file holds. */
  ghost predicate Held(w: World, v: Volume) {
    v in w.state.lists.volumes && exists x :: FileOf(w.state.file, x) && Keeps(AllTidy, x) && v in x.volumes
  }

  lemma ReversedIn<T>(s: seq<T>, x: T)
    requires x in s
    ensures x in Reverse(s)
  {
    ReverseMembers(s);
  }

  lemma OpenedHolds(file: Option<string>, x: Lists, v: Volume)
    requires FileOf(file, x) && ListsOk(x) && Tidy(x) && v in x.volumes
    ensures v in Opened(file).volumes
  {
    RestartReversesIff(x);
    ReversedIn(x.volumes, v);
  }

  lemma RestartSpares(stateDir: string, w: World, v: Volume)
    requires Held(w, v)
    ensures Held(Next(stateDir, w, Restart), v)
  {
    var x :| FileOf(w.state.file, x) && Keeps(AllTidy, x) && v in x.volumes;
    OpenedHolds(w.state.file, x, v);
    RestartOpens(stateDir, w);
  }

  lemma NextHeld(stateDir: string, w: World, e: Event, v: Volume)
    requires DirOk(stateDir) && Inv(AllTidy, w) && Allowed(w, e) && TidyEvent(e)
    requires Held(w, v) && v.readonly != 0 && Spares(e, v)
    ensures Held(Next(stateDir, w, e), v)
  {
    if e.Restart? {
      RestartSpares(stateDir, w, v);
    } else {
      StepSpares(stateDir, w, e, v);
      NextKeeps(AllTidy, stateDir, w, e);
      var after := Next(stateDir, w, e).state;
      if after.file == Some(StateText(after.lists)) {
        assert FileOf(after.file, after.lists);
      }
    }
  }

  /** A volume just created is held. */
  lemma CreatedHeld(stateDir: string, w: World, e: Event)
    requires DirOk(stateDir) && Inv(AllTidy, w) && Allowed(w, e) && TidyEvent(e) && e.Create?
    requires CreateSpec(w.state, e.d, e.kind, e.mkdirRc, e.id, e.now, e.persistRc).1 == 0
    ensures var after := Next(stateDir, w, e); after.state.lists.volumes != [] && Held(after, after.state.lists.volumes[0])
  {
    NextKeeps(AllTidy, stateDir, w, e);
    assert FileOf(Next(stateDir, w, e).state.file, Next(stateDir, w, e).state.lists);
  }

  /** What every step keeps holds after a run. */
  lemma {:induction false} RunKeeps(stateDir: string, holds: World -> bool, fits: Event -> bool, w: World, events: seq<Event>)
    requires forall x: World, e: Event {:trigger Next(stateDir, x, e)} | holds(x) && Allowed(x, e) && fits(e) :: holds(Next(stateDir, x, e))
    requires holds(w) && AllAllowed(stateDir, w, events) && forall k | 0 <= k < |events| :: fits(events[k])
    ensures holds(Execute(stateDir, w, events))
    decreases |events|
  {
    if events != [] {
      RunKeeps(stateDir, holds, fits, Next(stateDir, w, events[0]), events[1..]);
    }
  }

  /**
    Over every run, restarts and failing saves included, as long as nothing brought
    in ends in a blank: a read-only volume stays, in memory and in the file, until it
    is unregistered.
   */
  lemma ReadonlyStays(stateDir: string, w: World, events: seq<Event>, v: Volume)
    requires DirOk(stateDir) && Inv(AllTidy, w) && AllAllowed(stateDir, w, events)
    requires Held(w, v) && v.readonly != 0
    requires forall k | 0 <= k < |events| :: TidyEvent(events[k]) && Spares(events[k], v)
    ensures Held(Execute(stateDir, w, events), v)
  {
    forall x: World, e: Event | Inv(AllTidy, x) && Held(x, v) && Allowed(x, e) && TidyEvent(e) && Spares(e, v)
      ensures Inv(AllTidy, Next(stateDir, x, e)) && Held(Next(stateDir, x, e), v)
    {
      NextHeld(stateDir, x, e, v);
      NextKeeps(AllTidy, stateDir, x, e);
    }
    RunKeeps(stateDir, x => Inv(AllTidy, x) && Held(x, v), e => TidyEvent(e) && Spares(e, v), w, events);
  }

  // ---------------------------------------------------------------- unregistering

  /** An unregistration takes out the record the key leads to, read-only or not, and nothing else. */
  lemma UnregisterEffect(s: State, key: string, persistRc: int)
    ensures var r := UnregisterSpec(s, key, persistRc);
      && r.1 == (if key == "" then EINVAL else if !Known(s.lists.volumes, key) then ENOENT else persistRc)
      && (if key != "" && Known(s.lists.volumes, key) then
            && (exists v :: Leads(s.lists.volumes, key, v) && OneOut(s.lists.volumes, r.0.lists.volumes, v))
            && r.0.lists.snapshots == s.lists.snapshots
            && r.0.file == if persistRc == 0 then Some(StateText(r.0.lists)) else s.file
          else r.0 == s)
  {
    FindLeads(s.lists.volumes, key);
    if Known(s.lists.volumes, key) {
      OneOutAt(s.lists.volumes, FindVolume(s.lists.volumes, key));
    }
  }

  // ---------------------------------------------------------------- creating

  /** The text without line ends. */
  function Flat(s: string): string {
    if s == "" then "" else (if s[0] == '\n' || s[0] == '\r' then "" else [s[0]]) + Flat(s[1..])
  }

  function Front(s: string, room: nat): string {
    if |s| <= room then s else s[..room]
  }

  /** A description is kept without its line ends, as far as that fits. */
  lemma {:induction false} SanitizeIs(s: string, room: nat)
    ensures Sanitize(s, room) == Front(Flat(s), room)
  {
    if s == "" || room == 0 {
      assert Flat(s)[..0] == "" || room > 0;
    } else if s[0] == '\n' || s[0] == '\r' {
      SanitizeIs(s[1..], room);
      SkipsEnd(s, room);
    } else {
      SanitizeIs(s[1..], room - 1);
      KeepsHead(s, room);
    }
  }

  lemma SkipsEnd(s: string, room: nat)
    requires s != "" && room > 0 && (s[0] == '\n' || s[0] == '\r')
    ensures Sanitize(s, room) == Sanitize(s[1..], room) && Flat(s) == Flat(s[1..])
  {
    assert "" + Flat(s[1..]) == Flat(s[1..]);
  }

  lemma KeepsHead(s: string, room: nat)
    requires s != "" && room > 0 && s[0] != '\n' && s[0] != '\r'
    ensures Sanitize(s, room) == [s[0]] + Sanitize(s[1..], room - 1)
    ensures Front(Flat(s), room) == [s[0]] + Front(Flat(s[1..]), room - 1)
  {
    FrontCons(s[0], Flat(s[1..]), room);
  }

  lemma FrontCons(c: char, s: string, room: nat)
    requires room > 0
    ensures Front([c] + s, room) == [c] + Front(s, room - 1)
  {
  }

  /** The code of a label: not empty, shorter than its buffer, without slashes and control characters, no "." and no "..". */
  lemma LabelCode(s: string, max: nat)
    ensures ValidLabel(s, max) ==
      if s == "" then EINVAL else if |s| >= max then ENAMETOOLONG
      else if '/' in s || (exists c | c in s :: c < ' ') || s in {".", ".."} then EINVAL else 0
  {
    if forall i | 0 <= i < |s| :: LabelChar(s[i]) {
      assert forall c | c in s :: LabelChar(c);
    } else {
      var i :| 0 <= i < |s| && !LabelChar(s[i]);
      assert s[i] in s;
    }
  }

  /** The code of a path: absolute, shorter than its buffer, on one line. */
  lemma PathCode(s: string)
    ensures ValidPath(s) ==
      if s == "" then EINVAL else if |s| >= 512 then ENAMETOOLONG
      else if s[0] != '/' || '\n' in s || '\r' in s then EINVAL else 0
  {
  }

  lemma PathUsedIff(volumes: seq<Volume>, path: string)
    ensures PathUsed(volumes, path) <==> exists v | v in volumes :: v.path == path
  {
    if PathUsed(volumes, path) {
      var i :| 0 <= i < |volumes| && volumes[i].path == path;
      assert volumes[i] in volumes;
    }
  }

  /** The code of a creation: label and path, name and path not taken, a directory there or to be made, the save. */
  lemma CreateCode(s: State, d: Def, kind: PathKind, mkdirRc: int, id: string, now: nat, persistRc: int)
    ensures CreateSpec(s, d, kind, mkdirRc, id, now, persistRc).1 ==
      if ValidLabel(d.name, 128) != 0 then ValidLabel(d.name, 128)
      else if ValidPath(d.path) != 0 then ValidPath(d.path)
      else if Known(s.lists.volumes, d.name) || (exists v | v in s.lists.volumes :: v.path == d.path) then EEXIST
      else if kind.Other? then ENOTDIR
      else if kind.Unreadable? && kind.error != 0 then kind.error
      else if kind.Missing? && mkdirRc != 0 then mkdirRc
      else persistRc
  {
    FindLeads(s.lists.volumes, d.name);
    PathUsedIff(s.lists.volumes, d.path);
  }

  /** A creation that succeeds puts the volume asked for at the head, field by field, and changes nothing else. */
  lemma CreateEffect(s: State, d: Def, kind: PathKind, mkdirRc: int, id: string, now: nat, persistRc: int)
    requires CreateSpec(s, d, kind, mkdirRc, id, now, persistRc).1 == 0
    ensures var t := CreateSpec(s, d, kind, mkdirRc, id, now, persistRc).0;
      && t.lists.volumes != [] && t.lists.volumes[1..] == s.lists.volumes && t.lists.snapshots == s.lists.snapshots
      && var v := t.lists.volumes[0];
         && v.id == id && v.name == d.name && v.path == d.path && v.sizeLimit == d.sizeLimit && v.createdAt == now
         && (v.readonly != 0 <==> d.readonly)
         && v.description == if |Flat(d.description)| <= 255 then Flat(d.description) else Flat(d.description)[..255]
  {
    SanitizeIs(d.description, DESC_MAX - 1);
  }

  // ---------------------------------------------------------------- snapshots

  lemma HasSnapshotIff(snapshots: seq<Snapshot>, volume: string, name: string)
    ensures HasSnapshot(snapshots, volume, name) <==> exists x | x in snapshots :: x.volume == volume && x.name == name
  {
    if HasSnapshot(snapshots, volume, name) {
      var i :| 0 <= i < |snapshots| && snapshots[i].volume == volume && snapshots[i].name == name;
      assert snapshots[i] in snapshots;
    }
  }

  /** The first critical section: its code, and the snapshot it announces, of the volume the key leads to. */
  lemma BeginCode(s: State, stateDir: string, key: string, name: string, kind: PathKind, pathTaken: bool, v: Volume)
    requires Known(s.lists.volumes, key) ==> Leads(s.lists.volumes, key, v)
    ensures var r := BeginSpec(s, stateDir, key, name, kind, pathTaken);
      && r.1 == (if key == "" then EINVAL
                 else if ValidLabel(name, 128) != 0 then ValidLabel(name, 128)
                 else if !Known(s.lists.volumes, key) || !kind.Directory? then ENOENT
                 else if pathTaken || (exists x | x in s.lists.snapshots :: x.volume == v.name && x.name == name) then EEXIST
                 else 0)
      && r.0 == if r.1 == 0 then Some(Pending(v.name, name, stateDir + "/snapshots/" + v.name + "/" + name)) else None
  {
    FindLeads(s.lists.volumes, key);
    if Known(s.lists.volumes, key) {
      HasSnapshotIff(s.lists.snapshots, v.name, name);
    }
  }

  /** The second one: its code, and the record at the head when it succeeds. */
  lemma CommitCode(s: State, p: Pending, copyRc: int, id: string, now: nat, persistRc: int)
    ensures var r := CommitSpec(s, p, copyRc, id, now, persistRc);
      && r.1 == (if copyRc != 0 then copyRc
                 else if !Known(s.lists.volumes, p.volume) then ENOENT
                 else if exists x | x in s.lists.snapshots :: x.volume == p.volume && x.name == p.name then EEXIST
                 else persistRc)
      && (r.1 == 0 ==>
            && r.0.lists.snapshots != [] && r.0.lists.snapshots[1..] == s.lists.snapshots
            && r.0.lists.volumes == s.lists.volumes
            && var x := r.0.lists.snapshots[0];
               x.id == id && x.name == p.name && x.volume == p.volume && x.path == p.path && x.createdAt == now && x.active == 1)
  {
    FindLeads(s.lists.volumes, p.volume);
    HasSnapshotIff(s.lists.snapshots, p.volume, p.name);
  }

  /**
    A snapshot over its two steps: a thread that begins one holds what is announced
    until it commits, and then, if the copy and the save worked and nobody took the
    name meanwhile, the record is at the head and the thread holds nothing.
   */
  lemma SnapshotTaken(stateDir: string, w: World, t: nat, key: string, name: string, v: Volume, id: string, now: nat)
    requires t !in w.pending && key != "" && ValidLabel(name, 128) == 0 && Leads(w.state.lists.volumes, key, v)
    requires Known(w.state.lists.volumes, v.name)
    requires forall x | x in w.state.lists.snapshots :: !(x.volume == v.name && x.name == name)
    ensures var begun := Next(stateDir, w, Begin(t, key, name, Directory, false));
      var path := stateDir + "/snapshots/" + v.name + "/" + name;
      && begun == w.(pending := w.pending[t := Pending(v.name, name, path)])
      && var done := Next(stateDir, begun, CommitCopy(t, 0, id, now, 0));
         && done.pending == w.pending
         && done.state.lists == w.state.lists.(snapshots := [Snapshot(id, name, v.name, path, now, 1)] + w.state.lists.snapshots)
         && done.state.file == Some(StateText(done.state.lists))
  {
    FindLeads(w.state.lists.volumes, key);
    FindLeads(w.state.lists.volumes, v.name);
    HasSnapshotIff(w.state.lists.snapshots, v.name, name);
    BeginCode(w.state, stateDir, key, name, Directory, false, v);
    var begun := Next(stateDir, w, Begin(t, key, name, Directory, false));
    assert begun.pending - {t} == w.pending;
  }

  /** The snapshot is the first with this name or id. */
  ghost predicate LeadsTo(snapshots: seq<Snapshot>, key: string, x: Snapshot) {
    exists i | 0 <= i < |snapshots| :: snapshots[i] == x && (x.name == key || x.id == key)
      && forall j | 0 <= j < i :: snapshots[j].name != key && snapshots[j].id != key
  }

  lemma FindLeadsTo(snapshots: seq<Snapshot>, key: string)
    ensures FindSnapshot(snapshots, key) < |snapshots| <==> exists x | x in snapshots :: x.name == key || x.id == key
    ensures FindSnapshot(snapshots, key) < |snapshots| ==> LeadsTo(snapshots, key, snapshots[FindSnapshot(snapshots, key)])
  {
    var i := FindSnapshot(snapshots, key);
    if i < |snapshots| {
      assert snapshots[i] in snapshots;
    } else {
      forall x | x in snapshots
        ensures x.name != key && x.id != key
      {
        var k :| 0 <= k < |snapshots| && snapshots[k] == x;
      }
    }
  }

  /** Dropping a snapshot: its code, and the one record that goes; whether its directory can be removed does not matter for that. */
  lemma DropCode(s: State, key: string, persistRc: int, rmRc: int)
    ensures var r := DropSpec(s, key, persistRc, rmRc);
      var known := exists x | x in s.lists.snapshots :: x.name == key || x.id == key;
      && r.1 == (if key == "" then EINVAL else if !known then ENOENT
                 else if persistRc != 0 then persistRc else if rmRc == -1 then EIO else rmRc)
      && (if key != "" && known then
            && (exists x :: LeadsTo(s.lists.snapshots, key, x) && OneOut(s.lists.snapshots, r.0.lists.snapshots, x))
            && r.0.lists.volumes == s.lists.volumes
            && r.0.file == if persistRc == 0 then Some(StateText(r.0.lists)) else s.file
          else r.0 == s)
  {
    FindLeadsTo(s.lists.snapshots, key);
    if FindSnapshot(s.lists.snapshots, key) < |s.lists.snapshots| {
      OneOutAt(s.lists.snapshots, FindSnapshot(s.lists.snapshots, key));
    }
  }

  /**
    A restore: its code and the two directories. It looks up the snapshot, then the
    target volume or else the snapshot's own, and refuses a read-only one.
   */
  lemma RestoreCode(s: State, key: string, target: string, snapKind: PathKind, volKind: PathKind, x: Snapshot, v: Volume)
    requires (exists y | y in s.lists.snapshots :: y.name == key || y.id == key) ==> LeadsTo(s.lists.snapshots, key, x)
    requires var want := if target != "" then target else x.volume;
      Known(s.lists.volumes, want) ==> Leads(s.lists.volumes, want, v)
    ensures var r := RestoreSpec(s, key, target, snapKind, volKind);
      && r.1 == (if key == "" then EINVAL
                 else if !(exists y | y in s.lists.snapshots :: y.name == key || y.id == key) then ENOENT
                 else if !Known(s.lists.volumes, if target != "" then target else x.volume) then ENOENT
                 else if v.readonly != 0 then EPERM
                 else if !snapKind.Directory? || !volKind.Directory? then ENOENT
                 else 0)
      && r.0 == if r.1 == 0 then Some((x.path, v.path)) else None
  {
    FindLeadsTo(s.lists.snapshots, key);
    if FindSnapshot(s.lists.snapshots, key) < |s.lists.snapshots| {
      LeadsToFound(s.lists.snapshots, key, x);
    }
    FindLeads(s.lists.volumes, if target != "" then target else x.volume);
  }

  lemma LeadsToFound(snapshots: seq<Snapshot>, key: string, x: Snapshot)
    requires LeadsTo(snapshots, key, x)
    ensures FindSnapshot(snapshots, key) < |snapshots| && x == snapshots[FindSnapshot(snapshots, key)]
  {
    var k :| 0 <= k < |snapshots| && snapshots[k] == x && (x.name == key || x.id == key)
      && forall j | 0 <= j < k :: snapshots[j].name != key && snapshots[j].id != key;
    var i := FindSnapshot(snapshots, key);
    assert i >= k;
    assert i == k;
  }
}
