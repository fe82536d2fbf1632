/**
  The registry of volumes and snapshots: creating and removing volumes, taking a
  snapshot in two critical sections with the copy in between, and the state file
  (storage/src/storage_impl.c).  What the file system answers is a parameter of
  each operation.
 */
module StorageRegistry {
  import opened CText
  import opened StorageText

  const EPERM: int := -1
  const ENOENT: int := -2
  const EIO: int := -5
  const EEXIST: int := -17
  const ENOTDIR: int := -20
  const EINVAL: int := -22
  const ENAMETOOLONG: int := -36
  const DIR_MAX: nat := 240

  /** What lstat says of a path. */
  datatype PathKind = Missing | Directory | Other | Unreadable(error: int)

  datatype State = State(lists: Lists, file: Option<string>)

  /** A snapshot between its two critical sections. */
  datatype Pending = Pending(volume: string, name: string, path: string)

  datatype Def = Def(name: string, path: string, description: string, sizeLimit: nat, readonly: bool)

  // ---------------------------------------------------------------- validity of requests

  predicate LabelChar(c: char) {
    c != '/' && c >= ' '
  }

  /** storage_valid_label */
  function ValidLabel(s: string, max: nat): int {
    if s == "" then EINVAL
    else if |s| >= max then ENAMETOOLONG
    else if exists i | 0 <= i < |s| :: !LabelChar(s[i]) then EINVAL
    else if s == "." || s == ".." then EINVAL
    else 0
  }

  /** storage_valid_path */
  function ValidPath(s: string): int {
    if s == "" then EINVAL
    else if |s| >= PATH_MAX then ENAMETOOLONG
    else if s[0] != '/' then EINVAL
    else if '\n' in s || '\r' in s then EINVAL
    else 0
  }

  /** storage_sanitize_desc: without line ends, as far as it fits. */
  function Sanitize(s: string, room: nat): (r: string)
    ensures |r| <= room && '\n' !in r && '\r' !in r
    ensures forall c | c in r :: c in s
  {
    if s == "" || room == 0 then ""
    else if s[0] == '\n' || s[0] == '\r' then Sanitize(s[1..], room)
    else [s[0]] + Sanitize(s[1..], room - 1)
  }

  // ---------------------------------------------------------------- specification

  predicate Answers(v: Volume, key: string) {
    v.id == key || v.name == key
  }

  /** Index of the first volume with this name or id, or the length. */
  function FindVolume(volumes: seq<Volume>, key: string): (i: nat)
    ensures i <= |volumes|
    ensures i < |volumes| ==> Answers(volumes[i], key)
    ensures forall j | 0 <= j < i :: !Answers(volumes[j], key)
  {
    if volumes == [] || Answers(volumes[0], key) then 0 else 1 + FindVolume(volumes[1..], key)
  }

  predicate HasVolume(volumes: seq<Volume>, key: string) {
    FindVolume(volumes, key) < |volumes|
  }

  predicate PathUsed(volumes: seq<Volume>, path: string) {
    exists i | 0 <= i < |volumes| :: volumes[i].path == path
  }

  predicate HasSnapshot(snapshots: seq<Snapshot>, volume: string, name: string) {
    exists i | 0 <= i < |snapshots| :: snapshots[i].volume == volume && snapshots[i].name == name
  }

  function FindSnapshot(snapshots: seq<Snapshot>, key: string): (i: nat)
    ensures i <= |snapshots|
    ensures i < |snapshots| ==> snapshots[i].id == key || snapshots[i].name == key
    ensures forall j | 0 <= j < i :: snapshots[j].id != key && snapshots[j].name != key
  {
    if snapshots == [] || snapshots[0].id == key || snapshots[0].name == key then 0
    else 1 + FindSnapshot(snapshots[1..], key)
  }

  /** The lists are in memory; the file follows when writing it succeeds. */
  function Saved(s: State, lists: Lists, persistRc: int): State {
    State(lists, if persistRc == 0 then Some(StateText(lists)) else s.file)
  }

  function NewVolume(d: Def, id: string, now: nat): Volume {
    Volume(id, d.name, d.path, Sanitize(d.description, DESC_MAX - 1), d.sizeLimit, if d.readonly then 1 else 0, now)
  }

  /** Why a volume cannot be created, or 0. */
  function CreateCheck(volumes: seq<Volume>, d: Def, kind: PathKind, mkdirRc: int): int {
    if ValidLabel(d.name, NAME_MAX) != 0 then ValidLabel(d.name, NAME_MAX)
    else if ValidPath(d.path) != 0 then ValidPath(d.path)
    else if HasVolume(volumes, d.name) then EEXIST
    else if PathUsed(volumes, d.path) then EEXIST
    else
      match kind
      case Unreadable(e) => e
      case Other => ENOTDIR
      case Missing => mkdirRc
      case Directory => 0
  }

  function CreateSpec(s: State, d: Def, kind: PathKind, mkdirRc: int, id: string, now: nat, persistRc: int): (State, int) {
    var rc := CreateCheck(s.lists.volumes, d, kind, mkdirRc);
    if rc != 0 then (s, rc)
    else if persistRc != 0 then (s, persistRc)
    else (Saved(s, s.lists.(volumes := [NewVolume(d, id, now)] + s.lists.volumes), 0), 0)
  }

  function WithoutAt<T>(s: seq<T>, i: nat): seq<T>
    requires i < |s|
  {
    s[..i] + s[i + 1..]
  }

  /** What nftw returns as an error number: -1 stands for its own failure. */
  function RmError(rmRc: int): int {
    if rmRc == -1 then EIO else rmRc
  }

  function DeleteSpec(s: State, key: string, kind: PathKind, rmRc: int, persistRc: int): (State, int) {
    var i := FindVolume(s.lists.volumes, key);
    if key == "" then (s, EINVAL)
    else if i == |s.lists.volumes| then (s, ENOENT)
    else if s.lists.volumes[i].readonly != 0 then (s, EPERM)
    else if s.lists.volumes[i].path == "/" then (s, EINVAL)
    else if kind.Other? then (s, ENOTDIR)
    else if kind.Directory? && rmRc != 0 then (s, RmError(rmRc))
    else (Saved(s, s.lists.(volumes := WithoutAt(s.lists.volumes, i)), persistRc), persistRc)
  }

  function UnregisterSpec(s: State, key: string, persistRc: int): (State, int) {
    var i := FindVolume(s.lists.volumes, key);
    if key == "" then (s, EINVAL)
    else if i == |s.lists.volumes| then (s, ENOENT)
    else (Saved(s, s.lists.(volumes := WithoutAt(s.lists.volumes, i)), persistRc), persistRc)
  }

  function SnapshotPath(stateDir: string, volume: string, name: string): string {
    stateDir + "/snapshots/" + volume + "/" + name
  }

  /** First critical section of a snapshot. */
  function BeginSpec(s: State, stateDir: string, key: string, name: string, kind: PathKind, pathTaken: bool): (Option<Pending>, int) {
    var i := FindVolume(s.lists.volumes, key);
    if key == "" then (None, EINVAL)
    else if ValidLabel(name, NAME_MAX) != 0 then (None, ValidLabel(name, NAME_MAX))
    else if i == |s.lists.volumes| then (None, ENOENT)
    else if !kind.Directory? then (None, ENOENT)
    else if HasSnapshot(s.lists.snapshots, s.lists.volumes[i].name, name) then (None, EEXIST)
    else if pathTaken then (None, EEXIST)
    else
      var volume := s.lists.volumes[i].name;
      (Some(Pending(volume, name, SnapshotPath(stateDir, volume, name))), 0)
  }

  /** The copy has ended with copyRc; second critical section of a snapshot. */
  function CommitSpec(s: State, p: Pending, copyRc: int, id: string, now: nat, persistRc: int): (State, int) {
    if copyRc != 0 then (s, copyRc)
    else if !HasVolume(s.lists.volumes, p.volume) then (s, ENOENT)
    else if HasSnapshot(s.lists.snapshots, p.volume, p.name) then (s, EEXIST)
    else if persistRc != 0 then (s, persistRc)
    else (Saved(s, s.lists.(snapshots := [Snapshot(id, p.name, p.volume, p.path, now, 1)] + s.lists.snapshots), 0), 0)
  }

  function DropSpec(s: State, key: string, persistRc: int, rmRc: int): (State, int) {
    var i := FindSnapshot(s.lists.snapshots, key);
    if key == "" then (s, EINVAL)
    else if i == |s.lists.snapshots| then (s, ENOENT)
    else
      (Saved(s, s.lists.(snapshots := WithoutAt(s.lists.snapshots, i)), persistRc),
       if persistRc == 0 && rmRc != 0 then RmError(rmRc) else persistRc)
  }

  /** The critical section of a restore: what is copied where. */
  function RestoreSpec(s: State, key: string, target: string, snapKind: PathKind, volKind: PathKind): (Option<(string, string)>, int) {
    var i := FindSnapshot(s.lists.snapshots, key);
    if key == "" then (None, EINVAL)
    else if i == |s.lists.snapshots| then (None, ENOENT)
    else
      var k := FindVolume(s.lists.volumes, if target != "" then target else s.lists.snapshots[i].volume);
      if k == |s.lists.volumes| then (None, ENOENT)
      else if s.lists.volumes[k].readonly != 0 then (None, EPERM)
      else if !snapKind.Directory? || !volKind.Directory? then (None, ENOENT)
      else (Some((s.lists.snapshots[i].path, s.lists.volumes[k].path)), 0)
  }

  /** What a start finds: the lists of the file, or empty ones. */
  function Opened(file: Option<string>): Lists {
    match file case None => Lists([], []) case Some(text) => Load(text)
  }

  // ---------------------------------------------------------------- implementation

  class Registry {
    var volumes: seq<Volume>
    var snapshots: seq<Snapshot>
    var file: Option<string>

    function ListsView(): Lists
      reads this
    {
      Lists(volumes, snapshots)
    }

    function View(): State
      reads this
    {
      State(ListsView(), file)
    }

    /** An empty registry, then what the file holds. */
    constructor Open(onDisk: Option<string>)
      ensures View() == State(Opened(onDisk), onDisk)
    {
      volumes, snapshots, file := [], [], onDisk;
      new;
      if onDisk.Some? {
        LoadState(onDisk.value);
      }
    }

    method Write() returns (text: string)
      ensures text == StateText(ListsView())
    {
      var lines := HEADER;
      var i := 0;
      assert volumes[0..] == volumes;
      while i < |volumes|
        invariant 0 <= i <= |volumes|
        invariant lines + AllVolumeLines(volumes[i..]) == HEADER + AllVolumeLines(volumes)
      {
        assert volumes[i..][1..] == volumes[i + 1..];
        ConcatAssoc(lines, VolumeLines(volumes[i]), AllVolumeLines(volumes[i + 1..]));
        lines := lines + VolumeLines(volumes[i]);
        i := i + 1;
      }
      ghost var front := lines;
      assert front + [] == front && front == HEADER + AllVolumeLines(volumes);
      var j := 0;
      assert snapshots[0..] == snapshots;
      while j < |snapshots|
        invariant 0 <= j <= |snapshots|
        invariant lines + AllSnapshotLines(snapshots[j..]) == front + AllSnapshotLines(snapshots)
      {
        assert snapshots[j..][1..] == snapshots[j + 1..];
        ConcatAssoc(lines, SnapshotLines(snapshots[j]), AllSnapshotLines(snapshots[j + 1..]));
        lines := lines + SnapshotLines(snapshots[j]);
        j := j + 1;
      }
      assert lines + [] == lines;
      ConcatAssoc(HEADER, AllVolumeLines(volumes), AllSnapshotLines(snapshots));
      text := ConcatMap(Terminated, lines);
    }

    /** The temporary file replaces the state file only when everything went well. */
    method Persist(rc: int)
      modifies this`file
      ensures View() == Saved(old(View()), old(ListsView()), rc)
    {
      if rc == 0 {
        var text := Write();
        file := Some(text);
      }
    }

    method Push(current: Current, complete: bool)
      modifies this`volumes, this`snapshots
      ensures ListsView() == Commit(Reader(current, complete, old(ListsView())))
    {
      if complete {
        match current {
          case Nothing =>
          case InVolume(v) => volumes := [v] + volumes;
          case InSnapshot(s) => snapshots := [s] + snapshots;
        }
      }
    }

    /** Reads the file into an empty registry. */
    method LoadState(text: string)
      requires ListsView() == Lists([], [])
      modifies this`volumes, this`snapshots
      ensures ListsView() == Load(text)
    {
      var current, complete := Nothing, false;
      var rest := text;
      while rest != []
        invariant Steps(Reader(current, complete, ListsView()), LinesOf(FileLines(rest, LINE_MAX))) ==
                  Steps(START, LinesOf(FileLines(text, LINE_MAX)))
        decreases |rest|
      {
        var n := FgetsLen(rest, LINE_MAX);
        var line := LineOf(rest[..n]);
        assert FileLines(rest, LINE_MAX)[1..] == FileLines(rest[n..], LINE_MAX);
        StepsHead(Reader(current, complete, ListsView()), line, LinesOf(FileLines(rest[n..], LINE_MAX)));
        match line {
          case Skip =>
          case StartVolume =>
            Push(current, complete);
            current, complete := InVolume(NO_VOLUME), false;
          case StartSnapshot =>
            Push(current, complete);
            current, complete := InSnapshot(NO_SNAPSHOT), false;
          case Set(f, value) =>
            match current {
              case Nothing =>
              case InVolume(v) =>
                var v' := SetVolume(v, f, value);
                current, complete := InVolume(v'), complete || CompleteVolume(v');
              case InSnapshot(s) =>
                var s' := SetSnapshot(s, f, value);
                current, complete := InSnapshot(s'), complete || CompleteSnapshot(s');
            }
        }
        rest := rest[n..];
      }
      Push(current, complete);
    }

    method LookupVolume(key: string) returns (i: nat)
      ensures i == FindVolume(volumes, key)
    {
      i := 0;
      while i < |volumes| && volumes[i].id != key && volumes[i].name != key
        invariant i <= |volumes|
        invariant FindVolume(volumes, key) == i + FindVolume(volumes[i..], key)
      {
        assert volumes[i..][1..] == volumes[i + 1..];
        i := i + 1;
      }
    }

    method LookupSnapshot(key: string) returns (i: nat)
      ensures i == FindSnapshot(snapshots, key)
    {
      i := 0;
      while i < |snapshots| && snapshots[i].id != key && snapshots[i].name != key
        invariant i <= |snapshots|
        invariant FindSnapshot(snapshots, key) == i + FindSnapshot(snapshots[i..], key)
      {
        assert snapshots[i..][1..] == snapshots[i + 1..];
        i := i + 1;
      }
    }

    method LookupSnapshotIn(volume: string, name: string) returns (found: bool)
      ensures found == HasSnapshot(snapshots, volume, name)
    {
      found := false;
      for i := 0 to |snapshots|
        invariant !found && !HasSnapshot(snapshots[..i], volume, name)
      {
        if snapshots[i].volume == volume && snapshots[i].name == name {
          return true;
        }
      }
      assert snapshots[..|snapshots|] == snapshots;
    }

    method CreateVolume(d: Def, kind: PathKind, mkdirRc: int, id: string, now: nat, persistRc: int) returns (rc: int)
      modifies this
      ensures (View(), rc) == CreateSpec(old(View()), d, kind, mkdirRc, id, now, persistRc)
    {
      if ValidLabel(d.name, NAME_MAX) != 0 {
        return ValidLabel(d.name, NAME_MAX);
      }
      if ValidPath(d.path) != 0 {
        return ValidPath(d.path);
      }
      var i := LookupVolume(d.name);
      if i < |volumes| {
        return EEXIST;
      }
      for k := 0 to |volumes|
        invariant !PathUsed(volumes[..k], d.path)
      {
        if volumes[k].path == d.path {
          return EEXIST;
        }
      }
      assert volumes[..|volumes|] == volumes;
      match kind {
        case Unreadable(e) =>
          if e != 0 {
            return e;
          }
        case Other => return ENOTDIR;
        case Missing =>
          if mkdirRc != 0 {
            return mkdirRc;
          }
        case Directory =>
      }
      var before := volumes;
      volumes := [NewVolume(d, id, now)] + volumes;
      Persist(persistRc);
      if persistRc != 0 {
        volumes := before;
      }
      return persistRc;
    }

    method DeleteVolume(key: string, kind: PathKind, rmRc: int, persistRc: int) returns (rc: int)
      modifies this
      ensures (View(), rc) == DeleteSpec(old(View()), key, kind, rmRc, persistRc)
    {
      if key == "" {
        return EINVAL;
      }
      var i := LookupVolume(key);
      if i == |volumes| {
        return ENOENT;
      }
      if volumes[i].readonly != 0 {
        return EPERM;
      }
      if volumes[i].path == "/" {
        return EINVAL;
      }
      if kind.Other? {
        return ENOTDIR;
      }
      if kind.Directory? && rmRc != 0 {
        return RmError(rmRc);
      }
      volumes := volumes[..i] + volumes[i + 1..];
      Persist(persistRc);
      return persistRc;
    }

    method UnregisterVolume(key: string, persistRc: int) returns (rc: int)
      modifies this
      ensures (View(), rc) == UnregisterSpec(old(View()), key, persistRc)
    {
      if key == "" {
        return EINVAL;
      }
      var i := LookupVolume(key);
      if i == |volumes| {
        return ENOENT;
      }
      volumes := volumes[..i] + volumes[i + 1..];
      Persist(persistRc);
      return persistRc;
    }

    method SnapshotBegin(stateDir: string, key: string, name: string, kind: PathKind, pathTaken: bool)
      returns (p: Option<Pending>, rc: int)
      ensures (p, rc) == BeginSpec(View(), stateDir, key, name, kind, pathTaken)
    {
      if key == "" {
        return None, EINVAL;
      }
      if ValidLabel(name, NAME_MAX) != 0 {
        return None, ValidLabel(name, NAME_MAX);
      }
      var i := LookupVolume(key);
      if i == |volumes| || !kind.Directory? {
        return None, ENOENT;
      }
      var clash := LookupSnapshotIn(volumes[i].name, name);
      if clash || pathTaken {
        return None, EEXIST;
      }
      return Some(Pending(volumes[i].name, name, SnapshotPath(stateDir, volumes[i].name, name))), 0;
    }

    method SnapshotCommit(p: Pending, copyRc: int, id: string, now: nat, persistRc: int) returns (rc: int)
      modifies this
      ensures (View(), rc) == CommitSpec(old(View()), p, copyRc, id, now, persistRc)
    {
      if copyRc != 0 {
        return copyRc;
      }
      var i := LookupVolume(p.volume);
      if i == |volumes| {
        return ENOENT;
      }
      var clash := LookupSnapshotIn(p.volume, p.name);
      if clash {
        return EEXIST;
      }
      var before := snapshots;
      snapshots := [Snapshot(id, p.name, p.volume, p.path, now, 1)] + snapshots;
      Persist(persistRc);
      if persistRc != 0 {
        snapshots := before;
      }
      return persistRc;
    }

    method SnapshotDelete(key: string, persistRc: int, rmRc: int) returns (rc: int)
      modifies this
      ensures (View(), rc) == DropSpec(old(View()), key, persistRc, rmRc)
    {
      if key == "" {
        return EINVAL;
      }
      var i := LookupSnapshot(key);
      if i == |snapshots| {
        return ENOENT;
      }
      snapshots := snapshots[..i] + snapshots[i + 1..];
      Persist(persistRc);
      return if persistRc == 0 && rmRc != 0 then RmError(rmRc) else persistRc;
    }

    method SnapshotRestore(key: string, target: string, snapKind: PathKind, volKind: PathKind)
      returns (paths: Option<(string, string)>, rc: int)
      ensures (paths, rc) == RestoreSpec(View(), key, target, snapKind, volKind)
    {
      if key == "" {
        return None, EINVAL;
      }
      var i := LookupSnapshot(key);
      if i == |snapshots| {
        return None, ENOENT;
      }
      var k := LookupVolume(if target != "" then target else snapshots[i].volume);
      if k == |volumes| {
        return None, ENOENT;
      }
      if volumes[k].readonly != 0 {
        return None, EPERM;
      }
      if !snapKind.Directory? || !volKind.Directory? {
        return None, ENOENT;
      }
      return Some((snapshots[i].path, volumes[k].path)), 0;
    }
  }
}
