/**
  The state file of the storage registry: blocks of `key=value` lines, written
  in full and read back line by line (storage/src/storage_impl.c,
  storage_persist, storage_load).
 */
module StorageText {
  import opened CText

  const ID_MAX: nat := 40
  const NAME_MAX: nat := 128
  const PATH_MAX: nat := 512
  const DESC_MAX: nat := 256
  const LINE_MAX: nat := 2048

  datatype Volume = Volume(
    id: string, name: string, path: string, description: string, sizeLimit: nat, readonly: int, createdAt: nat)

  datatype Snapshot = Snapshot(
    id: string, name: string, volume: string, path: string, createdAt: nat, active: int)

  datatype Lists = Lists(volumes: seq<Volume>, snapshots: seq<Snapshot>)

  const NO_VOLUME: Volume := Volume("", "", "", "", 0, 0, 0)
  const NO_SNAPSHOT: Snapshot := Snapshot("", "", "", "", 0, 0)

  // ---------------------------------------------------------------- keys

  datatype Field = Id | Name | Path | Description | SizeLimit | Readonly | CreatedAt | OfVolume | Active

  function KeyOf(f: Field): string {
    match f
    case Id => "id"
    case Name => "name"
    case Path => "path"
    case Description => "description"
    case SizeLimit => "size_limit"
    case Readonly => "readonly"
    case CreatedAt => "created_at"
    case OfVolume => "volume"
    case Active => "active"
  }

  function FieldOf(key: string): Option<Field> {
    if key == "id" then Some(Id)
    else if key == "name" then Some(Name)
    else if key == "path" then Some(Path)
    else if key == "description" then Some(Description)
    else if key == "size_limit" then Some(SizeLimit)
    else if key == "readonly" then Some(Readonly)
    else if key == "created_at" then Some(CreatedAt)
    else if key == "volume" then Some(OfVolume)
    else if key == "active" then Some(Active)
    else None
  }

  // ---------------------------------------------------------------- writing

  function FieldLine(f: Field, value: string): string {
    KeyOf(f) + "=" + value
  }

  datatype Entry = Entry(field: Field, value: string)

  function VolumeEntries(v: Volume): seq<Entry> {
    [Entry(Id, v.id), Entry(Name, v.name), Entry(Path, v.path),
     Entry(SizeLimit, Dec(v.sizeLimit)), Entry(Readonly, DecInt(v.readonly)),
     Entry(CreatedAt, Dec(v.createdAt)), Entry(Description, v.description)]
  }

  function SnapshotEntries(s: Snapshot): seq<Entry> {
    [Entry(Id, s.id), Entry(Name, s.name), Entry(OfVolume, s.volume), Entry(Path, s.path),
     Entry(CreatedAt, Dec(s.createdAt)), Entry(Active, DecInt(s.active))]
  }

  function EntryLines(entries: seq<Entry>): (lines: seq<string>)
    ensures |lines| == |entries|
    ensures forall i | 0 <= i < |lines| :: lines[i] == FieldLine(entries[i].field, entries[i].value)
  {
    if entries == [] then [] else [FieldLine(entries[0].field, entries[0].value)] + EntryLines(entries[1..])
  }

  /** A block: its type, its fields, an empty line. */
  function BlockLines(kind: string, entries: seq<Entry>): seq<string> {
    [kind] + EntryLines(entries) + [""]
  }

  function VolumeLines(v: Volume): seq<string> {
    BlockLines("volume", VolumeEntries(v))
  }

  function SnapshotLines(s: Snapshot): seq<string> {
    BlockLines("snapshot", SnapshotEntries(s))
  }

  function AllVolumeLines(volumes: seq<Volume>): seq<string> {
    if volumes == [] then [] else VolumeLines(volumes[0]) + AllVolumeLines(volumes[1..])
  }

  function AllSnapshotLines(snapshots: seq<Snapshot>): seq<string> {
    if snapshots == [] then [] else SnapshotLines(snapshots[0]) + AllSnapshotLines(snapshots[1..])
  }

  /** The comment lines at the head; their non-ASCII characters stand for their bytes, and no reader looks at them. */
  const TITLE: string := "# HWRun OS STORAGE 注册表状态文件（可读格式，v1）"
  const NOTICE: string := "# 自动生成，勿手改；块间以空行分隔"
  const HEADER: seq<string> := [TITLE, NOTICE, ""]

  function StateLines(r: Lists): seq<string> {
    HEADER + (AllVolumeLines(r.volumes) + AllSnapshotLines(r.snapshots))
  }

  /** What storage_persist writes. */
  function StateText(r: Lists): string {
    ConcatMap(Terminated, StateLines(r))
  }

  // ---------------------------------------------------------------- reading

  function SkipEdges(s: string): (t: string)
    ensures |t| <= |s| && (t == [] || !IsEdge(t[0]))
  {
    if s != [] && IsEdge(s[0]) then SkipEdges(s[1..]) else s
  }

  /** storage_strtrim */
  function StrTrim(s: string): string {
    TrimEnd(SkipEdges(s))
  }

  /** What one line of the file asks for. */
  datatype Line = Skip | StartVolume | StartSnapshot | Set(field: Option<Field>, value: string)

  function Classify(line: string): Line {
    if line == [] || line[0] == '#' then Skip
    else if line == "volume" then StartVolume
    else if line == "snapshot" then StartSnapshot
    else
      var eq := IndexOf(line, '=');
      if eq == |line| then Skip else Set(FieldOf(line[..eq]), line[eq + 1..])
  }

  datatype Current = Nothing | InVolume(volume: Volume) | InSnapshot(snapshot: Snapshot)

  /** The record being read, whether it is complete, and the records read before. */
  datatype Reader = Reader(current: Current, complete: bool, lists: Lists)

  const START: Reader := Reader(Nothing, false, Lists([], []))

  /** atoi: strtol cut down to 32 bits. */
  function Atoi(s: string): int {
    var low := Strtoll(s) % 0x1_0000_0000;
    if low < 0x8000_0000 then low else low - 0x1_0000_0000
  }

  function SetVolume(v: Volume, f: Option<Field>, value: string): Volume {
    match f
    case Some(Id) => v.(id := Clip(value, ID_MAX))
    case Some(Name) => v.(name := Clip(value, NAME_MAX))
    case Some(Path) => v.(path := Clip(value, PATH_MAX))
    case Some(Description) => v.(description := Clip(value, DESC_MAX))
    case Some(SizeLimit) => v.(sizeLimit := Strtoull(value))
    case Some(Readonly) => v.(readonly := Atoi(value))
    case Some(CreatedAt) => v.(createdAt := Strtoull(value))
    case _ => v
  }

  function SetSnapshot(s: Snapshot, f: Option<Field>, value: string): Snapshot {
    match f
    case Some(Id) => s.(id := Clip(value, ID_MAX))
    case Some(Name) => s.(name := Clip(value, NAME_MAX))
    case Some(OfVolume) => s.(volume := Clip(value, NAME_MAX))
    case Some(Path) => s.(path := Clip(value, PATH_MAX))
    case Some(CreatedAt) => s.(createdAt := Strtoull(value))
    case Some(Active) => s.(active := Atoi(value))
    case _ => s
  }

  predicate CompleteVolume(v: Volume) {
    v.id != "" && v.name != "" && v.path != ""
  }

  predicate CompleteSnapshot(s: Snapshot) {
    s.id != "" && s.name != "" && s.volume != "" && s.path != ""
  }

  /** The record read so far goes to the head of its list, if it is complete. */
  function Commit(r: Reader): Lists {
    if !r.complete then r.lists
    else
      match r.current
      case Nothing => r.lists
      case InVolume(v) => r.lists.(volumes := [v] + r.lists.volumes)
      case InSnapshot(s) => r.lists.(snapshots := [s] + r.lists.snapshots)
  }

  function Step(r: Reader, line: Line): Reader {
    match line
    case Skip => r
    case StartVolume => Reader(InVolume(NO_VOLUME), false, Commit(r))
    case StartSnapshot => Reader(InSnapshot(NO_SNAPSHOT), false, Commit(r))
    case Set(f, value) =>
      match r.current
      case Nothing => r
      case InVolume(v) =>
        var v' := SetVolume(v, f, value);
        r.(current := InVolume(v'), complete := r.complete || CompleteVolume(v'))
      case InSnapshot(s) =>
        var s' := SetSnapshot(s, f, value);
        r.(current := InSnapshot(s'), complete := r.complete || CompleteSnapshot(s'))
  }

  function Steps(r: Reader, lines: seq<Line>): Reader
    decreases |lines|
  {
    if lines == [] then r else Steps(Step(r, lines[0]), lines[1..])
  }

  function LineOf(buffer: string): Line {
    Classify(StrTrim(CStr(buffer)))
  }

  function LinesOf(buffers: seq<string>): seq<Line> {
    if buffers == [] then [] else [LineOf(buffers[0])] + LinesOf(buffers[1..])
  }

  /** The lists that storage_load leaves in memory. */
  function Load(text: string): Lists {
    Commit(Steps(START, LinesOf(FileLines(text, LINE_MAX))))
  }

  lemma StepsHead(r: Reader, line: Line, rest: seq<Line>)
    ensures Steps(r, [line] + rest) == Steps(Step(r, line), rest)
  {
    assert ([line] + rest)[1..] == rest;
  }

  // ---------------------------------------------------------------- the format

  /** A key is known exactly when it is the one that is written for a field. */
  lemma FieldIff(key: string, f: Field)
    ensures FieldOf(key) == Some(f) <==> key == KeyOf(f)
  {
  }

  /** The block of a volume: its kind, a line for every field, an empty line. */
  lemma VolumeBlock(v: Volume)
    ensures var l := VolumeLines(v);
      && |l| == 9 && l[0] == "volume" && l[1] == "id" + "=" + v.id && l[2] == "name" + "=" + v.name
      && l[3] == "path" + "=" + v.path && l[4] == "size_limit" + "=" + Dec(v.sizeLimit)
      && l[5] == "readonly" + "=" + DecInt(v.readonly) && l[6] == "created_at" + "=" + Dec(v.createdAt)
      && l[7] == "description" + "=" + v.description && l[8] == ""
  {
    BlockAt("volume", VolumeEntries(v));
  }

  /** The block of a snapshot. */
  lemma SnapshotBlock(s: Snapshot)
    ensures var l := SnapshotLines(s);
      && |l| == 8 && l[0] == "snapshot" && l[1] == "id" + "=" + s.id && l[2] == "name" + "=" + s.name
      && l[3] == "volume" + "=" + s.volume && l[4] == "path" + "=" + s.path
      && l[5] == "created_at" + "=" + Dec(s.createdAt) && l[6] == "active" + "=" + DecInt(s.active) && l[7] == ""
  {
    BlockAt("snapshot", SnapshotEntries(s));
  }

  lemma BlockAt(kind: string, entries: seq<Entry>)
    ensures var l := BlockLines(kind, entries);
      && |l| == |entries| + 2 && l[0] == kind && l[|entries| + 1] == ""
      && forall i | 1 <= i <= |entries| :: l[i] == KeyOf(entries[i - 1].field) + "=" + entries[i - 1].value
  {
    var l, fields := BlockLines(kind, entries), EntryLines(entries);
    forall i | 1 <= i <= |entries|
      ensures l[i] == KeyOf(entries[i - 1].field) + "=" + entries[i - 1].value
    {
      assert l[i] == fields[i - 1];
    }
  }

  lemma {:induction false} EdgesSkipped(edges: string, s: string)
    requires (forall i | 0 <= i < |edges| :: IsEdge(edges[i])) && (s == "" || !IsEdge(s[0]))
    ensures SkipEdges(edges + s) == s
  {
    if edges == "" {
      assert edges + s == s;
    } else {
      assert (edges + s)[1..] == edges[1..] + s;
      EdgesSkipped(edges[1..], s);
    }
  }

  /** Blanks and line ends around a line do not matter. */
  lemma EdgesIgnored(before: string, line: string, behind: string)
    requires forall i | 0 <= i < |before| :: before[i] in {' ', '\t', '\r', '\n'}
    requires forall i | 0 <= i < |behind| :: behind[i] in {' ', '\t', '\r', '\n'}
    requires NUL !in line && line != "" && !IsEdge(line[0]) && !IsEdge(line[|line| - 1])
    ensures LineOf(before + line + behind) == Classify(line)
  {
    var s := before + line + behind;
    assert s == before + (line + behind) && NUL !in s;
    CStrId(s);
    assert (line + behind)[0] == line[0];
    EdgesSkipped(before, line + behind);
    TrimEndCons(line, behind);
  }

  /** A comment, an empty line, a line without an equals sign, and one with a key that is not known. */
  predicate Noise(line: string) {
    || line == "" || line[0] == '#'
    || (line != "volume" && line != "snapshot" && ('=' !in line || FieldOf(line[..IndexOf(line, '=')]) == None))
  }

  lemma NoiseClass(line: string)
    requires Noise(line)
    ensures Classify(line) == Skip || (Classify(line).Set? && Classify(line).field == None)
  {
    if '=' !in line {
      IndexOfAbsent(line, '=');
    }
  }

  /** Such lines leave every record as it is. */
  lemma NoiseIgnored(r: Reader, line: string)
    requires Noise(line)
    ensures var t := Step(r, Classify(line));
      t.current == r.current && t.lists == r.lists && (r.complete ==> t.complete)
  {
    NoiseClass(line);
    NothingSet(r, Classify(line));
  }

  lemma NothingSet(r: Reader, line: Line)
    requires line == Skip || (line.Set? && line.field == None)
    ensures var t := Step(r, line);
      t.current == r.current && t.lists == r.lists && (r.complete ==> t.complete)
  {
  }
}
