/**
  What comes back from a saved registry: the same records in the opposite order,
  without the blanks at their ends (storage/src/storage_impl.c, storage_persist,
  storage_load).
 */
module StorageRoundTrip {
  import opened CText
  import opened StorageText

  // ---------------------------------------------------------------- records

  predicate Clean(s: string) {
    '\n' !in s && NUL !in s
  }

  predicate Int32(i: int) {
    -0x8000_0000 <= i < 0x8000_0000
  }

  /** Fields within their buffers and without line ends; an id has no blanks at its end, a volume's path starts with a slash. */
  predicate VolumeOk(v: Volume) {
    && 0 < |v.id| < ID_MAX && Clean(v.id) && TrimEnd(v.id) == v.id
    && 0 < |v.name| < NAME_MAX && Clean(v.name)
    && 0 < |v.path| < PATH_MAX && Clean(v.path) && v.path[0] == '/'
    && |v.description| < DESC_MAX && Clean(v.description)
    && v.sizeLimit < TWO_POW_64 && v.createdAt < TWO_POW_64 && Int32(v.readonly)
  }

  predicate SnapshotOk(s: Snapshot) {
    && 0 < |s.id| < ID_MAX && Clean(s.id) && TrimEnd(s.id) == s.id
    && 0 < |s.name| < NAME_MAX && Clean(s.name)
    && 0 < |s.volume| < NAME_MAX && Clean(s.volume)
    && 0 < |s.path| < PATH_MAX && Clean(s.path)
    && s.createdAt < TWO_POW_64 && Int32(s.active)
  }

  ghost predicate ListsOk(x: Lists) {
    && (forall i | 0 <= i < |x.volumes| :: VolumeOk(x.volumes[i]))
    && (forall i | 0 <= i < |x.snapshots| :: SnapshotOk(x.snapshots[i]))
  }

  /** The record as it is read back. */
  function VolumeBack(v: Volume): Volume {
    v.(id := TrimEnd(v.id), name := TrimEnd(v.name), path := TrimEnd(v.path), description := TrimEnd(v.description))
  }

  function SnapshotBack(s: Snapshot): Snapshot {
    s.(id := TrimEnd(s.id), name := TrimEnd(s.name), volume := TrimEnd(s.volume), path := TrimEnd(s.path))
  }

  /** A record whose name is all blanks is not complete and is lost. */
  function VolumesBack(volumes: seq<Volume>): seq<Volume> {
    if volumes == [] then []
    else (if CompleteVolume(VolumeBack(volumes[0])) then [VolumeBack(volumes[0])] else []) + VolumesBack(volumes[1..])
  }

  function SnapshotsBack(snapshots: seq<Snapshot>): seq<Snapshot> {
    if snapshots == [] then []
    else (if CompleteSnapshot(SnapshotBack(snapshots[0])) then [SnapshotBack(snapshots[0])] else []) + SnapshotsBack(snapshots[1..])
  }

  /** The registry after a restart. */
  function Restarted(x: Lists): Lists {
    Lists(Reverse(VolumesBack(x.volumes)), Reverse(SnapshotsBack(x.snapshots)))
  }

  // ---------------------------------------------------------------- lines

  predicate GoodLine(l: string) {
    Clean(l) && |l| + 1 < LINE_MAX && (l == [] || !IsEdge(l[0]))
  }

  function Item(l: string): Line {
    Classify(StrTrim(l))
  }

  function Items(read: string -> Line, lines: seq<string>): (items: seq<Line>)
    ensures |items| == |lines| && forall i | 0 <= i < |items| :: items[i] == read(lines[i])
  {
    if lines == [] then [] else [read(lines[0])] + Items(read, lines[1..])
  }

  lemma ItemsAppend(read: string -> Line, a: seq<string>, b: seq<string>)
    ensures Items(read, a + b) == Items(read, a) + Items(read, b)
  {
  }

  lemma ItemsAre(read: string -> Line, lines: seq<string>, items: seq<Line>)
    requires |items| == |lines| && forall i | 0 <= i < |items| :: items[i] == read(lines[i])
    ensures Items(read, lines) == items
  {
  }

  /** How the lines that the program writes are read. */
  ghost predicate ReadsFields(read: string -> Line) {
    && read("volume") == StartVolume && read("snapshot") == StartSnapshot && read("") == Skip
    && forall f: Field, value: string {:trigger FieldLine(f, value)} ::
         read(FieldLine(f, value)) == Set(Some(f), TrimEnd(value))
  }

  lemma TrimTerminated(l: string)
    requires GoodLine(l)
    ensures StrTrim(CStr(l + "\n")) == StrTrim(l)
  {
    CStrId(l + "\n");
    if l == [] {
      assert l + "\n" == "\n" && "\n"[1..] == [];
    } else {
      assert (l + "\n")[..|l|] == l;
      assert SkipEdges(l + "\n") == l + "\n" && SkipEdges(l) == l;
    }
  }

  /** A text written line by line is read line by line. */
  lemma {:induction false} TextItems(lines: seq<string>)
    requires forall i | 0 <= i < |lines| :: GoodLine(lines[i])
    ensures LinesOf(FileLines(ConcatMap(Terminated, lines), LINE_MAX)) == Items(Item, lines)
  {
    if lines != [] {
      var l, rest := lines[0], ConcatMap(Terminated, lines[1..]);
      TextItems(lines[1..]);
      FileLinesCons(l, rest, LINE_MAX);
      TrimTerminated(l);
      var buffers := FileLines(l + "\n" + rest, LINE_MAX);
      assert buffers[0] == l + "\n" && buffers[1..] == FileLines(rest, LINE_MAX);
    }
  }

  predicate GoodKey(key: string) {
    && 0 < |key| < 20 && Clean(key) && '=' !in key
    && !IsEdge(key[0]) && key[0] != '#'
  }

  lemma KeyShape(f: Field)
    ensures GoodKey(KeyOf(f))
  {
  }

  lemma KeyBack(f: Field)
    ensures FieldOf(KeyOf(f)) == Some(f)
  {
  }

  lemma KeyedTrim(key: string, value: string)
    requires GoodKey(key)
    ensures StrTrim(key + "=" + value) == key + "=" + TrimEnd(value)
  {
    var head := key + "=";
    assert head[0] == key[0] && (head + value)[0] == key[0];
    assert SkipEdges(head + value) == head + value;
    TrimEndAfter(head, value);
  }

  lemma NotKeywords(line: string, k: nat)
    requires k < |line| && line[k] == '='
    ensures line != "volume" && line != "snapshot"
  {
    assert forall i | 0 <= i < |"volume"| :: "volume"[i] != '=';
    assert forall i | 0 <= i < |"snapshot"| :: "snapshot"[i] != '=';
  }

  lemma KeyedSet(key: string, value: string)
    requires GoodKey(key)
    ensures Classify(key + "=" + value) == Set(FieldOf(key), value)
  {
    var line := key + "=" + value;
    assert line[0] == key[0];
    NotKeywords(line, |key|);
    IndexOfAfter(key, '=', value);
    assert line == key + ['='] + value;
    assert line[..|key|] == key && line[|key| + 1..] == value;
  }

  lemma FieldItem(f: Field, value: string)
    ensures Item(FieldLine(f, value)) == Set(Some(f), TrimEnd(value))
  {
    KeyShape(f);
    KeyBack(f);
    KeyedTrim(KeyOf(f), value);
    KeyedSet(KeyOf(f), TrimEnd(value));
  }

  lemma FieldLineGood(f: Field, value: string)
    requires Clean(value) && |value| < PATH_MAX
    ensures GoodLine(FieldLine(f, value))
  {
    KeyShape(f);
    assert FieldLine(f, value)[0] == KeyOf(f)[0];
  }

  lemma DecClean(n: nat)
    requires n < TWO_POW_64
    ensures Clean(Dec(n)) && |Dec(n)| < PATH_MAX && TrimEnd(Dec(n)) == Dec(n)
  {
    UnsignedRoundTrip(n);
    assert IsDigit(Dec(n)[|Dec(n)| - 1]);
  }

  lemma DecIntClean(i: int)
    requires Int32(i)
    ensures Clean(DecInt(i)) && |DecInt(i)| < PATH_MAX && TrimEnd(DecInt(i)) == DecInt(i)
    ensures Atoi(DecInt(i)) == i
  {
    SignedRoundTrip(i);
    DecIntChars(i);
    NumberUntrimmed(DecInt(i));
    AtoiBack(i);
  }

  lemma NumberUntrimmed(s: string)
    requires s != "" && forall k | 0 <= k < |s| :: IsDigit(s[k]) || s[k] == '-'
    ensures TrimEnd(s) == s && Clean(s)
  {
    assert IsDigit(s[|s| - 1]) || s[|s| - 1] == '-';
  }

  lemma AtoiBack(i: int)
    requires Int32(i)
    ensures Atoi(DecInt(i)) == i
  {
    SignedRoundTrip(i);
  }

  lemma KeywordItems()
    ensures Item("volume") == StartVolume && Item("snapshot") == StartSnapshot && Item("") == Skip
    ensures GoodLine("volume") && GoodLine("snapshot") && GoodLine("")
  {
    assert SkipEdges("volume") == "volume" && SkipEdges("snapshot") == "snapshot";
  }

  lemma ItemReadsFields()
    ensures ReadsFields(Item)
  {
    KeywordItems();
    forall f: Field, value: string
      ensures Item(FieldLine(f, value)) == Set(Some(f), TrimEnd(value))
    {
      FieldItem(f, value);
    }
  }

  // ---------------------------------------------------------------- blocks

  /** An entry as it is read. */
  function EntryItem(e: Entry): Line {
    Set(Some(e.field), TrimEnd(e.value))
  }

  function EntryItems(entries: seq<Entry>): (items: seq<Line>)
    ensures |items| == |entries| && forall i | 0 <= i < |items| :: items[i] == EntryItem(entries[i])
  {
    if entries == [] then [] else [EntryItem(entries[0])] + EntryItems(entries[1..])
  }

  function BlockItems(start: Line, entries: seq<Entry>): seq<Line> {
    [start] + EntryItems(entries) + [Skip]
  }

  lemma EntriesRead(read: string -> Line, entries: seq<Entry>)
    requires ReadsFields(read)
    ensures Items(read, EntryLines(entries)) == EntryItems(entries)
  {
    forall i | 0 <= i < |entries|
      ensures EntryItems(entries)[i] == read(EntryLines(entries)[i])
    {
      assert read(FieldLine(entries[i].field, entries[i].value)) == EntryItem(entries[i]);
    }
    ItemsAre(read, EntryLines(entries), EntryItems(entries));
  }

  lemma ItemsOne(read: string -> Line, line: string)
    ensures Items(read, [line]) == [read(line)]
  {
  }

  lemma BlockRead(read: string -> Line, kind: string, entries: seq<Entry>)
    requires ReadsFields(read)
    ensures Items(read, BlockLines(kind, entries)) == BlockItems(read(kind), entries)
  {
    ItemsAppend(read, [kind] + EntryLines(entries), [""]);
    ItemsAppend(read, [kind], EntryLines(entries));
    ItemsOne(read, kind);
    ItemsOne(read, "");
    EntriesRead(read, entries);
  }

  ghost predicate EntryOk(e: Entry) {
    Clean(e.value) && |e.value| < PATH_MAX
  }

  lemma BlockGood(kind: string, entries: seq<Entry>)
    requires GoodLine(kind) && forall i | 0 <= i < |entries| :: EntryOk(entries[i])
    ensures forall i | 0 <= i < |BlockLines(kind, entries)| :: GoodLine(BlockLines(kind, entries)[i])
  {
    var fields := EntryLines(entries);
    forall i | 0 <= i < |fields|
      ensures GoodLine(fields[i])
    {
      assert EntryOk(entries[i]);
      FieldLineGood(entries[i].field, entries[i].value);
    }
    AroundGood(kind, fields);
  }

  lemma AroundGood(first: string, middle: seq<string>)
    requires GoodLine(first) && forall i | 0 <= i < |middle| :: GoodLine(middle[i])
    ensures forall i | 0 <= i < |[first] + middle + [""]| :: GoodLine(([first] + middle + [""])[i])
  {
  }

  lemma NumberEntryOk(f: Field, n: nat)
    requires n < TWO_POW_64
    ensures EntryOk(Entry(f, Dec(n))) && EntryItem(Entry(f, Dec(n))) == Set(Some(f), Dec(n))
  {
    DecClean(n);
  }

  lemma IntEntryOk(f: Field, i: int)
    requires Int32(i)
    ensures EntryOk(Entry(f, DecInt(i))) && EntryItem(Entry(f, DecInt(i))) == Set(Some(f), DecInt(i))
  {
    DecIntClean(i);
  }

  lemma VolumeLinesGood(v: Volume)
    requires VolumeOk(v)
    ensures forall i | 0 <= i < |VolumeLines(v)| :: GoodLine(VolumeLines(v)[i])
  {
    KeywordItems();
    NumberEntryOk(SizeLimit, v.sizeLimit);
    IntEntryOk(Readonly, v.readonly);
    NumberEntryOk(CreatedAt, v.createdAt);
    BlockGood("volume", VolumeEntries(v));
  }

  lemma SnapshotLinesGood(s: Snapshot)
    requires SnapshotOk(s)
    ensures forall i | 0 <= i < |SnapshotLines(s)| :: GoodLine(SnapshotLines(s)[i])
  {
    KeywordItems();
    NumberEntryOk(CreatedAt, s.createdAt);
    IntEntryOk(Active, s.active);
    BlockGood("snapshot", SnapshotEntries(s));
  }

  // ---------------------------------------------------------------- steps

  lemma {:induction false} StepsAppend(r: Reader, a: seq<Line>, b: seq<Line>)
    ensures Steps(r, a + b) == Steps(Steps(r, a), b)
    decreases |a|
  {
    if a == [] {
      assert a + b == b;
    } else {
      StepsAppend(Step(r, a[0]), a[1..], b);
      AppendHead(a, b);
    }
  }

  lemma {:induction false} StepsSkip(r: Reader, lines: seq<Line>)
    requires forall i | 0 <= i < |lines| :: lines[i] == Skip
    ensures Steps(r, lines) == r
  {
    if lines != [] {
      StepsSkip(r, lines[1..]);
    }
  }

  lemma StepsTwo(r: Reader, a: Line, b: Line)
    ensures Steps(r, [a, b]) == Step(Step(r, a), b)
  {
    StepsHead(r, a, [b]);
    StepsHead(Step(r, a), b, []);
    assert [a] + [b] == [a, b] && [b] + [] == [b];
  }

  lemma StepsFour(r: Reader, a: Line, b: Line, c: Line, d: Line)
    ensures Steps(r, [a, b, c, d]) == Step(Step(Step(Step(r, a), b), c), d)
  {
    StepsTwo(r, a, b);
    StepsTwo(Step(Step(r, a), b), c, d);
    StepsAppend(r, [a, b], [c, d]);
    assert [a, b] + [c, d] == [a, b, c, d];
  }

  /** The start of a volume's block: the fields that make it complete. */
  lemma VolumeHead(r: Reader, id: string, name: string, path: string)
    requires |id| < ID_MAX && |name| < NAME_MAX && |path| < PATH_MAX
    ensures var w := NO_VOLUME.(id := id, name := name, path := path);
      Steps(r, [StartVolume, Set(Some(Id), id), Set(Some(Name), name), Set(Some(Path), path)]) ==
      Reader(InVolume(w), CompleteVolume(w), Commit(r))
  {
    StepsFour(r, StartVolume, Set(Some(Id), id), Set(Some(Name), name), Set(Some(Path), path));
  }

  lemma VolumeTail(r: Reader, w: Volume, limit: string, readonly: string, created: string, description: string)
    requires r.current == InVolume(w) && r.complete == CompleteVolume(w) && |description| < DESC_MAX
    ensures Steps(r, [Set(Some(SizeLimit), limit), Set(Some(Readonly), readonly),
                      Set(Some(CreatedAt), created), Set(Some(Description), description)]) ==
            r.(current := InVolume(w.(sizeLimit := Strtoull(limit), readonly := Atoi(readonly),
                                      createdAt := Strtoull(created), description := description)))
  {
    StepsFour(r, Set(Some(SizeLimit), limit), Set(Some(Readonly), readonly),
              Set(Some(CreatedAt), created), Set(Some(Description), description));
  }

  lemma HalvesAndSkip(first: seq<Line>, second: seq<Line>, r: Reader)
    ensures Steps(r, first + second + [Skip]) == Steps(Steps(r, first), second)
  {
    StepsAppend(r, first + second, [Skip]);
    StepsAppend(r, first, second);
    StepsSkip(Steps(r, first + second), [Skip]);
  }

  lemma VolumeItemsAre(v: Volume)
    requires VolumeOk(v)
    ensures BlockItems(StartVolume, VolumeEntries(v)) ==
            [StartVolume, Set(Some(Id), TrimEnd(v.id)), Set(Some(Name), TrimEnd(v.name)), Set(Some(Path), TrimEnd(v.path))] +
            [Set(Some(SizeLimit), Dec(v.sizeLimit)), Set(Some(Readonly), DecInt(v.readonly)),
             Set(Some(CreatedAt), Dec(v.createdAt)), Set(Some(Description), TrimEnd(v.description))] + [Skip]
  {
    NumberEntryOk(SizeLimit, v.sizeLimit);
    IntEntryOk(Readonly, v.readonly);
    NumberEntryOk(CreatedAt, v.createdAt);
  }

  lemma VolumeBlock(r: Reader, v: Volume)
    requires VolumeOk(v)
    ensures Steps(r, BlockItems(StartVolume, VolumeEntries(v))) ==
            Reader(InVolume(VolumeBack(v)), CompleteVolume(VolumeBack(v)), Commit(r))
  {
    VolumeItemsAre(v);
    HalvesAndSkip(
      [StartVolume, Set(Some(Id), TrimEnd(v.id)), Set(Some(Name), TrimEnd(v.name)), Set(Some(Path), TrimEnd(v.path))],
      [Set(Some(SizeLimit), Dec(v.sizeLimit)), Set(Some(Readonly), DecInt(v.readonly)),
       Set(Some(CreatedAt), Dec(v.createdAt)), Set(Some(Description), TrimEnd(v.description))], r);
    VolumeHead(r, TrimEnd(v.id), TrimEnd(v.name), TrimEnd(v.path));
    var w := NO_VOLUME.(id := TrimEnd(v.id), name := TrimEnd(v.name), path := TrimEnd(v.path));
    VolumeTail(Reader(InVolume(w), CompleteVolume(w), Commit(r)), w,
               Dec(v.sizeLimit), DecInt(v.readonly), Dec(v.createdAt), TrimEnd(v.description));
    UnsignedRoundTrip(v.sizeLimit);
    DecIntClean(v.readonly);
    UnsignedRoundTrip(v.createdAt);
  }

  lemma SnapshotHead(r: Reader, id: string, name: string, volume: string)
    requires |id| < ID_MAX && |name| < NAME_MAX && |volume| < NAME_MAX
    ensures Steps(r, [StartSnapshot, Set(Some(Id), id), Set(Some(Name), name), Set(Some(OfVolume), volume)]) ==
            Reader(InSnapshot(NO_SNAPSHOT.(id := id, name := name, volume := volume)), false, Commit(r))
  {
    StepsFour(r, StartSnapshot, Set(Some(Id), id), Set(Some(Name), name), Set(Some(OfVolume), volume));
  }

  lemma SnapshotTail(r: Reader, w: Snapshot, path: string, created: string, active: string)
    requires r.current == InSnapshot(w) && !r.complete && w.path == "" && |path| < PATH_MAX
    ensures var z := w.(path := path, createdAt := Strtoull(created), active := Atoi(active));
      Steps(r, [Set(Some(Path), path), Set(Some(CreatedAt), created), Set(Some(Active), active), Skip]) ==
      r.(current := InSnapshot(z), complete := CompleteSnapshot(z))
  {
    StepsFour(r, Set(Some(Path), path), Set(Some(CreatedAt), created), Set(Some(Active), active), Skip);
  }

  lemma SnapshotItemsAre(s: Snapshot)
    requires SnapshotOk(s)
    ensures BlockItems(StartSnapshot, SnapshotEntries(s)) ==
            [StartSnapshot, Set(Some(Id), TrimEnd(s.id)), Set(Some(Name), TrimEnd(s.name)), Set(Some(OfVolume), TrimEnd(s.volume))] +
            [Set(Some(Path), TrimEnd(s.path)), Set(Some(CreatedAt), Dec(s.createdAt)), Set(Some(Active), DecInt(s.active)), Skip]
  {
    NumberEntryOk(CreatedAt, s.createdAt);
    IntEntryOk(Active, s.active);
  }

  lemma SnapshotBlock(r: Reader, s: Snapshot)
    requires SnapshotOk(s)
    ensures Steps(r, BlockItems(StartSnapshot, SnapshotEntries(s))) ==
            Reader(InSnapshot(SnapshotBack(s)), CompleteSnapshot(SnapshotBack(s)), Commit(r))
  {
    SnapshotItemsAre(s);
    StepsAppend(r, [StartSnapshot, Set(Some(Id), TrimEnd(s.id)), Set(Some(Name), TrimEnd(s.name)), Set(Some(OfVolume), TrimEnd(s.volume))],
                [Set(Some(Path), TrimEnd(s.path)), Set(Some(CreatedAt), Dec(s.createdAt)), Set(Some(Active), DecInt(s.active)), Skip]);
    SnapshotHead(r, TrimEnd(s.id), TrimEnd(s.name), TrimEnd(s.volume));
    var w := NO_SNAPSHOT.(id := TrimEnd(s.id), name := TrimEnd(s.name), volume := TrimEnd(s.volume));
    SnapshotTail(Reader(InSnapshot(w), false, Commit(r)), w, TrimEnd(s.path), Dec(s.createdAt), DecInt(s.active));
    UnsignedRoundTrip(s.createdAt);
    DecIntClean(s.active);
  }

  // ---------------------------------------------------------------- whole lists

  function PushVolume(l: Lists, v: Volume): Lists {
    if CompleteVolume(VolumeBack(v)) then l.(volumes := [VolumeBack(v)] + l.volumes) else l
  }

  function PushVolumes(l: Lists, volumes: seq<Volume>): Lists
    decreases |volumes|
  {
    if volumes == [] then l else PushVolumes(PushVolume(l, volumes[0]), volumes[1..])
  }

  function PushSnapshot(l: Lists, s: Snapshot): Lists {
    if CompleteSnapshot(SnapshotBack(s)) then l.(snapshots := [SnapshotBack(s)] + l.snapshots) else l
  }

  function PushSnapshots(l: Lists, snapshots: seq<Snapshot>): Lists
    decreases |snapshots|
  {
    if snapshots == [] then l else PushSnapshots(PushSnapshot(l, snapshots[0]), snapshots[1..])
  }

  /** A block starts afresh: it commits the record before it and leaves its own record to be committed. */
  lemma VolumePushed(read: string -> Line, r: Reader, v: Volume)
    requires VolumeOk(v) && ReadsFields(read)
    ensures Commit(Steps(r, Items(read, VolumeLines(v)))) == PushVolume(Commit(r), v)
  {
    BlockRead(read, "volume", VolumeEntries(v));
    VolumeBlock(r, v);
  }

  lemma SnapshotPushed(read: string -> Line, r: Reader, s: Snapshot)
    requires SnapshotOk(s) && ReadsFields(read)
    ensures Commit(Steps(r, Items(read, SnapshotLines(s)))) == PushSnapshot(Commit(r), s)
  {
    BlockRead(read, "snapshot", SnapshotEntries(s));
    SnapshotBlock(r, s);
  }

  lemma {:induction false} VolumesRead(read: string -> Line, r: Reader, volumes: seq<Volume>)
    requires ReadsFields(read) && forall i | 0 <= i < |volumes| :: VolumeOk(volumes[i])
    ensures Commit(Steps(r, Items(read, AllVolumeLines(volumes)))) == PushVolumes(Commit(r), volumes)
    decreases |volumes|
  {
    if volumes != [] {
      var first := Items(read, VolumeLines(volumes[0]));
      var rest := Items(read, AllVolumeLines(volumes[1..]));
      ItemsAppend(read, VolumeLines(volumes[0]), AllVolumeLines(volumes[1..]));
      StepsAppend(r, first, rest);
      VolumePushed(read, r, volumes[0]);
      VolumesRead(read, Steps(r, first), volumes[1..]);
    }
  }

  lemma {:induction false} SnapshotsRead(read: string -> Line, r: Reader, snapshots: seq<Snapshot>)
    requires ReadsFields(read) && forall i | 0 <= i < |snapshots| :: SnapshotOk(snapshots[i])
    ensures Commit(Steps(r, Items(read, AllSnapshotLines(snapshots)))) == PushSnapshots(Commit(r), snapshots)
    decreases |snapshots|
  {
    if snapshots != [] {
      var first := Items(read, SnapshotLines(snapshots[0]));
      var rest := Items(read, AllSnapshotLines(snapshots[1..]));
      ItemsAppend(read, SnapshotLines(snapshots[0]), AllSnapshotLines(snapshots[1..]));
      StepsAppend(r, first, rest);
      SnapshotPushed(read, r, snapshots[0]);
      SnapshotsRead(read, Steps(r, first), snapshots[1..]);
    }
  }

  /** Pushing one by one turns the order round. */
  lemma {:induction false} PushedVolumes(l: Lists, volumes: seq<Volume>)
    ensures PushVolumes(l, volumes) == l.(volumes := Reverse(VolumesBack(volumes)) + l.volumes)
    decreases |volumes|
  {
    if volumes == [] {
      assert [] + l.volumes == l.volumes;
    } else {
      PushedVolumes(PushVolume(l, volumes[0]), volumes[1..]);
      BackPushed(VolumesBack(volumes[1..]), VolumeBack(volumes[0]), CompleteVolume(VolumeBack(volumes[0])), l.volumes);
    }
  }

  lemma {:induction false} PushedSnapshots(l: Lists, snapshots: seq<Snapshot>)
    ensures PushSnapshots(l, snapshots) == l.(snapshots := Reverse(SnapshotsBack(snapshots)) + l.snapshots)
    decreases |snapshots|
  {
    if snapshots == [] {
      assert [] + l.snapshots == l.snapshots;
    } else {
      PushedSnapshots(PushSnapshot(l, snapshots[0]), snapshots[1..]);
      BackPushed(SnapshotsBack(snapshots[1..]), SnapshotBack(snapshots[0]), CompleteSnapshot(SnapshotBack(snapshots[0])), l.snapshots);
    }
  }

  lemma BackPushed<T>(done: seq<T>, x: T, kept: bool, before: seq<T>)
    ensures Reverse(done) + (if kept then [x] + before else before) == Reverse((if kept then [x] else []) + done) + before
  {
    if kept {
      ReverseCons(x, done);
    } else {
      assert [] + done == done;
    }
  }

  predicate HeaderLine(l: string) {
    GoodLine(l) && Item(l) == Skip
  }

  lemma CommentLine(l: string)
    requires Clean(l) && 0 < |l| < LINE_MAX - 1 && l[0] == '#'
    ensures HeaderLine(l)
  {
    assert SkipEdges(l) == l;
    TrimEndAfter([l[0]], l[1..]);
    assert [l[0]] + l[1..] == l;
  }

  lemma TitleComment()
    ensures Clean(TITLE) && 0 < |TITLE| < 100 && TITLE[0] == '#'
  {
  }

  lemma NoticeComment()
    ensures Clean(NOTICE) && 0 < |NOTICE| < 100 && NOTICE[0] == '#'
  {
  }

  lemma HeaderLines()
    ensures forall i | 0 <= i < |HEADER| :: HeaderLine(HEADER[i])
  {
    TitleComment();
    NoticeComment();
    CommentLine(TITLE);
    CommentLine(NOTICE);
    KeywordItems();
  }

  lemma AllSkipped(read: string -> Line, r: Reader, lines: seq<string>)
    requires forall i | 0 <= i < |lines| :: read(lines[i]) == Skip
    ensures Steps(r, Items(read, lines)) == r
  {
    StepsSkip(r, Items(read, lines));
  }

  lemma {:induction false} AllVolumeLinesGood(volumes: seq<Volume>)
    requires forall i | 0 <= i < |volumes| :: VolumeOk(volumes[i])
    ensures forall i | 0 <= i < |AllVolumeLines(volumes)| :: GoodLine(AllVolumeLines(volumes)[i])
  {
    if volumes != [] {
      VolumeLinesGood(volumes[0]);
      AllVolumeLinesGood(volumes[1..]);
    }
  }

  lemma {:induction false} AllSnapshotLinesGood(snapshots: seq<Snapshot>)
    requires forall i | 0 <= i < |snapshots| :: SnapshotOk(snapshots[i])
    ensures forall i | 0 <= i < |AllSnapshotLines(snapshots)| :: GoodLine(AllSnapshotLines(snapshots)[i])
  {
    if snapshots != [] {
      SnapshotLinesGood(snapshots[0]);
      AllSnapshotLinesGood(snapshots[1..]);
    }
  }

  lemma BothListsRead(read: string -> Line, x: Lists)
    requires ListsOk(x) && ReadsFields(read)
    ensures Commit(Steps(START, Items(read, AllVolumeLines(x.volumes) + AllSnapshotLines(x.snapshots)))) ==
            PushSnapshots(PushVolumes(Lists([], []), x.volumes), x.snapshots)
  {
    var vs, ss := AllVolumeLines(x.volumes), AllSnapshotLines(x.snapshots);
    ItemsAppend(read, vs, ss);
    StepsAppend(START, Items(read, vs), Items(read, ss));
    VolumesRead(read, START, x.volumes);
    SnapshotsRead(read, Steps(START, Items(read, vs)), x.snapshots);
  }

  lemma AllPushed(x: Lists)
    ensures PushSnapshots(PushVolumes(Lists([], []), x.volumes), x.snapshots) == Restarted(x)
  {
    PushedVolumes(Lists([], []), x.volumes);
    PushedSnapshots(PushVolumes(Lists([], []), x.volumes), x.snapshots);
    assert Reverse(VolumesBack(x.volumes)) + [] == Reverse(VolumesBack(x.volumes));
    assert Reverse(SnapshotsBack(x.snapshots)) + [] == Reverse(SnapshotsBack(x.snapshots));
  }

  lemma LinesStepped(x: Lists)
    requires ListsOk(x)
    ensures Commit(Steps(START, Items(Item, StateLines(x)))) == Restarted(x)
  {
    var rest := AllVolumeLines(x.volumes) + AllSnapshotLines(x.snapshots);
    HeaderLines();
    AllSkipped(Item, START, HEADER);
    ItemsAppend(Item, HEADER, rest);
    StepsAppend(START, Items(Item, HEADER), Items(Item, rest));
    ItemReadsFields();
    BothListsRead(Item, x);
    AllPushed(x);
  }

  lemma StateLinesGood(x: Lists)
    requires ListsOk(x)
    ensures forall i | 0 <= i < |StateLines(x)| :: GoodLine(StateLines(x)[i])
  {
    HeaderLines();
    AllVolumeLinesGood(x.volumes);
    AllSnapshotLinesGood(x.snapshots);
  }

  // ---------------------------------------------------------------- main results

  /** Loading what was saved: the records in the opposite order, trimmed, those with blank names lost. */
  lemma LoadPersisted(x: Lists)
    requires ListsOk(x)
    ensures Load(StateText(x)) == Restarted(x)
  {
    StateLinesGood(x);
    TextItems(StateLines(x));
    LinesStepped(x);
  }

  ghost predicate TidyVolumes(volumes: seq<Volume>) {
    forall i | 0 <= i < |volumes| :: VolumeBack(volumes[i]) == volumes[i]
  }

  ghost predicate TidySnapshots(snapshots: seq<Snapshot>) {
    forall i | 0 <= i < |snapshots| :: SnapshotBack(snapshots[i]) == snapshots[i]
  }

  /** No name, path or description ends in a blank. */
  ghost predicate Tidy(x: Lists) {
    TidyVolumes(x.volumes) && TidySnapshots(x.snapshots)
  }

  lemma {:induction false} VolumesBackIff(volumes: seq<Volume>)
    requires forall i | 0 <= i < |volumes| :: VolumeOk(volumes[i])
    ensures |VolumesBack(volumes)| <= |volumes|
    ensures VolumesBack(volumes) == volumes <==> TidyVolumes(volumes)
  {
    if volumes != [] {
      var back, rest := VolumeBack(volumes[0]), VolumesBack(volumes[1..]);
      VolumesBackIff(volumes[1..]);
      if CompleteVolume(back) {
        assert ([back] + rest)[0] == back && ([back] + rest)[1..] == rest;
        assert TidyVolumes(volumes) <==> back == volumes[0] && TidyVolumes(volumes[1..]);
      } else {
        assert back != volumes[0];
      }
    }
  }

  lemma {:induction false} SnapshotsBackIff(snapshots: seq<Snapshot>)
    requires forall i | 0 <= i < |snapshots| :: SnapshotOk(snapshots[i])
    ensures |SnapshotsBack(snapshots)| <= |snapshots|
    ensures SnapshotsBack(snapshots) == snapshots <==> TidySnapshots(snapshots)
  {
    if snapshots != [] {
      var back, rest := SnapshotBack(snapshots[0]), SnapshotsBack(snapshots[1..]);
      SnapshotsBackIff(snapshots[1..]);
      if CompleteSnapshot(back) {
        assert ([back] + rest)[0] == back && ([back] + rest)[1..] == rest;
        assert TidySnapshots(snapshots) <==> back == snapshots[0] && TidySnapshots(snapshots[1..]);
      } else {
        assert back != snapshots[0];
      }
    }
  }

  /** Loading what was saved turns the order round, and changes nothing else exactly when nothing ends in a blank. */
  lemma RestartReversesIff(x: Lists)
    requires ListsOk(x)
    ensures Load(StateText(x)) == Lists(Reverse(x.volumes), Reverse(x.snapshots)) <==> Tidy(x)
  {
    LoadPersisted(x);
    VolumesBackIff(x.volumes);
    SnapshotsBackIff(x.snapshots);
    ReverseTwice(x.volumes);
    ReverseTwice(x.snapshots);
    ReverseTwice(VolumesBack(x.volumes));
    ReverseTwice(SnapshotsBack(x.snapshots));
  }

  lemma VolumeBackOk(v: Volume)
    requires VolumeOk(v) && CompleteVolume(VolumeBack(v))
    ensures VolumeOk(VolumeBack(v)) && VolumeBack(VolumeBack(v)) == VolumeBack(v)
  {
    TrimEndTwice(v.id);
    TrimEndTwice(v.name);
    TrimEndTwice(v.path);
    TrimEndTwice(v.description);
  }

  lemma SnapshotBackOk(s: Snapshot)
    requires SnapshotOk(s) && CompleteSnapshot(SnapshotBack(s))
    ensures SnapshotOk(SnapshotBack(s)) && SnapshotBack(SnapshotBack(s)) == SnapshotBack(s)
  {
    TrimEndTwice(s.id);
    TrimEndTwice(s.name);
    TrimEndTwice(s.volume);
    TrimEndTwice(s.path);
  }

  lemma {:induction false} VolumesBackOk(volumes: seq<Volume>)
    requires forall i | 0 <= i < |volumes| :: VolumeOk(volumes[i])
    ensures forall i | 0 <= i < |VolumesBack(volumes)| :: VolumeOk(VolumesBack(volumes)[i])
    ensures TidyVolumes(VolumesBack(volumes))
  {
    if volumes != [] {
      VolumesBackOk(volumes[1..]);
      if CompleteVolume(VolumeBack(volumes[0])) {
        VolumeBackOk(volumes[0]);
      }
    }
  }

  lemma SnapshotsOkCons(s: Snapshot, snapshots: seq<Snapshot>)
    requires SnapshotOk(s) && SnapshotBack(s) == s && TidySnapshots(snapshots)
    requires forall i | 0 <= i < |snapshots| :: SnapshotOk(snapshots[i])
    ensures TidySnapshots([s] + snapshots) && forall i | 0 <= i < |[s] + snapshots| :: SnapshotOk(([s] + snapshots)[i])
  {
  }

  lemma {:induction false} SnapshotsBackOk(snapshots: seq<Snapshot>)
    requires forall i | 0 <= i < |snapshots| :: SnapshotOk(snapshots[i])
    ensures forall i | 0 <= i < |SnapshotsBack(snapshots)| :: SnapshotOk(SnapshotsBack(snapshots)[i])
    ensures TidySnapshots(SnapshotsBack(snapshots))
  {
    if snapshots != [] {
      SnapshotsBackOk(snapshots[1..]);
      if CompleteSnapshot(SnapshotBack(snapshots[0])) {
        SnapshotBackOk(snapshots[0]);
        SnapshotsOkCons(SnapshotBack(snapshots[0]), SnapshotsBack(snapshots[1..]));
      }
    }
  }

  lemma RestartedOk(x: Lists)
    requires ListsOk(x)
    ensures ListsOk(Restarted(x)) && Tidy(Restarted(x))
  {
    VolumesBackOk(x.volumes);
    SnapshotsBackOk(x.snapshots);
  }

  /** Loaded, saved again and loaded again: the order is back, and all is as it was exactly when nothing ends in a blank. */
  lemma SavedAndLoadedTwice(x: Lists)
    requires ListsOk(x)
    ensures var twice := Load(StateText(Load(StateText(x))));
      && twice == Lists(VolumesBack(x.volumes), SnapshotsBack(x.snapshots))
      && (twice == x <==> Tidy(x))
  {
    LoadPersisted(x);
    RestartedOk(x);
    RestartReversesIff(Restarted(x));
    ReverseTwice(VolumesBack(x.volumes));
    ReverseTwice(SnapshotsBack(x.snapshots));
    VolumesBackIff(x.volumes);
    SnapshotsBackIff(x.snapshots);
  }
}
