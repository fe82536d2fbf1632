/**
  What a restart does to parameters: they are set, saved to the file, and loaded
  into a fresh tree (bus/src/param.c, hw_param_save_file, hw_param_load_file).
 */
module ParamRestarts {
  import opened CText
  import opened ParamTree
  import opened ParamFile

  /** The tree after a restart. */
  function Restarted(kids: seq<Tree>): seq<Tree> {
    LoadInto([], SaveText(kids))
  }

  // ---------------------------------------------------------------- parts of keys

  lemma SplitDot(key: string)
    ensures var dot := IndexOf(key, '.');
      Split(key) == if dot == |key| then [key] else [key[..dot]] + Split(key[dot + 1..])
  {
    if IndexOf(key, '.') == |key| {
      SplitNone(key);
    } else {
      SplitSome(key);
    }
  }

  lemma SplitNone(key: string)
    requires IndexOf(key, '.') == |key|
    ensures Split(key) == [key]
  {
  }

  lemma SplitSome(key: string)
    requires IndexOf(key, '.') < |key|
    ensures Split(key) == [key[..IndexOf(key, '.')]] + Split(key[IndexOf(key, '.') + 1..])
  {
  }

  lemma AllShort(seg: string, below: seq<string>)
    requires forall i | 0 <= i < |[seg] + below| :: |([seg] + below)[i]| < KEY_MAX
    ensures |seg| < KEY_MAX && forall i | 0 <= i < |below| :: |below[i]| < KEY_MAX
  {
    assert ([seg] + below)[0] == seg;
    forall i | 0 <= i < |below|
      ensures |below[i]| < KEY_MAX
    {
      assert below[i] == ([seg] + below)[i + 1];
    }
  }

  lemma ShortTail(key: string)
    requires ShortSegments(key)
    ensures var dot := IndexOf(key, '.'); dot < KEY_MAX && (dot < |key| ==> ShortSegments(key[dot + 1..]))
  {
    var dot := IndexOf(key, '.');
    SplitDot(key);
    if dot < |key| {
      AllShort(key[..dot], Split(key[dot + 1..]));
    } else {
      AllShort(key, []);
    }
  }

  lemma ShortCons(seg: string, rest: string)
    requires '.' !in seg && |seg| < KEY_MAX && ShortSegments(rest)
    ensures ShortSegments(seg + ['.'] + rest)
  {
    var key := seg + ['.'] + rest;
    IndexOfAfter(seg, '.', rest);
    assert key[..|seg|] == seg && key[|seg| + 1..] == rest;
    SplitDot(key);
    assert Split(key) == [seg] + Split(rest);
  }

  lemma ShortOne(seg: string)
    requires '.' !in seg && |seg| < KEY_MAX
    ensures ShortSegments(seg)
  {
    IndexOfAbsent(seg, '.');
    SplitDot(seg);
  }

  /** A key is its first segment, a dot and the rest. */
  lemma AtDot(key: string) returns (dot: nat)
    ensures dot == IndexOf(key, '.') && '.' !in key[..dot]
    ensures dot < |key| ==> key == key[..dot] + ['.'] + key[dot + 1..]
  {
    dot := IndexOf(key, '.');
  }

  lemma FreePart(s: string, c: char, i: nat, j: nat)
    requires c !in s && i <= j <= |s|
    ensures c !in s[i..j]
  {
  }

  lemma {:induction false} ShortPrefix(key: string, n: nat)
    requires ShortSegments(key) && n <= |key|
    ensures ShortSegments(key[..n])
    decreases |key|
  {
    var dot := AtDot(key);
    ShortTail(key);
    if n <= dot {
      FreePart(key[..dot], '.', 0, n);
      assert key[..dot][0..n] == key[..n];
      ShortOne(key[..n]);
    } else {
      var rest := key[dot + 1..];
      ShortPrefix(rest, n - dot - 1);
      ShortCons(key[..dot], rest[..n - dot - 1]);
      assert key[..n] == key[..dot] + ['.'] + rest[..n - dot - 1];
    }
  }

  lemma {:induction false} ShortSuffix(key: string, n: nat)
    requires ShortSegments(key) && n <= |key|
    ensures ShortSegments(key[n..])
    decreases |key|
  {
    var dot := AtDot(key);
    ShortTail(key);
    if n > dot {
      ShortSuffix(key[dot + 1..], n - dot - 1);
      assert key[n..] == key[dot + 1..][n - dot - 1..];
    } else {
      FreePart(key[..dot], '.', n, dot);
      assert key[..dot][n..dot] == key[n..dot];
      if dot < |key| {
        ShortCons(key[n..dot], key[dot + 1..]);
        assert key[n..] == key[n..dot] + ['.'] + key[dot + 1..];
      } else {
        ShortOne(key[n..dot]);
        assert key[n..] == key[n..dot];
      }
    }
  }

  /** What is part of a key with short segments has short segments. */
  lemma ShortPart(key: string, i: nat, j: nat)
    requires ShortSegments(key) && i <= j <= |key|
    ensures ShortSegments(key[i..j])
  {
    ShortPrefix(key, j);
    ShortSuffix(key[..j], i);
    assert key[..j][i..] == key[i..j];
  }

  /** The segments of a path in a tree: without dots, and fitting their buffers. */
  ghost predicate PathOk(path: seq<string>) {
    path != [] && forall i | 0 <= i < |path| :: '.' !in path[i] && |path[i]| < KEY_MAX
  }

  /** Such a path is that of its own key, and of no other key with short segments. */
  lemma PathKey(path: seq<string>)
    requires PathOk(path)
    ensures ShortSegments(JoinDots(path)) && PathOf(JoinDots(path)) == path
  {
    SplitJoin(path);
    ShortPath(JoinDots(path));
  }

  lemma PathOfOk(key: string)
    ensures PathOk(PathOf(key))
  {
    forall i | 0 <= i < |Split(key)|
      ensures '.' !in Clip(Split(key)[i], KEY_MAX) && |Clip(Split(key)[i], KEY_MAX)| < KEY_MAX
    {
      ClipKeepsFree(Split(key)[i], KEY_MAX, '.');
    }
  }

  lemma {:induction false} JoinDotsFree(path: seq<string>, c: char)
    requires c != '.' && forall i | 0 <= i < |path| :: c !in path[i]
    ensures c !in JoinDots(path)
  {
    if |path| > 1 {
      JoinDotsFree(path[1..], c);
    }
  }

  lemma {:induction false} SplitFree(key: string, c: char)
    requires c !in key
    ensures forall i | 0 <= i < |Split(key)| :: c !in Split(key)[i]
    decreases |key|
  {
    var dot := IndexOf(key, '.');
    if dot < |key| {
      SplitFree(key[dot + 1..], c);
    }
  }

  /** The key that a key stands for, its overlong segments cut to their buffers. */
  function Stored(key: string): string {
    JoinDots(PathOf(key))
  }

  lemma StoredFree(key: string, c: char)
    requires c != '.' && c !in key
    ensures c !in Stored(key)
  {
    SplitFree(key, c);
    forall i | 0 <= i < |Split(key)|
      ensures c !in Clip(Split(key)[i], KEY_MAX)
    {
      ClipKeepsFree(Split(key)[i], KEY_MAX, c);
    }
    JoinDotsFree(PathOf(key), c);
  }

  // ---------------------------------------------------------------- what is saved

  /** The key that stands in the file for a path below a prefix. */
  function KeyBelow(prefix: string, path: seq<string>): string
    decreases |path|
  {
    if path == [] then prefix else KeyBelow(FullKey(prefix, path[0]), path[1..])
  }

  /** The key of a path without the empty segments in front. */
  function Undotted(path: seq<string>): string {
    if |path| > 1 && path[0] == "" then Undotted(path[1..]) else JoinDots(path)
  }

  lemma FindInTail(kids: seq<Tree>, path: seq<string>)
    requires kids != [] && path != [] && kids[0].key != path[0]
    ensures ValueAt(kids, path) == ValueAt(kids[1..], path)
  {
  }

  lemma FindBelow(kids: seq<Tree>, path: seq<string>)
    requires kids != [] && path != [] && kids[0].key == path[0]
    ensures ValueAt(kids, path) == if |path| == 1 then kids[0].value else ValueAt(kids[0].kids, path[1..])
  {
  }

  /** A value in the tree leads, segment by segment, along keys of the tree. */
  lemma {:induction false} ValuePath(kids: seq<Tree>, path: seq<string>)
    requires path != [] && ValueAt(kids, path) != "" && TreeOk(kids)
    ensures PathOk(path)
    decreases |path|
  {
    var i := FindKid(kids, path[0]);
    if |path| > 1 {
      ValuePath(kids[i].kids, path[1..]);
      assert forall k | 0 < k < |path| :: path[k] == path[1..][k - 1];
    }
  }

  lemma ElsewhereKey(kids: seq<Tree>, path: seq<string>)
    requires kids != [] && path != [] && DistinctKeys(kids) && ValueAt(kids[1..], path) != ""
    ensures kids[0].key != path[0]
  {
    var i := FindKid(kids[1..], path[0]);
    assert kids[1..][i] == kids[i + 1];
  }

  lemma TailOk(kids: seq<Tree>)
    requires kids != [] && TreeOk(kids)
    ensures TreeOk(kids[1..])
  {
  }

  /** Every saved line is the value of a path, under the key of that path. */
  lemma {:induction false} EntrySound(kids: seq<Tree>, prefix: string, a: Assign) returns (path: seq<string>)
    requires TreeOk(kids) && a in SaveEntries(kids, prefix)
    ensures path != [] && ValueAt(kids, path) != "" && a == Assign(KeyBelow(prefix, path), ValueAt(kids, path))
    decreases kids
  {
    var k := kids[0];
    if a in SaveEntries(kids[1..], prefix) {
      TailOk(kids);
      path := EntrySound(kids[1..], prefix, a);
      ElsewhereKey(kids, path);
      FindInTail(kids, path);
    } else if a in SaveEntries(k.kids, FullKey(prefix, k.key)) {
      var below := EntrySound(k.kids, FullKey(prefix, k.key), a);
      path := [k.key] + below;
      assert path[1..] == below;
      FindBelow(kids, path);
    } else {
      path := [k.key];
      FindBelow(kids, path);
      assert KeyBelow(FullKey(prefix, k.key), []) == FullKey(prefix, k.key);
    }
  }

  /** Every value of the tree has its line. */
  lemma {:induction false} EntryComplete(kids: seq<Tree>, prefix: string, path: seq<string>)
    requires TreeOk(kids) && path != [] && ValueAt(kids, path) != ""
    ensures Assign(KeyBelow(prefix, path), ValueAt(kids, path)) in SaveEntries(kids, prefix)
    decreases kids
  {
    var k := kids[0];
    if k.key != path[0] {
      FindInTail(kids, path);
      TailOk(kids);
      EntryComplete(kids[1..], prefix, path);
    } else {
      FindBelow(kids, path);
      if |path| > 1 {
        EntryComplete(k.kids, FullKey(prefix, k.key), path[1..]);
      } else {
        assert KeyBelow(FullKey(prefix, k.key), []) == FullKey(prefix, k.key);
      }
    }
  }

  lemma FullKeyClipped(prefix: string, seg: string)
    requires prefix != ""
    ensures FullKey(Clip(prefix, FULL_MAX), seg) == Clip(prefix + "." + seg, FULL_MAX)
  {
    if |prefix| >= FULL_MAX {
      var cut := Clip(prefix, FULL_MAX);
      assert (cut + "." + seg)[..FULL_MAX - 1] == cut == (prefix + "." + seg)[..FULL_MAX - 1];
    }
  }

  /** Below a prefix that is not empty nothing is lost but what does not fit. */
  lemma {:induction false} KeyBelowPrefix(prefix: string, path: seq<string>)
    requires prefix != ""
    ensures KeyBelow(Clip(prefix, FULL_MAX), path) ==
            Clip(if path == [] then prefix else prefix + "." + JoinDots(path), FULL_MAX)
    decreases |path|
  {
    if path != [] {
      FullKeyClipped(prefix, path[0]);
      KeyBelowPrefix(prefix + "." + path[0], path[1..]);
      if |path| > 1 {
        DotsAssoc(prefix, path);
      }
    }
  }

  lemma DotsAssoc(prefix: string, path: seq<string>)
    requires |path| > 1
    ensures prefix + "." + path[0] + "." + JoinDots(path[1..]) == prefix + "." + JoinDots(path)
  {
  }

  /** The key in the file: the joined path without the dots in front, cut to the buffer. */
  lemma {:induction false} SavedKey(path: seq<string>)
    requires path != []
    ensures KeyBelow("", path) == Clip(Undotted(path), FULL_MAX)
    decreases |path|
  {
    if path[0] != "" {
      KeyBelowPrefix(path[0], path[1..]);
    } else if |path| > 1 {
      SavedKey(path[1..]);
    } else {
      assert KeyBelow("", []) == "";
    }
  }

  lemma {:induction false} UndottedParts(path: seq<string>)
    requires PathOk(path)
    ensures ShortSegments(Undotted(path))
    ensures |Undotted(path)| <= |JoinDots(path)|
    ensures if |path| > 1 && path[0] == "" then |Undotted(path)| < |JoinDots(path)| else Undotted(path) == JoinDots(path)
    ensures forall c | c in Undotted(path) :: c in JoinDots(path)
  {
    if |path| > 1 && path[0] == "" {
      UndottedParts(path[1..]);
    } else {
      PathKey(path);
    }
  }

  /** A key that is not empty begins with a dot exactly when its first segment is empty. */
  lemma FirstDot(path: seq<string>)
    requires PathOk(path) && JoinDots(path) != ""
    ensures JoinDots(path)[0] == '.' <==> |path| > 1 && path[0] == ""
  {
    if path[0] != "" {
      assert JoinDots(path)[0] == path[0][0];
    }
  }

  // ---------------------------------------------------------------- reading one line back

  /** The line of an entry, and what it is read back as. */
  function ReadBack(e: Assign): Option<Assign> {
    ParseLine(EntryText(e))
  }

  ghost predicate PartOf(part: string, whole: string) {
    exists i, j :: 0 <= i <= j <= |whole| && part == whole[i..j]
  }

  /**
    What can be said of an assignment read back from an entry's line: lines can
    carry it, its key is part of the entry's, behind a key without a colon its value
    is no longer than the entry's, and an entry that lines can carry comes back.
   */
  ghost predicate Yields(e: Assign, a: Assign) {
    && SafeKey(a.key) && SafeValue(a.value) && PartOf(a.key, e.key)
    && (':' !in e.key ==> |a.value| <= |e.value|)
    && (SafeKey(e.key) && OneLine(e.key) && SafeValue(e.value) ==> a == e)
  }

  lemma BlanksBefore(line: string, n: nat)
    requires n < |line| && !IsBlank(line[n])
    ensures |line| - |SkipBlanks(line)| <= n
  {
    BlanksSkipped(line);
  }

  lemma FirstColon(p: string, n: nat)
    requires n < |p| && p[n] == ':'
    ensures ':' in p && IndexOf(p, ':') <= n
    ensures ':' !in p[..n] ==> IndexOf(p, ':') == n
  {
    var k := IndexOf(p, ':');
    if k < n {
      assert p[..n][k] == ':';
    }
    assert forall i | 0 <= i < k :: p[..k][i] == p[i];
  }

  lemma SeparatorAt(p: string, n: nat)
    requires n < |p| && p[n] == ':'
    ensures Separator(p) <= n && (':' !in p[..n] ==> Separator(p) == n)
  {
    FirstColon(p, n);
  }

  lemma FreeBehind(line: string, c: char, skipped: nat, n: nat)
    requires skipped <= n <= |line| && c !in line[..n]
    ensures c !in line[skipped..][..n - skipped]
  {
    FreePart(line[..n], c, skipped, n);
    assert line[skipped..][..n - skipped] == line[..n][skipped..n];
  }

  lemma TailTwice(line: string, skipped: nat, k: nat)
    requires skipped + k <= |line|
    ensures line[skipped..][k..] == line[skipped + k..]
  {
  }

  /** Where the separator of a line is that has a colon: there or before. */
  lemma LineSeparator(line: string, n: nat) returns (skipped: nat, sep: nat)
    requires n < |line| && line[n] == ':'
    ensures skipped + sep <= n && SkipBlanks(line) == line[skipped..] && Separator(SkipBlanks(line)) == sep
    ensures ':' !in line[..n] ==> skipped + sep == n
  {
    BlanksBefore(line, n);
    skipped := |line| - |SkipBlanks(line)|;
    sep := Separator(SkipBlanks(line));
    SeparatorAt(line[skipped..], n - skipped);
    if ':' !in line[..n] {
      FreeBehind(line, ':', skipped, n);
    }
  }

  lemma CutPart(line: string, n: nat, i: nat, sep: nat, key: string)
    requires i + sep <= n <= |line| && key <= line[i..][..sep]
    ensures PartOf(key, line[..n])
  {
    assert key == line[i..][..sep][..|key|] == line[..n][i..i + |key|];
  }

  /** The key cut out of a line is part of what is in front of any colon. */
  lemma CutKey(line: string, n: nat)
    requires n < |line| && line[n] == ':'
    ensures var p := SkipBlanks(line); var sep := Separator(p);
      sep < |p| && PartOf(DropTail(p[..sep], IsSpace), line[..n])
  {
    var skipped, sep := LineSeparator(line, n);
    CutPart(line, n, skipped, sep, DropTail(line[skipped..][..sep], IsSpace));
  }

  lemma {:induction false} LeadDropped(s: string, tail: char)
    requires !IsValueLead(tail)
    ensures var t := DropLead(s + [tail]); |t| <= |s| + 1 && t != "" && t[|t| - 1] == tail
  {
    if s != "" && IsValueLead(s[0]) {
      assert (s + [tail])[1..] == s[1..] + [tail];
      LeadDropped(s[1..], tail);
    }
  }

  lemma ValueNoLonger(value: string)
    ensures |DropTail(DropLead(" " + value + "\n"), IsValueTail)| <= |value|
  {
    var s := " " + value + "\n";
    assert s[1..] == value + ['\n'];
    LeadDropped(value, '\n');
  }

  /** Behind a key without a colon, what the value is cut out of is all that follows the colon. */
  lemma CutTail(line: string, n: nat)
    requires n < |line| && line[n] == ':' && ':' !in line[..n]
    ensures var p := SkipBlanks(line); Separator(p) < |p| && p[Separator(p) + 1..] == line[n + 1..]
  {
    var skipped, sep := LineSeparator(line, n);
    TailTwice(line, skipped, sep + 1);
  }

  lemma LineKey(line: string, n: nat)
    requires n < |line| && line[n] == ':' && ParseLine(line).Some?
    ensures PartOf(ParseLine(line).value.key, line[..n])
  {
    ParsedParts(line);
    CutKey(line, n);
  }

  lemma LineValue(line: string, n: nat, value: string)
    requires n < |line| && line[n] == ':' && ParseLine(line).Some?
    requires ':' !in line[..n] && line[n + 1..] == " " + value + "\n"
    ensures |ParseLine(line).value.value| <= |value|
  {
    ParsedParts(line);
    CutTail(line, n);
    ValueNoLonger(value);
  }

  lemma EntryParts(e: Assign)
    ensures var line, n := EntryText(e), |e.key|;
      && n < |line| && line[n] == ':' && line[..n] == e.key && line[n + 1..] == " " + e.value + "\n"
  {
  }

  lemma ReadYields(e: Assign, a: Assign)
    requires ReadBack(e) == Some(a)
    ensures Yields(e, a)
  {
    var line, n := EntryText(e), |e.key|;
    EntryParts(e);
    ParsedKeySafe(line);
    ParsedValueSafe(line);
    LineKey(line, n);
    if ':' !in e.key {
      LineValue(line, n, e.value);
    }
    if SafeKey(e.key) && OneLine(e.key) && SafeValue(e.value) {
      SafeLineParsed(e.key, e.value);
    }
  }

  /** What a list of lines gives, those left out that give nothing. */
  function Gather<A, B>(read: A -> Option<B>, s: seq<A>): seq<B> {
    if s == [] then [] else (match read(s[0]) case None => [] case Some(b) => [b]) + Gather(read, s[1..])
  }

  lemma {:induction false} GatherFrom<A, B>(read: A -> Option<B>, s: seq<A>, b: B) returns (i: nat)
    requires b in Gather(read, s)
    ensures i < |s| && read(s[i]) == Some(b)
  {
    if read(s[0]) == Some(b) {
      i := 0;
    } else {
      i := GatherFrom(read, s[1..], b);
      i := i + 1;
    }
  }

  lemma {:induction false} GatherSame<A>(read: A -> Option<A>, s: seq<A>)
    requires forall i | 0 <= i < |s| :: read(s[i]) == Some(s[i])
    ensures Gather(read, s) == s
  {
    if s != [] {
      GatherSame(read, s[1..]);
      assert s == [s[0]] + s[1..];
    }
  }

  function ReadAll(entries: seq<Assign>): seq<Assign> {
    Gather(ReadBack, entries)
  }

  /** An entry whose line is one line of the file and fits its buffer. */
  ghost predicate Flat(e: Assign) {
    OneLine(e.key) && |e.key| < FULL_MAX && OneLine(e.value) && |e.value| < VALUE_MAX
  }

  /** A file of such lines is read line by line. */
  lemma {:induction false} TextRead(entries: seq<Assign>)
    requires forall i | 0 <= i < |entries| :: Flat(entries[i])
    ensures ParseBuffers(FileLines(ConcatMap(EntryText, entries), LINE_MAX)) == ReadAll(entries)
  {
    if entries != [] {
      var e, rest := entries[0], ConcatMap(EntryText, entries[1..]);
      assert Flat(e);
      TextRead(entries[1..]);
      FileLinesCons(EntryLine(e), rest, LINE_MAX);
      CStrId(EntryLine(e) + "\n");
      ParseBuffersCons(EntryLine(e) + "\n", FileLines(rest, LINE_MAX));
    }
  }

  // ---------------------------------------------------------------- what a restart brings back

  ghost predicate HasValue(kids: seq<Tree>, path: seq<string>) {
    path != [] && ValueAt(kids, path) != ""
  }

  /** Texts are C strings, and values fit their buffers. */
  ghost predicate CStrings(kids: seq<Tree>) {
    forall path | HasValue(kids, path) ::
      NUL !in JoinDots(path) && NUL !in ValueAt(kids, path) && |ValueAt(kids, path)| < VALUE_MAX
  }

  ghost predicate NoLineEnds(kids: seq<Tree>) {
    forall path | HasValue(kids, path) :: '\n' !in JoinDots(path) && '\n' !in ValueAt(kids, path)
  }

  lemma FlatEntry(kids: seq<Tree>, path: seq<string>)
    requires TreeOk(kids) && CStrings(kids) && NoLineEnds(kids) && HasValue(kids, path)
    ensures Flat(Assign(KeyBelow("", path), ValueAt(kids, path)))
  {
    SavedKey(path);
    ValuePath(kids, path);
    UndottedParts(path);
    var key := Clip(Undotted(path), FULL_MAX);
    assert forall c | c in key :: c in Undotted(path);
  }

  lemma FlatEntries(kids: seq<Tree>)
    requires TreeOk(kids) && CStrings(kids) && NoLineEnds(kids)
    ensures forall i | 0 <= i < |SaveEntries(kids, "")| :: Flat(SaveEntries(kids, "")[i])
  {
    var entries := SaveEntries(kids, "");
    forall i | 0 <= i < |entries|
      ensures Flat(entries[i])
    {
      var path := EntrySound(kids, "", entries[i]);
      FlatEntry(kids, path);
    }
  }

  lemma RestartedLatest(kids: seq<Tree>, path: seq<string>)
    requires TreeOk(kids) && CStrings(kids) && NoLineEnds(kids) && path != []
    ensures ValueAt(Restarted(kids), path) == Latest(ReadAll(SaveEntries(kids, "")), path, "")
  {
    FlatEntries(kids);
    TextRead(SaveEntries(kids, ""));
    AssignAllValue([], ReadAll(SaveEntries(kids, "")), path);
    EmptyValue(path);
  }

  lemma {:induction false} LatestFrom(assigns: seq<Assign>, path: seq<string>, before: string) returns (i: nat)
    requires Latest(assigns, path, before) != before
    ensures i < |assigns| && PathOf(assigns[i].key) == path
    ensures Clip(assigns[i].value, VALUE_MAX) == Latest(assigns, path, before)
    decreases |assigns|
  {
    var next := if PathOf(assigns[0].key) == path then Clip(assigns[0].value, VALUE_MAX) else before;
    if Latest(assigns[1..], path, next) == next {
      i := 0;
    } else {
      i := LatestFrom(assigns[1..], path, next);
      i := i + 1;
    }
  }

  /** The line of a path can be read back as an assignment. */
  ghost predicate Brings(kids: seq<Tree>, from: seq<string>, a: Assign) {
    HasValue(kids, from) && Yields(Assign(KeyBelow("", from), ValueAt(kids, from)), a)
  }

  lemma PartShort(key: string, part: string)
    requires ShortSegments(key) && PartOf(part, Clip(key, FULL_MAX))
    ensures ShortSegments(part) && |part| < FULL_MAX && |part| <= |key|
  {
    var cut := Clip(key, FULL_MAX);
    var i, j :| 0 <= i <= j <= |cut| && part == cut[i..j];
    ShortPart(key, i, j);
    assert cut == key[..|cut|];
    assert cut[i..j] == key[i..j];
  }

  /** What is read back from a path's line: a key that is part of the path's. */
  lemma BroughtKey(kids: seq<Tree>, from: seq<string>, a: Assign)
    requires TreeOk(kids) && Brings(kids, from, a)
    ensures ShortSegments(a.key) && |a.key| < FULL_MAX && |a.key| <= |Undotted(from)|
  {
    SavedKey(from);
    ValuePath(kids, from);
    UndottedParts(from);
    PartShort(Undotted(from), a.key);
  }

  /** A value that is there after a restart was brought by the line of some path. */
  lemma RestartedFrom(kids: seq<Tree>, path: seq<string>) returns (from: seq<string>, a: Assign)
    requires TreeOk(kids) && CStrings(kids) && NoLineEnds(kids) && HasValue(Restarted(kids), path)
    ensures Brings(kids, from, a) && a.key == JoinDots(path)
    ensures Clip(a.value, VALUE_MAX) == ValueAt(Restarted(kids), path)
  {
    var entries := SaveEntries(kids, "");
    RestartedLatest(kids, path);
    var i := LatestFrom(ReadAll(entries), path, "");
    a := ReadAll(entries)[i];
    var j := GatherFrom(ReadBack, entries, a);
    from := EntrySound(kids, "", entries[j]);
    ReadYields(entries[j], a);
    BroughtKey(kids, from, a);
    ShortPath(a.key);
  }

  /** No file brings a newline back, neither in a key nor in a value. */
  lemma LoadedOneLine(text: string, path: seq<string>)
    requires HasValue(LoadInto([], text), path)
    ensures '\n' !in JoinDots(path) && '\n' !in ValueAt(LoadInto([], text), path)
  {
    var assigns := ParseBuffers(FileLines(text, LINE_MAX));
    ReadOneLines(text);
    AssignAllValue([], assigns, path);
    EmptyValue(path);
    var i := LatestFrom(assigns, path, "");
    assert NoNewlines(assigns[i]);
    StoredFree(assigns[i].key, '\n');
    ClipKeepsFree(assigns[i].value, VALUE_MAX, '\n');
  }

  // ---------------------------------------------------------------- exactly what survives

  /**
    A parameter that a restart can carry: its key is not empty, has no colon, no
    line end, no dot, blank or comment sign in front, no white space at its end,
    and fits its buffer; its value is one line without blanks or quotes at its edges.
   */
  predicate Carried(key: string, value: string) {
    && SafeKey(key) && key[0] != '.' && OneLine(key) && |key| < 512
    && SafeValue(value) && OneLine(value)
  }

  ghost predicate Same(kids: seq<Tree>, path: seq<string>)
    requires path != []
  {
    ValueAt(Restarted(kids), path) == ValueAt(kids, path)
  }

  ghost predicate AllSame(kids: seq<Tree>) {
    forall path | HasValue(kids, path) :: Same(kids, path)
  }

  ghost predicate PathsCarried(kids: seq<Tree>) {
    forall path | HasValue(kids, path) :: Carried(JoinDots(path), ValueAt(kids, path))
  }

  /** The line of a parameter that can be carried: its own, read back as it is. */
  lemma CarriedLine(kids: seq<Tree>, path: seq<string>)
    requires TreeOk(kids) && HasValue(kids, path) && Carried(JoinDots(path), ValueAt(kids, path))
    ensures KeyBelow("", path) == JoinDots(path)
    ensures ReadBack(Assign(JoinDots(path), ValueAt(kids, path))) == Some(Assign(JoinDots(path), ValueAt(kids, path)))
  {
    ValuePath(kids, path);
    SavedKey(path);
    FirstDot(path);
    UndottedParts(path);
    SafeLineParsed(JoinDots(path), ValueAt(kids, path));
  }

  lemma {:induction false} LatestAgrees(assigns: seq<Assign>, path: seq<string>, before: string, v: string)
    requires forall i | 0 <= i < |assigns| && PathOf(assigns[i].key) == path :: Clip(assigns[i].value, VALUE_MAX) == v
    requires before == v || exists i :: 0 <= i < |assigns| && PathOf(assigns[i].key) == path
    ensures Latest(assigns, path, before) == v
    decreases |assigns|
  {
    if assigns != [] {
      LatestAgrees(assigns[1..], path, if PathOf(assigns[0].key) == path then v else before, v);
    }
  }

  lemma CarriedEntry(kids: seq<Tree>, e: Assign) returns (path: seq<string>)
    requires TreeOk(kids) && PathsCarried(kids) && e in SaveEntries(kids, "")
    ensures HasValue(kids, path) && e == Assign(JoinDots(path), ValueAt(kids, path))
    ensures ReadBack(e) == Some(e) && PathOf(e.key) == path
  {
    path := EntrySound(kids, "", e);
    CarriedLine(kids, path);
    ValuePath(kids, path);
    PathKey(path);
  }

  lemma CarriedEntries(kids: seq<Tree>)
    requires TreeOk(kids) && PathsCarried(kids)
    ensures ReadAll(SaveEntries(kids, "")) == SaveEntries(kids, "")
  {
    var entries := SaveEntries(kids, "");
    forall i | 0 <= i < |entries|
      ensures ReadBack(entries[i]) == Some(entries[i])
    {
      var path := CarriedEntry(kids, entries[i]);
    }
    GatherSame(ReadBack, entries);
  }

  lemma CarriedSame(kids: seq<Tree>, path: seq<string>)
    requires TreeOk(kids) && CStrings(kids) && PathsCarried(kids) && path != []
    ensures Same(kids, path)
  {
    var entries, v := SaveEntries(kids, ""), ValueAt(kids, path);
    assert NoLineEnds(kids);
    RestartedLatest(kids, path);
    CarriedEntries(kids);
    forall i | 0 <= i < |entries| && PathOf(entries[i].key) == path
      ensures Clip(entries[i].value, VALUE_MAX) == v
    {
      var p := CarriedEntry(kids, entries[i]);
    }
    if v != "" {
      var i := OwnEntry(kids, path);
    }
    LatestAgrees(entries, path, "", v);
  }

  lemma OwnEntry(kids: seq<Tree>, path: seq<string>) returns (i: nat)
    requires TreeOk(kids) && PathsCarried(kids) && HasValue(kids, path)
    ensures i < |SaveEntries(kids, "")| && PathOf(SaveEntries(kids, "")[i].key) == path
  {
    var e := Assign(KeyBelow("", path), ValueAt(kids, path));
    EntryComplete(kids, "", path);
    i :| 0 <= i < |SaveEntries(kids, "")| && SaveEntries(kids, "")[i] == e;
    CarriedLine(kids, path);
    ValuePath(kids, path);
    PathKey(path);
  }

  /** What is the same after a restart was a key and a value that lines can carry. */
  lemma SameKeySafe(kids: seq<Tree>, path: seq<string>) returns (from: seq<string>, a: Assign)
    requires TreeOk(kids) && CStrings(kids) && NoLineEnds(kids) && HasValue(kids, path) && Same(kids, path)
    ensures Brings(kids, from, a) && a.key == JoinDots(path) && Clip(a.value, VALUE_MAX) == ValueAt(kids, path)
    ensures SafeKey(JoinDots(path)) && |JoinDots(path)| < FULL_MAX && |JoinDots(path)| <= |Undotted(from)|
  {
    from, a := RestartedFrom(kids, path);
    BroughtKey(kids, from, a);
  }

  lemma SameValueSafe(kids: seq<Tree>, from: seq<string>, a: Assign)
    requires TreeOk(kids) && CStrings(kids) && Brings(kids, from, a) && ':' !in JoinDots(from)
    ensures Clip(a.value, VALUE_MAX) == a.value && SafeValue(a.value)
  {
    SavedKey(from);
    ValuePath(kids, from);
    UndottedParts(from);
    assert ':' !in Clip(Undotted(from), FULL_MAX);
  }

  lemma SameNoLineEnds(kids: seq<Tree>)
    requires AllSame(kids)
    ensures NoLineEnds(kids)
  {
    forall path | HasValue(kids, path)
      ensures '\n' !in JoinDots(path) && '\n' !in ValueAt(kids, path)
    {
      assert Same(kids, path);
      LoadedOneLine(SaveText(kids), path);
    }
  }

  ghost predicate SafePaths(kids: seq<Tree>) {
    && NoLineEnds(kids)
    && forall path | HasValue(kids, path) ::
         SafeKey(JoinDots(path)) && |JoinDots(path)| < FULL_MAX && SafeValue(ValueAt(kids, path))
  }

  lemma SameSafe(kids: seq<Tree>)
    requires TreeOk(kids) && CStrings(kids) && AllSame(kids)
    ensures SafePaths(kids)
  {
    SameNoLineEnds(kids);
    forall path | HasValue(kids, path)
      ensures SafeKey(JoinDots(path)) && |JoinDots(path)| < FULL_MAX && SafeValue(ValueAt(kids, path))
    {
      var from, a := SameKeySafe(kids, path);
      var from', a' := SameKeySafe(kids, from);
      SameValueSafe(kids, from, a);
    }
  }

  /**
    No key in front of a dot survives on its own line, so it would need that of a
    longer one, and that one a longer one still.
   */
  lemma {:induction false} SameNoDot(kids: seq<Tree>, path: seq<string>)
    requires TreeOk(kids) && CStrings(kids) && AllSame(kids) && SafePaths(kids) && HasValue(kids, path)
    ensures JoinDots(path)[0] != '.'
    decreases FULL_MAX - |JoinDots(path)|
  {
    if JoinDots(path)[0] == '.' {
      var from, a := SameKeySafe(kids, path);
      ValuePath(kids, from);
      FirstDot(from);
      UndottedParts(from);
      if |from| > 1 && from[0] == "" {
        SameNoDot(kids, from);
      } else {
        CarriedLine(kids, from);
      }
      assert false;
    }
  }

  lemma SamePathsCarried(kids: seq<Tree>)
    requires TreeOk(kids) && CStrings(kids) && AllSame(kids)
    ensures PathsCarried(kids)
  {
    SameSafe(kids);
    forall path | HasValue(kids, path)
      ensures Carried(JoinDots(path), ValueAt(kids, path))
    {
      SameNoDot(kids, path);
    }
  }

  // ---------------------------------------------------------------- main results

  /** Every key reads the same after a restart. */
  ghost predicate SurvivesRestart(kids: seq<Tree>) {
    forall key :: Get(Restarted(kids), key) == Get(kids, key)
  }

  /** Everything that can be read can be carried. */
  ghost predicate AllCarried(kids: seq<Tree>) {
    forall key | ShortSegments(key) && Get(kids, key).Some? :: Carried(key, Get(kids, key).value)
  }

  lemma CarriedPaths(kids: seq<Tree>)
    requires TreeOk(kids)
    ensures AllCarried(kids) <==> PathsCarried(kids)
  {
    if AllCarried(kids) {
      forall path | HasValue(kids, path)
        ensures Carried(JoinDots(path), ValueAt(kids, path))
      {
        ValuePath(kids, path);
        PathKey(path);
        assert Get(kids, JoinDots(path)) == Some(ValueAt(kids, path));
      }
    }
    if PathsCarried(kids) {
      forall key | ShortSegments(key) && Get(kids, key).Some?
        ensures Carried(key, Get(kids, key).value)
      {
        assert HasValue(kids, PathOf(key));
        ShortPath(key);
      }
    }
  }

  lemma SurvivesPaths(kids: seq<Tree>)
    requires TreeOk(kids) && SurvivesRestart(kids)
    ensures AllSame(kids)
  {
    forall path | HasValue(kids, path)
      ensures Same(kids, path)
    {
      ValuePath(kids, path);
      PathKey(path);
      assert Get(Restarted(kids), JoinDots(path)) == Get(kids, JoinDots(path));
    }
  }

  /** Every key reads the same after a restart, if and only if everything that can be read can be carried. */
  lemma SaveLoadPreservesIff(kids: seq<Tree>)
    requires TreeOk(kids) && CStrings(kids)
    ensures SurvivesRestart(kids) <==> AllCarried(kids)
  {
    CarriedPaths(kids);
    if SurvivesRestart(kids) {
      SurvivesPaths(kids);
      SamePathsCarried(kids);
    }
    if AllCarried(kids) {
      forall key
        ensures Get(Restarted(kids), key) == Get(kids, key)
      {
        CarriedSame(kids, PathOf(key));
      }
    }
  }

  // ---------------------------------------------------------------- runs

  /** What callers can pass: C strings. */
  predicate NoNuls(a: Assign) {
    NUL !in a.key && NUL !in a.value
  }

  lemma RunValue(assigns: seq<Assign>, path: seq<string>) returns (i: nat)
    requires HasValue(AssignAll([], assigns), path)
    ensures i < |assigns| && Stored(assigns[i].key) == JoinDots(path)
    ensures ValueAt(AssignAll([], assigns), path) == Clip(assigns[i].value, VALUE_MAX)
  {
    AssignAllValue([], assigns, path);
    EmptyValue(path);
    i := LatestFrom(assigns, path, "");
  }

  lemma RunOk(assigns: seq<Assign>)
    requires forall i | 0 <= i < |assigns| :: NoNuls(assigns[i])
    ensures TreeOk(AssignAll([], assigns)) && CStrings(AssignAll([], assigns))
  {
    var kids := AssignAll([], assigns);
    SiblingsStayDistinct([], assigns);
    forall path | HasValue(kids, path)
      ensures NUL !in JoinDots(path) && NUL !in ValueAt(kids, path) && |ValueAt(kids, path)| < VALUE_MAX
    {
      var i := RunValue(assigns, path);
      assert NoNuls(assigns[i]);
      StoredFree(assigns[i].key, NUL);
      ClipKeepsFree(assigns[i].value, VALUE_MAX, NUL);
    }
  }

  /** After any run of assignments: a restart preserves what every key reads, if and only if all of it can be carried. */
  lemma RunSurvivesRestartIff(assigns: seq<Assign>)
    requires forall i | 0 <= i < |assigns| :: NoNuls(assigns[i])
    ensures SurvivesRestart(AssignAll([], assigns)) <==> AllCarried(AssignAll([], assigns))
  {
    RunOk(assigns);
    SaveLoadPreservesIff(AssignAll([], assigns));
  }

  /** What a caller may set so that it survives: nothing at all, or what can be carried once it is cut to its buffers. */
  predicate SafeAssign(a: Assign) {
    a.value == "" || Carried(Stored(a.key), Clip(a.value, VALUE_MAX))
  }

  /** A run of such assignments survives a restart. */
  lemma RunSurvivesRestart(assigns: seq<Assign>, key: string)
    requires forall i | 0 <= i < |assigns| :: NoNuls(assigns[i]) && SafeAssign(assigns[i])
    ensures Get(Restarted(AssignAll([], assigns)), key) == Get(AssignAll([], assigns), key)
  {
    var kids := AssignAll([], assigns);
    RunOk(assigns);
    forall path | HasValue(kids, path)
      ensures Carried(JoinDots(path), ValueAt(kids, path))
    {
      var i := RunValue(assigns, path);
      assert SafeAssign(assigns[i]);
    }
    CarriedSame(kids, PathOf(key));
  }

  lemma OneValue(key: string, value: string, path: seq<string>)
    requires path != []
    ensures ValueAt(Assigned([], Assign(key, value)), path) == if path == PathOf(key) then Clip(value, VALUE_MAX) else ""
  {
    PutThenValue([], PathOf(key), Clip(value, VALUE_MAX), path);
    EmptyValue(path);
  }

  lemma OneOk(key: string, value: string)
    requires NUL !in key && NUL !in value
    ensures TreeOk(Assigned([], Assign(key, value))) && CStrings(Assigned([], Assign(key, value)))
  {
    var a := Assign(key, value);
    assert AssignAll([], [a]) == Assigned([], a);
    assert NoNuls(a);
    RunOk([a]);
  }

  lemma OneOnly(key: string, value: string)
    ensures forall path | HasValue(Assigned([], Assign(key, value)), path) ::
              path == PathOf(key) && ValueAt(Assigned([], Assign(key, value)), path) == Clip(value, VALUE_MAX)
  {
    forall path | HasValue(Assigned([], Assign(key, value)), path)
      ensures path == PathOf(key) && ValueAt(Assigned([], Assign(key, value)), path) == Clip(value, VALUE_MAX)
    {
      OneValue(key, value, path);
    }
  }

  /** A parameter that is alone and survives can be carried. */
  lemma OneSurvivor(key: string, value: string)
    requires NUL !in key && NUL !in value && value != ""
    requires Same(Assigned([], Assign(key, value)), PathOf(key))
    ensures Carried(Stored(key), Clip(value, VALUE_MAX))
  {
    var kids, path := Assigned([], Assign(key, value)), PathOf(key);
    OneOk(key, value);
    OneOnly(key, value);
    OneValue(key, value, path);
    LoadedOneLine(SaveText(kids), path);
    assert NoLineEnds(kids);
    var from, a := SameKeySafe(kids, path);
    SameValueSafe(kids, from, a);
    ValuePath(kids, path);
    UndottedParts(path);
    FirstDot(path);
  }

  /**
    Set, saved, loaded: whatever the key and the value, the key reads the same after
    the restart if and only if the value is empty or both, cut to their buffers, can
    be carried.
   */
  lemma SetSurvivesIff(key: string, value: string)
    requires NUL !in key && NUL !in value
    ensures var kids := Assigned([], Assign(key, value));
      Get(Restarted(kids), key) == Get(kids, key) <==>
      value == "" || Carried(Stored(key), Clip(value, 256))
    ensures ShortSegments(key) && 0 < |value| < 256 ==>
      (Get(Restarted(Assigned([], Assign(key, value))), key) == Some(value) <==> Carried(key, value))
  {
    var kids, path := Assigned([], Assign(key, value)), PathOf(key);
    OneOk(key, value);
    OneOnly(key, value);
    OneValue(key, value, path);
    if ShortSegments(key) {
      ShortPath(key);
    }
    if value == "" || Carried(Stored(key), Clip(value, VALUE_MAX)) {
      CarriedSame(kids, path);
    } else if Same(kids, path) {
      OneSurvivor(key, value);
    }
  }

  // ---------------------------------------------------------------- what is lost

  /** A value with a newline inside is lost by a restart, whatever else there is. */
  lemma NewlineValueLost(kids: seq<Tree>, key: string)
    requires Get(kids, key).Some? && '\n' in Get(kids, key).value
    ensures Get(Restarted(kids), key) != Get(kids, key)
  {
    if Get(Restarted(kids), key) == Get(kids, key) {
      LoadedOneLine(SaveText(kids), PathOf(key));
    }
  }

  /** Setting a value with a newline succeeds and reads back, and a restart loses it. */
  lemma NewlineValueSetAndLost(key: string)
    ensures var kids := Assigned([], Assign(key, "a\nb"));
      Get(kids, key) == Some("a\nb") && Get(Restarted(kids), key) != Some("a\nb")
  {
    var kids := Assigned([], Assign(key, "a\nb"));
    SetThenGet([], key, "a\nb", key);
    assert "a\nb"[1] == '\n';
    NewlineValueLost(kids, key);
  }

  /** A key with a colon can be set and read, and a restart loses it. */
  lemma ColonKeyLost(key: string, value: string)
    requires NUL !in key && NUL !in value && ShortSegments(key) && ':' in key && 0 < |value| < VALUE_MAX
    ensures var kids := Assigned([], Assign(key, value));
      Get(kids, key) == Some(value) && Get(Restarted(kids), key) != Some(value)
  {
    SetThenGet([], key, value, key);
    SetSurvivesIff(key, value);
  }

  lemma DottedKey(key: string)
    requires ShortSegments(key)
    ensures ShortSegments("." + key) && PathOf("." + key) == [""] + PathOf(key)
  {
    assert "." + key == "" + ['.'] + key;
    ShortCons("", key);
    ShortPath(key);
    ShortPath("." + key);
    IndexOfAfter("", '.', key);
    SplitDot("." + key);
    assert ("." + key)[1..] == key;
  }

  /** The file does not tell a key behind a dot from the key itself. */
  lemma DottedText(key: string, value: string)
    requires ShortSegments(key)
    ensures SaveText(Assigned([], Assign("." + key, value))) == SaveText(Assigned([], Assign(key, value)))
  {
    var below := Assigned([], Assign(key, value));
    DottedKey(key);
    assert ([""] + PathOf(key))[1..] == PathOf(key);
    assert Assigned([], Assign("." + key, value)) == [Node("", "", below)];
    assert SaveEntries([Node("", "", below)], "") == SaveEntries(below, "");
  }

  /** A value set for a key behind a dot is set for the key itself after a restart. */
  lemma LeadingDotLost(key: string, value: string)
    requires ShortSegments(key) && Carried(key, value) && 0 < |value| < VALUE_MAX
    ensures var kids := Assigned([], Assign("." + key, value));
      && Get(kids, "." + key) == Some(value) && Get(kids, key) == None
      && Get(Restarted(kids), "." + key) == None && Get(Restarted(kids), key) == Some(value)
  {
    var kids, plain := Assigned([], Assign("." + key, value)), Assigned([], Assign(key, value));
    DottedKey(key);
    PathInjective("." + key, key);
    SetThenGet([], "." + key, value, "." + key);
    SetThenGet([], "." + key, value, key);
    EmptyValue(PathOf(key));
    DottedText(key, value);
    SetSurvivesIff(key, value);
    if HasValue(Restarted(plain), PathOf("." + key)) {
      DottedBrought(key, value);
      assert false;
    }
  }

  lemma DottedSetAndLost()
    ensures var kids := Assigned([], Assign(".b", "v"));
      Get(kids, ".b") == Some("v") && Get(Restarted(kids), ".b") == None && Get(Restarted(kids), "b") == Some("v")
  {
    ShortOne("b");
    assert "." + "b" == ".b";
    LeadingDotLost("b", "v");
  }

  lemma DottedBrought(key: string, value: string)
    requires ShortSegments(key) && Carried(key, value) && NUL !in value
    ensures !HasValue(Restarted(Assigned([], Assign(key, value))), PathOf("." + key))
  {
    var plain := Assigned([], Assign(key, value));
    OneOk(key, value);
    OneOnly(key, value);
    ShortPath(key);
    DottedKey(key);
    ShortPath("." + key);
    ClipKeepsFree(value, VALUE_MAX, '\n');
    if HasValue(Restarted(plain), PathOf("." + key)) {
      var from, a := RestartedFrom(plain, PathOf("." + key));
      BroughtKey(plain, from, a);
      PathOfOk(key);
      UndottedParts(PathOf(key));
      assert false;
    }
  }
}
