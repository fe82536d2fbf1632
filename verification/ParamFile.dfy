/**
  The parameter file: one `key: value` line for every parameter that has a value
  (bus/src/param.c, hw_param_save_file, hw_param_tree_save, hw_param_load_file).
 */
module ParamFile {
  import opened CText
  import opened ParamTree

  const LINE_MAX: nat := 1024
  const FULL_MAX: nat := 512

  // ---------------------------------------------------------------- writing

  function FullKey(prefix: string, key: string): string {
    Clip(if prefix == "" then key else prefix + "." + key, FULL_MAX)
  }

  /** The lines of a list of parameters and of all below them, parents first. */
  function SaveEntries(kids: seq<Tree>, prefix: string): seq<Assign> {
    if kids == [] then []
    else
      var k := kids[0];
      var full := FullKey(prefix, k.key);
      (if k.value == "" then [] else [Assign(full, k.value)]) + SaveEntries(k.kids, full) + SaveEntries(kids[1..], prefix)
  }

  function EntryLine(a: Assign): string {
    a.key + ": " + a.value
  }

  function EntryText(a: Assign): string {
    EntryLine(a) + "\n"
  }

  function SaveText(kids: seq<Tree>): string {
    ConcatMap(EntryText, SaveEntries(kids, ""))
  }

  /** The order of the lines: a parameter, then what is below it, then its siblings. */
  lemma SaveExample()
    ensures SaveEntries([Node("a", "1", [Node("b", "2", [])]), Node("c", "3", [])], "") ==
            [Assign("a", "1"), Assign("a.b", "2"), Assign("c", "3")]
    ensures EntryText(Assign("a.b", "2")) == "a.b: 2\n"
  {
    var c, b := Node("c", "3", []), Node("b", "2", []);
    assert FullKey("a", "b") == "a.b";
    assert SaveEntries([b], "a") == [Assign("a.b", "2")];
    assert SaveEntries([c], "") == [Assign("c", "3")];
    assert [Node("a", "1", [b]), c][1..] == [c];
  }

  // ---------------------------------------------------------------- reading

  predicate IsValueLead(c: char) {
    c == ' ' || c == '\t' || c == '"'
  }

  predicate IsValueTail(c: char) {
    IsSpace(c) || c == '"'
  }

  function DropLead(s: string): (t: string)
    ensures |t| <= |s| && (t == "" || !IsValueLead(t[0]))
  {
    if s != "" && IsValueLead(s[0]) then DropLead(s[1..]) else s
  }

  function DropTail(s: string, drop: char -> bool): (t: string)
    ensures t <= s && (t == "" || !drop(t[|t| - 1]))
  {
    if s != "" && drop(s[|s| - 1]) then DropTail(s[..|s| - 1], drop) else s
  }

  /** Where the key ends: the first colon, or the first equals sign if there is no colon. */
  function Separator(s: string): nat {
    if ':' in s then IndexOf(s, ':') else IndexOf(s, '=')
  }

  /** The assignment a line asks for. */
  function ParseLine(line: string): Option<Assign> {
    ParseUnblanked(SkipBlanks(line))
  }

  /** The same behind the blanks in front. */
  function ParseUnblanked(p: string): Option<Assign> {
    var sep := Separator(p);
    if p == "" || p[0] == '#' || p[0] == '\n' || p[0] == '\r' || sep >= |p| then None
    else
      var key := DropTail(p[..sep], IsSpace);
      var value := DropTail(DropLead(p[sep + 1..]), IsValueTail);
      if key == "" then None else Some(Assign(key, value))
  }

  function ParseBuffers(buffers: seq<string>): seq<Assign> {
    if buffers == [] then []
    else
      (match ParseLine(CStr(buffers[0])) case None => [] case Some(a) => [a]) + ParseBuffers(buffers[1..])
  }

  /** What loading a text does to the parameters there are. */
  function LoadInto(kids: seq<Tree>, text: string): seq<Tree> {
    AssignAll(kids, ParseBuffers(FileLines(text, LINE_MAX)))
  }

  // ---------------------------------------------------------------- implementation

  method SaveTree(kids: seq<Tree>, prefix: string) returns (entries: seq<Assign>)
    ensures entries == SaveEntries(kids, prefix)
    decreases kids
  {
    entries := [];
    var i := 0;
    while i < |kids|
      invariant 0 <= i <= |kids|
      invariant entries + SaveEntries(kids[i..], prefix) == SaveEntries(kids, prefix)
    {
      var k := kids[i];
      var full := FullKey(prefix, k.key);
      var own := if k.value == "" then [] else [Assign(full, k.value)];
      var below := SaveTree(k.kids, full);
      assert kids[i..][0] == k && kids[i..][1..] == kids[i + 1..];
      ConcatAssoc(entries, own + below, SaveEntries(kids[i + 1..], prefix));
      entries := entries + (own + below);
      i := i + 1;
    }
    assert entries + [] == entries;
  }

  method SaveFile(params: Params) returns (text: string)
    ensures text == SaveText(params.kids)
  {
    var entries := SaveTree(params.kids, "");
    text := "";
    var i := 0;
    while i < |entries|
      invariant 0 <= i <= |entries|
      invariant text + ConcatMap(EntryText, entries[i..]) == ConcatMap(EntryText, entries)
    {
      assert entries[i..][0] == entries[i] && entries[i..][1..] == entries[i + 1..];
      ConcatAssoc(text, EntryText(entries[i]), ConcatMap(EntryText, entries[i + 1..]));
      text := text + EntryText(entries[i]);
      i := i + 1;
    }
    assert text + [] == text;
  }

  lemma AssignAllOne(kids: seq<Tree>, a: Assign, rest: seq<Assign>)
    ensures AssignAll(kids, [a] + rest) == AssignAll(Assigned(kids, a), rest)
  {
    assert ([a] + rest)[1..] == rest;
  }

  method LoadFile(params: Params, text: string)
    modifies params
    ensures params.kids == LoadInto(old(params.kids), text)
  {
    var rest := text;
    while rest != ""
      invariant AssignAll(params.kids, ParseBuffers(FileLines(rest, LINE_MAX))) == LoadInto(old(params.kids), text)
      decreases |rest|
    {
      var n := FgetsLen(rest, LINE_MAX);
      var a := ParseLine(CStr(rest[..n]));
      assert FileLines(rest, LINE_MAX)[1..] == FileLines(rest[n..], LINE_MAX);
      if a.Some? {
        AssignAllOne(params.kids, a.value, ParseBuffers(FileLines(rest[n..], LINE_MAX)));
        params.kids := SetIn(params.kids, a.value.key, a.value.value);
      } else {
        assert [] + ParseBuffers(FileLines(rest[n..], LINE_MAX)) == ParseBuffers(FileLines(rest[n..], LINE_MAX));
      }
      rest := rest[n..];
    }
  }

  // ---------------------------------------------------------------- single lines

  /** A key that a line can carry: no colon, no blank or comment sign in front, no white space at the end. */
  predicate SafeKey(key: string) {
    && key != "" && ':' !in key
    && !IsBlank(key[0]) && key[0] != '#' && key[0] != '\r'
    && !IsSpace(key[|key| - 1])
  }

  /** A value that a line can carry: no blanks, quotes or white space at its edges. */
  predicate SafeValue(value: string) {
    value != "" ==> !IsValueLead(value[0]) && !IsValueTail(value[|value| - 1])
  }

  predicate OneLine(s: string) {
    '\n' !in s && NUL !in s
  }

  lemma {:induction false} DropTailAfter(a: string, b: string, drop: char -> bool)
    requires a == "" || !drop(a[|a| - 1])
    requires forall i | 0 <= i < |b| :: drop(b[i])
    ensures DropTail(a + b, drop) == a
    decreases |b|
  {
    if b != "" {
      var front := b[..|b| - 1];
      assert (a + b)[..|a + b| - 1] == a + front && (a + b)[|a + b| - 1] == b[|b| - 1];
      DropTailAfter(a, front, drop);
    } else {
      assert a + b == a;
    }
  }

  /** The first colon of a line whose key has none. */
  lemma ColonAfter(key: string, rest: string)
    requires ':' !in key
    ensures Separator(key + ":" + rest) == |key|
  {
    IndexOfAfter(key, ':', rest);
    assert (key + ":" + rest)[|key|] == ':';
    assert key + ":" + rest == key + [':'] + rest;
  }

  lemma ValueOf(value: string)
    requires SafeValue(value)
    ensures DropTail(DropLead(" " + value + "\n"), IsValueTail) == value
  {
    var s := " " + value + "\n";
    assert s[1..] == value + "\n";
    if value != "" {
      assert (value + "\n")[0] == value[0];
    }
    assert DropLead(value + "\n") == value + "\n";
    DropTailAfter(value, "\n", IsValueTail);
  }

  lemma SafeLineParsed(key: string, value: string)
    requires SafeKey(key) && SafeValue(value) && OneLine(key)
    ensures ParseLine(EntryLine(Assign(key, value)) + "\n") == Some(Assign(key, value))
  {
    var rest := " " + value + "\n";
    var line := EntryLine(Assign(key, value)) + "\n";
    assert line == key + ":" + rest;
    ColonAfter(key, rest);
    assert line[0] == key[0] && line[..|key|] == key && line[|key| + 1..] == rest;
    assert SkipBlanks(line) == line;
    DropTailAfter(key, "", IsSpace);
    assert key + "" == key;
    ValueOf(value);
  }

  lemma BeforeSeparator(p: string)
    requires ':' in p
    ensures Separator(p) < |p| && ':' !in p[..Separator(p)]
  {
    assert p[..|p|] == p;
  }

  lemma PrefixFree(t: string, s: string, c: char)
    requires t <= s && c !in s
    ensures c !in t
  {
    assert forall i | 0 <= i < |t| :: t[i] == s[i];
  }

  lemma {:induction false} ColonKept(s: string)
    requires ':' in s
    ensures ':' in SkipBlanks(s)
  {
    if IsBlank(s[0]) {
      ColonKept(s[1..]);
    }
  }

  lemma ParsedParts(line: string)
    requires ParseLine(line).Some?
    ensures var p := SkipBlanks(line); var sep := Separator(p);
      sep < |p| && ParseLine(line).value ==
        Assign(DropTail(p[..sep], IsSpace), DropTail(DropLead(p[sep + 1..]), IsValueTail))
  {
  }

  lemma {:induction false} BlanksSkipped(s: string)
    ensures forall i | 0 <= i < |s| - |SkipBlanks(s)| :: IsBlank(s[i])
  {
    if s != [] && IsBlank(s[0]) {
      BlanksSkipped(s[1..]);
      assert forall i | 0 < i < |s| - |SkipBlanks(s)| :: s[i] == s[1..][i - 1];
    }
  }

  /** A key read from a line with a colon is one that a line can carry. */
  lemma ParsedKeySafe(line: string)
    requires ':' in line && ParseLine(line).Some?
    ensures SafeKey(ParseLine(line).value.key)
  {
    ColonKept(line);
    BeforeSeparator(SkipBlanks(line));
    ParsedParts(line);
    KeyCutSafe(SkipBlanks(line), Separator(SkipBlanks(line)));
  }

  lemma KeyCutSafe(p: string, sep: nat)
    requires sep < |p| && ':' !in p[..sep] && !IsBlank(p[0]) && p[0] != '#' && p[0] != '\r'
    requires DropTail(p[..sep], IsSpace) != ""
    ensures SafeKey(DropTail(p[..sep], IsSpace))
  {
    PrefixFree(DropTail(p[..sep], IsSpace), p[..sep], ':');
  }

  lemma DroppedSafe(s: string)
    ensures SafeValue(DropTail(DropLead(s), IsValueTail))
  {
    var lead := DropLead(s);
    var back := DropTail(lead, IsValueTail);
    assert back != "" ==> back[0] == lead[0];
  }

  /** A value read from a line is safe. */
  lemma ParsedValueSafe(line: string)
    requires ParseLine(line).Some?
    ensures SafeValue(ParseLine(line).value.value)
  {
    var p := SkipBlanks(line);
    DroppedSafe(p[Separator(p) + 1..]);
  }

  /** A line without newlines inside brings back its key and its value exactly when both are safe. */
  lemma LineRoundTripIff(key: string, value: string)
    requires OneLine(key) && OneLine(value)
    ensures ParseLine(EntryLine(Assign(key, value)) + "\n") == Some(Assign(key, value)) <==> SafeKey(key) && SafeValue(value)
  {
    var line := EntryLine(Assign(key, value)) + "\n";
    if SafeKey(key) && SafeValue(value) {
      SafeLineParsed(key, value);
    } else if ParseLine(line).Some? {
      assert line[|key|] == ':';
      ParsedKeySafe(line);
      ParsedValueSafe(line);
    }
  }

  // ---------------------------------------------------------------- lines written by hand

  /** Blanks in front do not matter. */
  lemma {:induction false} BlanksInFront(blanks: string, line: string)
    requires forall i | 0 <= i < |blanks| :: blanks[i] == ' ' || blanks[i] == '\t'
    ensures SkipBlanks(blanks + line) == SkipBlanks(line) && ParseLine(blanks + line) == ParseLine(line)
  {
    if blanks == "" {
      assert blanks + line == line;
    } else {
      assert (blanks + line)[1..] == blanks[1..] + line;
      BlanksInFront(blanks[1..], line);
    }
  }

  /** An empty line, a comment and a line without a separator ask for nothing. */
  lemma NothingAsked(line: string)
    requires line == "" || line[0] in {'#', '\n', '\r'} || (':' !in line && '=' !in line)
    ensures ParseLine(line) == None
  {
    if line != "" && ':' !in line && '=' !in line {
      NoSeparator(line);
    }
  }

  lemma NoSeparator(line: string)
    requires ':' !in line && '=' !in line
    ensures Separator(SkipBlanks(line)) == |SkipBlanks(line)|
  {
    var p := SkipBlanks(line);
    assert forall c | c in p :: c in line;
    IndexOfAbsent(p, '=');
  }

  lemma SeparatedAt(key: string, rest: string)
    requires SafeKey(key) && Separator(key + ['='] + rest) == |key|
    requires key[0] != '\n'
    ensures ParseLine(key + ['='] + rest) == Some(Assign(key, DropTail(DropLead(rest), IsValueTail)))
  {
    var line := key + ['='] + rest;
    assert line[0] == key[0] && line[..|key|] == key && line[|key| + 1..] == rest;
    assert SkipBlanks(line) == line;
    DropTailAfter(key, "", IsSpace);
    assert key + "" == key;
  }

  /** Quotes around a value are dropped. */
  lemma ValueQuoted(value: string)
    requires SafeValue(value)
    ensures DropTail(DropLead(value + "\n"), IsValueTail) == value
    ensures DropTail(DropLead("\"" + value + "\"\n"), IsValueTail) == value
  {
    DropTailAfter(value, "\n", IsValueTail);
    DropTailAfter(value, "\"\n", IsValueTail);
    assert ("\"" + value + "\"\n")[1..] == value + "\"\n";
    if value == "" {
      assert "" + "\n" == "\n" && "" + "\"\n" == "\"\n" && "\"\n"[1..] == "\n";
    } else {
      assert (value + "\n")[0] == value[0] && (value + "\"\n")[0] == value[0];
    }
  }

  lemma EqualsAfter(key: string, rest: string)
    requires ':' !in key && ':' !in rest && '=' !in key
    ensures Separator(key + ['='] + rest) == |key|
  {
    IndexOfAfter(key, '=', rest);
  }

  /** Without a colon the first equals sign separates. */
  lemma EqualsParsed(key: string, value: string)
    requires SafeKey(key) && key[0] != '\n' && '=' !in key && SafeValue(value) && ':' !in value
    ensures ParseLine(key + ['='] + (value + "\n")) == Some(Assign(key, value))
  {
    ValueQuoted(value);
    EqualsLine(key, value + "\n", value);
  }

  /** Quotes around a value are dropped. */
  lemma QuotesParsed(key: string, value: string)
    requires SafeKey(key) && key[0] != '\n' && '=' !in key && SafeValue(value) && ':' !in value
    ensures ParseLine(key + ['='] + ("\"" + value + "\"\n")) == Some(Assign(key, value))
  {
    ValueQuoted(value);
    EqualsLine(key, "\"" + value + "\"\n", value);
  }

  lemma EqualsLine(key: string, rest: string, value: string)
    requires SafeKey(key) && key[0] != '\n' && '=' !in key && ':' !in rest
    requires DropTail(DropLead(rest), IsValueTail) == value
    ensures ParseLine(key + ['='] + rest) == Some(Assign(key, value))
  {
    EqualsAfter(key, rest);
    SeparatedAt(key, rest);
  }

  // ---------------------------------------------------------------- whole files

  lemma ParseBuffersCons(buffer: string, rest: seq<string>)
    ensures ParseBuffers([buffer] + rest) ==
            (match ParseLine(CStr(buffer)) case None => [] case Some(a) => [a]) + ParseBuffers(rest)
  {
    assert ([buffer] + rest)[1..] == rest;
  }

  lemma SkipBlanksOnlyLast(line: string)
    requires OnlyLast(line)
    ensures OnlyLast(SkipBlanks(line))
  {
    var p := SkipBlanks(line);
    OnlyLastCut(line, |line| - |p|);
    assert line[|line| - |p|..] == p;
  }

  lemma PartsOneLine(p: string, sep: nat)
    requires OnlyLast(p) && sep < |p|
    ensures '\n' !in DropTail(p[..sep], IsSpace)
    ensures '\n' !in DropTail(DropLead(p[sep + 1..]), IsValueTail)
  {
    OnlyLastCut(p, sep);
    PrefixFree(DropTail(p[..sep], IsSpace), p[..sep], '\n');
    OnlyLastCut(p, sep + 1);
    ValueOneLine(p[sep + 1..]);
  }

  /** No newline comes out of a line that has one only at its end. */
  lemma ParsedOneLine(line: string)
    requires OnlyLast(line) && ParseLine(line).Some?
    ensures NoNewlines(ParseLine(line).value)
  {
    SkipBlanksOnlyLast(line);
    ParsedParts(line);
    PartsOneLine(SkipBlanks(line), Separator(SkipBlanks(line)));
  }

  lemma OnlyLastCut(s: string, from: nat)
    requires OnlyLast(s) && from <= |s|
    ensures OnlyLast(s[from..])
    ensures from < |s| ==> '\n' !in s[..from]
  {
  }

  lemma {:induction false} LeadKeepsOnlyLast(s: string)
    requires OnlyLast(s)
    ensures OnlyLast(DropLead(s))
  {
    if s != "" && IsValueLead(s[0]) {
      OnlyLastCut(s, 1);
      LeadKeepsOnlyLast(s[1..]);
    }
  }

  lemma ValueOneLine(s: string)
    requires OnlyLast(s)
    ensures '\n' !in DropTail(DropLead(s), IsValueTail)
  {
    var lead := DropLead(s);
    LeadKeepsOnlyLast(s);
    var t := DropTail(lead, IsValueTail);
    assert forall i | 0 <= i < |t| :: t[i] == lead[i];
  }

  ghost predicate NoNewlines(a: Assign) {
    '\n' !in a.key && '\n' !in a.value
  }

  ghost predicate AllOneLine(assigns: seq<Assign>) {
    forall i | 0 <= i < |assigns| :: NoNewlines(assigns[i])
  }

  lemma AllOneLineHead(assigns: seq<Assign>, a: Assign)
    requires AllOneLine(assigns) && assigns == [a]
    ensures NoNewlines(a)
  {
    assert assigns[0] == a;
  }

  lemma {:induction false} ParsedOneLines(buffers: seq<string>)
    requires forall i | 0 <= i < |buffers| :: OnlyLast(buffers[i])
    ensures AllOneLine(ParseBuffers(buffers))
  {
    if buffers != [] {
      var c := CStr(buffers[0]);
      ParsedOneLines(buffers[1..]);
      assert OnlyLast(c);
      if ParseLine(c).Some? {
        ParsedOneLine(c);
      }
    }
  }

  /** Whatever a file holds, no key and no value read from it has a newline inside. */
  lemma ReadOneLines(text: string)
    ensures AllOneLine(ParseBuffers(FileLines(text, LINE_MAX)))
  {
    FileLinesNewlines(text, LINE_MAX);
    ParsedOneLines(FileLines(text, LINE_MAX));
  }

  /** The buffers of a saved line without newlines inside: that line. */
  lemma OneLineRead(key: string, value: string)
    requires OneLine(key) && OneLine(value) && |key| < FULL_MAX && |value| < VALUE_MAX
    ensures FileLines(EntryText(Assign(key, value)), LINE_MAX) == [EntryText(Assign(key, value))]
    ensures CStr(EntryText(Assign(key, value))) == EntryText(Assign(key, value))
  {
    var line := EntryLine(Assign(key, value));
    FileLinesCons(line, "", LINE_MAX);
    assert line + "\n" + "" == line + "\n";
    CStrId(line + "\n");
  }

  /**
    What the line `key: value` is read back as, whatever the key and the value:
    that assignment, if and only if the key has no colon and no newline and safe
    edges, and the value has no newline and safe edges.
   */
  lemma FileRoundTripIff(key: string, value: string)
    requires NUL !in key && NUL !in value && |key| < FULL_MAX && |value| < VALUE_MAX
    ensures ParseBuffers(FileLines(EntryText(Assign(key, value)), LINE_MAX)) == [Assign(key, value)] <==>
            SafeKey(key) && SafeValue(value) && '\n' !in key && '\n' !in value
  {
    var text := EntryText(Assign(key, value));
    var parsed := ParseBuffers(FileLines(text, LINE_MAX));
    ReadOneLines(text);
    if parsed == [Assign(key, value)] {
      AllOneLineHead(parsed, Assign(key, value));
    }
    if '\n' !in key && '\n' !in value {
      OneLineRead(key, value);
      LineRoundTripIff(key, value);
      ParseOne(text);
    }
  }

  lemma ParseOne(buffer: string)
    ensures ParseBuffers([buffer]) == match ParseLine(CStr(buffer)) case None => [] case Some(a) => [a]
  {
    ParseBuffersCons(buffer, []);
    assert [buffer] + [] == [buffer];
  }
}
