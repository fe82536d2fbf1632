/**
  A console session: a growable byte buffer that behaves as a queue of lines
  (console/src/console_impl.c, sess_append, sess_count_lines, console_write,
  console_read_line, console_banner, console_clear, console_status).
 */
module ConsoleBuffer {
  import opened CText

  const EAGAIN: int := -11
  const EINVAL: int := -22
  const ENOBUFS: int := -105
  const FIRST_CAP: nat := 64

  /** What a session holds: the bytes not read yet, the counter of written bytes (64 bits wide), and whether it is open. */
  datatype State = State(content: string, written: nat, active: bool)

  // ---------------------------------------------------------------- specification

  function CountLines(content: string): nat {
    if content == "" then 0 else (if content[0] == '\n' then 1 else 0) + CountLines(content[1..])
  }

  function Appended(s: State, data: string): State {
    s.(content := s.content + data, written := (s.written + |data|) % TWO_POW_64)
  }

  function WriteSpec(s: State, data: string): (State, int) {
    if !s.active then (s, EINVAL) else (Appended(s, data), 0)
  }

  /** The first line, if it is complete and fits a buffer of cap bytes with its NUL. */
  function ReadSpec(s: State, cap: nat): (State, int, string) {
    if !s.active || cap == 0 then (s, EINVAL, "")
    else
      var pos := IndexOf(s.content, '\n');
      if pos == |s.content| then (s, EAGAIN, "")
      else if pos >= cap then (s, ENOBUFS, "")
      else (s.(content := s.content[pos + 1..]), 0, s.content[..pos])
  }

  function Escape(text: string): string {
    if text == "" then ""
    else (if text[0] == '\n' then "\\n" else [text[0]]) + Escape(text[1..])
  }

  function BannerSpec(s: State, text: string): (State, int) {
    if !s.active then (s, EINVAL)
    else (Appended(Appended(s.(content := "", written := 0), Escape(text)), "\n"), 0)
  }

  function ClearSpec(s: State): (State, int) {
    if !s.active then (s, EINVAL) else (s.(content := ""), 0)
  }

  /** c doubled until it reaches need. */
  function Doubled(c: nat, need: nat): (r: nat)
    requires c > 0
    ensures r >= need && r >= c && (r > c ==> r < 2 * need)
    decreases need - c
  {
    if c >= need then c else Doubled(2 * c, need)
  }

  // ---------------------------------------------------------------- implementation

  /** memcpy of a text to dst[at..] */
  method CopyTo(dst: array<char>, at: nat, data: string)
    requires at + |data| <= dst.Length
    modifies dst
    ensures dst[..at + |data|] == old(dst[..at]) + data
  {
    var i := 0;
    while i < |data|
      invariant 0 <= i <= |data| && dst[..at + i] == old(dst[..at]) + data[..i]
    {
      dst[at + i] := data[i];
      assert dst[..at + i + 1] == dst[..at + i] + [data[i]];
      assert data[..i + 1] == data[..i] + [data[i]];
      i := i + 1;
    }
    assert data[..i] == data;
  }

  /** memmove of buf[from..to] to the front. */
  method MoveDown(buf: array<char>, from: nat, to: nat)
    requires from <= to <= buf.Length
    modifies buf
    ensures buf[..to - from] == old(buf[from..to])
  {
    var i := 0;
    while i < to - from
      invariant 0 <= i <= to - from
      invariant forall k | 0 <= k < i :: buf[k] == old(buf[from + k])
      invariant forall k | i <= k < buf.Length :: buf[k] == old(buf[k])
    {
      buf[i] := buf[from + i];
      i := i + 1;
    }
  }

  method EscapeText(text: string) returns (escaped: string)
    ensures escaped == Escape(text)
  {
    escaped := "";
    var i := 0;
    while i < |text|
      invariant 0 <= i <= |text|
      invariant escaped + Escape(text[i..]) == Escape(text)
    {
      assert text[i..][0] == text[i] && text[i..][1..] == text[i + 1..];
      var piece := if text[i] == '\n' then "\\n" else [text[i]];
      ConcatAssoc(escaped, piece, Escape(text[i + 1..]));
      escaped := escaped + piece;
      i := i + 1;
    }
    assert escaped + "" == escaped;
  }

  class Session {
    var buf: array?<char>
    var len: nat
    var cap: nat
    var written: nat
    var active: bool

    function Owned(): set<object>
      reads this
    {
      if buf == null then {} else {buf}
    }

    /** An allocated buffer has room for a NUL after the content, and holds it there. */
    ghost predicate Valid()
      reads this, Owned()
    {
      && written < TWO_POW_64
      && (buf == null ==> len == 0 && cap == 0)
      && (buf != null ==> buf.Length == cap && len < cap && buf[len] == NUL)
    }

    function View(): State
      requires buf != null ==> len <= buf.Length
      reads this, Owned()
    {
      State(if buf == null then "" else buf[..len], written, active)
    }

    constructor Open()
      ensures Valid() && View() == State("", 0, true) && Owned() == {}
    {
      buf, len, cap, written, active := null, 0, 0, 0, true;
    }

    /** realloc to the next doubled capacity that holds `need` bytes. */
    method Reserve(need: nat)
      requires Valid() && need > cap
      modifies this`buf, this`cap
      ensures Valid() && View() == old(View()) && len == old(len)
      ensures buf != null && need <= cap && fresh(buf)
      ensures cap == Doubled(if old(cap) != 0 then old(cap) else FIRST_CAP, need)
    {
      var ncap := if cap != 0 then cap else FIRST_CAP;
      while ncap < need
        invariant ncap > 0 && Doubled(ncap, need) == Doubled(if cap != 0 then cap else FIRST_CAP, need)
        decreases need - ncap
      {
        ncap := ncap * 2;
      }
      var grown := new char[ncap];
      if buf != null {
        CopyTo(grown, 0, buf[..len + 1]);
        assert grown[..len] == grown[..len + 1][..len] == buf[..len];
      } else {
        grown[0] := NUL;
      }
      buf, cap := grown, ncap;
    }

    /** sess_append */
    method Append(data: string)
      requires Valid()
      modifies this, Owned()
      ensures Valid() && View() == Appended(old(View()), data)
      ensures fresh(Owned() - old(Owned()))
    {
      if len + |data| + 1 > cap {
        Reserve(len + |data| + 1);
      }
      ghost var before := buf[..len];
      CopyTo(buf, len, data);
      len := len + |data|;
      buf[len] := NUL;
      written := (written + |data|) % TWO_POW_64;
      assert buf[..len] == before + data;
    }

    method Free()
      requires Valid()
      modifies this`buf, this`len, this`cap
      ensures Valid() && View() == old(View()).(content := "") && Owned() == {}
    {
      buf, len, cap := null, 0, 0;
    }

    method Write(data: string) returns (rc: int)
      requires Valid()
      modifies this, Owned()
      ensures Valid() && (View(), rc) == WriteSpec(old(View()), data)
      ensures fresh(Owned() - old(Owned()))
    {
      if !active {
        return EINVAL;
      }
      Append(data);
      return 0;
    }

    /** memchr for the end of the first line. */
    method FindNewline() returns (pos: nat)
      requires Valid()
      ensures pos == IndexOf(View().content, '\n')
    {
      pos := 0;
      ghost var content := View().content;
      assert content[0..] == content;
      while pos < len && buf[pos] != '\n'
        invariant pos <= len == |content|
        invariant IndexOf(content, '\n') == pos + IndexOf(content[pos..], '\n')
      {
        assert content[pos..][1..] == content[pos + 1..];
        pos := pos + 1;
      }
    }

    /** memmove of what follows the first line to the front, or free when nothing does. */
    method Consume(pos: nat)
      requires Valid() && pos < len
      modifies this, Owned()
      ensures Valid() && View() == old(View()).(content := old(View()).content[pos + 1..])
      ensures fresh(Owned() - old(Owned()))
    {
      ghost var content := View().content;
      var rest := len - (pos + 1);
      if rest == 0 {
        assert content[pos + 1..] == "";
        Free();
        return;
      }
      MoveDown(buf, pos + 1, len);
      len := rest;
      buf[rest] := NUL;
      assert buf[..len] == content[pos + 1..];
    }

    method ReadLine(out: array<char>) returns (rc: int, n: nat)
      requires Valid() && out !in Owned()
      modifies this, Owned(), out
      ensures Valid()
      ensures var (s, code, line) := ReadSpec(old(View()), out.Length);
        && View() == s && rc == code && n == |line|
        && (rc == 0 ==> n < out.Length && out[..n] == line && out[n] == NUL)
      ensures fresh(Owned() - old(Owned()))
    {
      if !active || out.Length == 0 {
        return EINVAL, 0;
      }
      var pos := FindNewline();
      if pos == len {
        return EAGAIN, 0;
      }
      if pos >= out.Length {
        return ENOBUFS, 0;
      }
      ghost var content := View().content;
      var i := 0;
      while i < pos
        invariant 0 <= i <= pos && out[..i] == content[..i]
        invariant Valid() && View() == old(View())
        modifies out
      {
        out[i] := buf[i];
        i := i + 1;
      }
      out[pos] := NUL;
      assert out[..pos] == content[..pos];
      Consume(pos);
      return 0, pos;
    }

    method Banner(text: string) returns (rc: int)
      requires Valid()
      modifies this, Owned()
      ensures Valid() && (View(), rc) == BannerSpec(old(View()), text)
      ensures fresh(Owned() - old(Owned()))
    {
      if !active {
        return EINVAL;
      }
      Free();
      written := 0;
      var escaped := EscapeText(text);
      Append(escaped);
      Append("\n");
      return 0;
    }

    method Clear() returns (rc: int)
      requires Valid()
      modifies this`buf, this`len, this`cap
      ensures Valid() && (View(), rc) == ClearSpec(old(View()))
    {
      if !active {
        return EINVAL;
      }
      Free();
      return 0;
    }

    method Close() returns (rc: int)
      requires Valid()
      modifies this`active
      ensures Valid() && View() == old(View()).(active := false)
      ensures rc == if old(active) then 0 else EINVAL
    {
      if !active {
        return EINVAL;
      }
      active := false;
      return 0;
    }

    /** The line count that console_status reports. */
    method LineCount() returns (c: nat)
      requires Valid()
      ensures c == CountLines(View().content)
    {
      c := 0;
      ghost var content := View().content;
      assert content[0..] == content;
      for i := 0 to len
        invariant |content| == len && c + CountLines(content[i..]) == CountLines(content)
      {
        assert content[i..][1..] == content[i + 1..];
        if buf[i] == '\n' {
          c := c + 1;
        }
      }
    }
  }

  // ---------------------------------------------------------------- runs

  datatype Op = WriteOp(data: string) | ReadOp(cap: nat) | BannerOp(text: string) | ClearOp

  function Apply(s: State, op: Op): (State, int, string) {
    match op
    case WriteOp(data) => var r := WriteSpec(s, data); (r.0, r.1, "")
    case ReadOp(cap) => ReadSpec(s, cap)
    case BannerOp(text) => var r := BannerSpec(s, text); (r.0, r.1, "")
    case ClearOp => var r := ClearSpec(s); (r.0, r.1, "")
  }

  function Execute(s: State, ops: seq<Op>): State
    decreases |ops|
  {
    if ops == [] then s else Execute(Apply(s, ops[0]).0, ops[1..])
  }

  /** The lines that a run returns. */
  function Returned(s: State, ops: seq<Op>): seq<string>
    decreases |ops|
  {
    if ops == [] then []
    else
      var r := Apply(s, ops[0]);
      (if ops[0].ReadOp? && r.1 == 0 then [r.2] else []) + Returned(r.0, ops[1..])
  }

  /** The bytes that a run writes. */
  function Sent(ops: seq<Op>): string {
    if ops == [] then ""
    else (if ops[0].WriteOp? then ops[0].data else "") + Sent(ops[1..])
  }

  ghost predicate Streaming(ops: seq<Op>) {
    forall i | 0 <= i < |ops| :: ops[i].WriteOp? || ops[i].ReadOp?
  }

  // ---------------------------------------------------------------- main results

  lemma ReadCuts(s: State, cap: nat)
    requires ReadSpec(s, cap).1 == 0
    ensures var (t, _, line) := ReadSpec(s, cap);
      s.content == line + "\n" + t.content && '\n' !in line && t.written == s.written && t.active
  {
  }

  lemma Regroup(line: string, newline: string, rest: string, sent: string)
    ensures line + newline + rest + sent == line + newline + (rest + sent)
  {
  }

  /**
    Over every run of writes and reads nothing is lost, doubled or reordered:
    what was there and what was written is what was returned, line by line, and
    then what is still buffered.
   */
  lemma {:induction false} NothingLost(s: State, ops: seq<Op>)
    requires s.active && Streaming(ops)
    ensures s.content + Sent(ops) == ConcatMap(Terminated, Returned(s, ops)) + Execute(s, ops).content
    ensures Execute(s, ops).active
    decreases |ops|
  {
    if ops == [] {
      assert s.content + "" == s.content;
    } else {
      var r, rest := Apply(s, ops[0]), ops[1..];
      NothingLost(r.0, rest);
      match ops[0] {
        case WriteOp(data) =>
          ConcatAssoc(s.content, data, Sent(rest));
          assert [] + Returned(r.0, rest) == Returned(r.0, rest);
        case ReadOp(cap) =>
          assert "" + Sent(rest) == Sent(rest);
          if r.1 == 0 {
            ReadCuts(s, cap);
            Regroup(r.2, "\n", r.0.content, Sent(rest));
            ConcatMapHead(r.2, Returned(r.0, rest));
            ConcatAssoc(Terminated(r.2), ConcatMap(Terminated, Returned(r.0, rest)), Execute(s, ops).content);
          } else {
            assert [] + Returned(r.0, rest) == Returned(r.0, rest);
          }
      }
    }
  }

  lemma ConcatMapHead(line: string, rest: seq<string>)
    ensures ConcatMap(Terminated, [line] + rest) == Terminated(line) + ConcatMap(Terminated, rest)
  {
    assert ([line] + rest)[1..] == rest;
  }

  lemma {:induction false} CountAppend(a: string, b: string)
    ensures CountLines(a + b) == CountLines(a) + CountLines(b)
  {
    if a == "" {
      assert a + b == b;
    } else {
      AppendHead(a, b);
      CountAppend(a[1..], b);
    }
  }

  lemma {:induction false} NoNewlineNoLine(s: string)
    ensures CountLines(s) == 0 <==> '\n' !in s
  {
    if s != "" {
      NoNewlineNoLine(s[1..]);
      assert s == [s[0]] + s[1..];
    }
  }

  /** The reported count is one more before a successful read than after it, and zero exactly when no line is complete. */
  lemma ReadTakesOneLine(s: State, cap: nat)
    requires s.active && cap > 0
    ensures var (t, rc, _) := ReadSpec(s, cap);
      && (rc == 0 ==> CountLines(t.content) == CountLines(s.content) - 1)
      && (rc == EAGAIN <==> CountLines(s.content) == 0)
  {
    NoNewlineNoLine(s.content);
    var pos := IndexOf(s.content, '\n');
    if pos < |s.content| {
      var line, rest := s.content[..pos], s.content[pos + 1..];
      assert s.content == line + ("\n" + rest);
      CountAppend(line, "\n" + rest);
      NoNewlineNoLine(line);
      assert ("\n" + rest)[1..] == rest;
    } else {
      assert s.content[..pos] == s.content;
    }
  }

  /** Reads with a buffer that is large enough, k times. */
  function Reads(k: nat, cap: nat): seq<Op> {
    if k == 0 then [] else [ReadOp(cap)] + Reads(k - 1, cap)
  }

  /** Exactly as many lines as reported can be read; the next read finds none. */
  lemma {:induction false} ReportedLinesReadable(s: State, cap: nat)
    requires s.active && cap > |s.content|
    ensures var k := CountLines(s.content);
      |Returned(s, Reads(k, cap))| == k && ReadSpec(Execute(s, Reads(k, cap)), cap).1 == EAGAIN
    decreases CountLines(s.content)
  {
    var k := CountLines(s.content);
    ReadTakesOneLine(s, cap);
    if k > 0 {
      var t := ReadSpec(s, cap).0;
      ReportedLinesReadable(t, cap);
      assert Reads(k, cap)[0] == ReadOp(cap) && Reads(k, cap)[1..] == Reads(k - 1, cap);
    }
  }

  lemma {:induction false} EscapedHasNoNewline(text: string)
    ensures '\n' !in Escape(text)
  {
    if text != "" {
      EscapedHasNoNewline(text[1..]);
    }
  }

  lemma {:induction false} EscapeAppend(a: string, b: string)
    ensures Escape(a + b) == Escape(a) + Escape(b)
  {
    if a == "" {
      assert a + b == b;
    } else {
      AppendHead(a, b);
      EscapeAppend(a[1..], b);
      ConcatAssoc(if a[0] == '\n' then "\\n" else [a[0]], Escape(a[1..]), Escape(b));
    }
  }

  lemma {:induction false} EscapePlain(a: string)
    requires '\n' !in a
    ensures Escape(a) == a
  {
    if a != "" {
      assert a == [a[0]] + a[1..];
      EscapePlain(a[1..]);
    }
  }

  /** What escaping does: a line end becomes a backslash and an n, and everything else stays. */
  lemma EscapeParts(a: string, b: string)
    ensures '\n' !in a ==> Escape(a) == a
    ensures Escape(a + "\n" + b) == Escape(a) + "\\n" + Escape(b)
  {
    if '\n' !in a {
      EscapePlain(a);
    }
    EscapeAppend(a + "\n", b);
    EscapeAppend(a, "\n");
    assert Escape("\n") == "\\n" by { assert "\n"[1..] == "" && "\\n" + "" == "\\n"; }
  }

  /** A read: its code, and what it does; a line that does not fit the buffer stays. */
  lemma ReadCode(s: State, cap: nat, line: string, rest: string)
    requires '\n' in s.content ==> s.content == line + "\n" + rest && '\n' !in line
    ensures var (t, rc, out) := ReadSpec(s, cap);
      && rc == (if !s.active || cap == 0 then EINVAL else if '\n' !in s.content then EAGAIN
                else if |line| >= cap then ENOBUFS else 0)
      && (if rc == 0 then out == line && t == s.(content := rest) else out == "" && t == s)
  {
    if '\n' in s.content {
      IndexOfAfter(line, '\n', rest);
      assert s.content == line + ['\n'] + rest;
      assert s.content[..|line|] == line && s.content[|line| + 1..] == rest;
    } else {
      IndexOfAbsent(s.content, '\n');
    }
  }

  /** A session that is not open refuses everything and keeps what it has. */
  lemma ClosedRefuses(s: State, text: string, cap: nat)
    requires !s.active
    ensures WriteSpec(s, text) == (s, EINVAL) && BannerSpec(s, text) == (s, EINVAL) && ClearSpec(s) == (s, EINVAL)
    ensures ReadSpec(s, cap) == (s, EINVAL, "")
  {
  }

  /** A write puts the bytes behind the others; a clear takes all bytes and leaves the counter. */
  lemma WriteAndClear(s: State, data: string)
    requires s.active && s.written < TWO_POW_64
    ensures var (t, rc) := WriteSpec(s, data);
      rc == 0 && t.content == s.content + data && t.active && (t.written - s.written - |data|) % TWO_POW_64 == 0
    ensures var (t, rc) := ClearSpec(s); rc == 0 && t.content == "" && t.active && t.written == s.written
  {
  }

  /** A banner replaces what was there, and the counter starts again with it. */
  lemma BannerStarts(s: State, text: string)
    requires s.active
    ensures var (t, rc) := BannerSpec(s, text);
      rc == 0 && t.content == Escape(text) + "\n" && t.written == (|Escape(text)| + 1) % TWO_POW_64 && t.active
  {
    ModAdd(|Escape(text)|, 1);
    assert "" + Escape(text) == Escape(text);
  }

  /** A banner always leaves exactly one line, the escaped text. */
  lemma BannerIsOneLine(s: State, text: string, cap: nat)
    requires s.active && cap > |Escape(text)|
    ensures var t := BannerSpec(s, text).0;
      CountLines(t.content) == 1 && ReadSpec(t, cap) == (t.(content := ""), 0, Escape(text))
  {
    BannerStarts(s, text);
    EscapedHasNoNewline(text);
    OneLine(BannerSpec(s, text).0, Escape(text), cap);
  }

  lemma OneLine(s: State, line: string, cap: nat)
    requires s.active && s.content == line + "\n" && '\n' !in line && cap > |line|
    ensures CountLines(s.content) == 1 && ReadSpec(s, cap) == (s.(content := ""), 0, line)
  {
    NoNewlineNoLine(line);
    CountAppend(line, "\n");
    assert "\n"[1..] == "";
    assert line + "\n" + "" == line + "\n";
    assert s.content[|line|] in s.content;
    ReadCode(s, cap, line, "");
  }

  /** The counter of a run of writes and reads grows by the bytes written, modulo 2^64. */
  lemma {:induction false} WrittenCounts(s: State, ops: seq<Op>)
    requires s.active && Streaming(ops) && s.written < TWO_POW_64
    ensures Execute(s, ops).written == (s.written + |Sent(ops)|) % TWO_POW_64
    decreases |ops|
  {
    if ops != [] {
      var next := Apply(s, ops[0]).0;
      WrittenCounts(next, ops[1..]);
      if ops[0].WriteOp? {
        assert next.written == (s.written + |ops[0].data|) % TWO_POW_64;
        assert |Sent(ops)| == |ops[0].data| + |Sent(ops[1..])|;
        ModAdd(s.written + |ops[0].data|, |Sent(ops[1..])|);
      } else {
        assert next.written == s.written && |Sent(ops)| == |Sent(ops[1..])|;
      }
    }
  }

  lemma ModAdd(a: nat, b: nat)
    ensures (a % TWO_POW_64 + b) % TWO_POW_64 == (a + b) % TWO_POW_64
  {
    var q := a / TWO_POW_64;
    assert a == q * TWO_POW_64 + a % TWO_POW_64;
    assert (a + b) == (a % TWO_POW_64 + b) + q * TWO_POW_64;
  }
}
