/**
  Lexical paths: normalising with a stack of components, joining, and the parent
  directory (fsp/src/fsp_path.c).
 */
module FspPath {
  import opened CText

  const NAME_MAX: nat := 256
  const DEPTH_MAX: nat := 64
  const BUF_MAX: nat := 4096
  const EINVAL: int := -22
  const ENAMETOOLONG: int := -36

  /** A path, or a negative error number. */
  datatype Result = Ok(path: string) | Err(code: int)

  // ---------------------------------------------------------------- specification

  /** The components between slashes, each cut to its buffer. */
  function Comps(s: string): seq<string>
    decreases |s|
  {
    if s == "" then []
    else if s[0] == '/' then Comps(s[1..])
    else
      var end := IndexOf(s, '/');
      [Cut(s[..end])] + Comps(s[end..])
  }

  function Cut(seg: string): string {
    Clip(seg, NAME_MAX)
  }

  /** What the components do to the stack; nothing when it would grow too deep. */
  function Walk(stack: seq<string>, comps: seq<string>): Option<seq<string>>
    decreases |comps|
  {
    if comps == [] then Some(stack)
    else if comps[0] == "." then Walk(stack, comps[1..])
    else if comps[0] == ".." then Walk(if stack == [] then [] else stack[..|stack| - 1], comps[1..])
    else if |stack| < DEPTH_MAX then Walk(stack + [comps[0]], comps[1..])
    else None
  }

  /** Every component after a slash. */
  function Slashed(stack: seq<string>): string {
    if stack == [] then "" else "/" + stack[0] + Slashed(stack[1..])
  }

  function Render(stack: seq<string>): string {
    if stack == [] then "/" else Slashed(stack)
  }

  /** Put together for a buffer of cap bytes. */
  function Fit(stack: seq<string>, cap: nat): Result {
    if |Render(stack)| < cap then Ok(Render(stack)) else Err(ENAMETOOLONG)
  }

  /** A relative path starts at the working directory. */
  function Source(input: string, cwd: Result): Result {
    if input != "" && input[0] == '/' then Ok(input)
    else
      match cwd
      case Err(e) => Err(e)
      case Ok(dir) => if |dir| + |input| + 2 > BUF_MAX then Err(ENAMETOOLONG) else Ok(dir + "/" + input)
  }

  function Normalize(input: string, cwd: Result, cap: nat): Result {
    if cap == 0 then Err(EINVAL)
    else
      match Source(input, cwd)
      case Err(e) => Err(e)
      case Ok(src) =>
        match Walk([], Comps(src))
        case None => Err(ENAMETOOLONG)
        case Some(stack) => Fit(stack, cap)
  }

  /** The directory with a slash at its end. */
  function WithSlash(dir: string): string {
    if dir != "" && dir[|dir| - 1] != '/' then dir + "/" else dir
  }

  function Join(dir: string, name: string, cwd: Result, cap: nat): Result {
    if cap == 0 then Err(EINVAL)
    else if |WithSlash(dir)| + |name| + 1 > BUF_MAX then Err(ENAMETOOLONG)
    else Normalize(WithSlash(dir) + name, cwd, cap)
  }

  /** Index of the last slash, -1 if there is none (strrchr). */
  function LastSlash(s: string): (i: int)
    ensures -1 <= i < |s|
    ensures i >= 0 ==> s[i] == '/'
    ensures forall j | i < j < |s| :: s[j] != '/'
  {
    if s == "" then -1
    else if s[|s| - 1] == '/' then |s| - 1
    else LastSlash(s[..|s| - 1])
  }

  function DropSlashes(s: string): (t: string)
    ensures t <= s && (s != "" ==> t != "")
  {
    if |s| > 1 && s[|s| - 1] == '/' then DropSlashes(s[..|s| - 1]) else s
  }

  function Parent(path: string, cwd: Result, cap: nat): Result {
    if cap == 0 then Err(EINVAL)
    else
      match Normalize(path, cwd, BUF_MAX)
      case Err(e) => Err(e)
      case Ok(full) => ParentOf(full, cap)
  }

  /** Without the last component. */
  function ParentOf(full: string, cap: nat): Result
    requires cap > 0
  {
    var norm := DropSlashes(full);
    var slash := LastSlash(norm);
    if slash < 0 then Err(EINVAL)
    else if slash == 0 then (if cap < 2 then Err(ENAMETOOLONG) else Ok("/"))
    else Ok(Clip(norm[..slash], cap))
  }

  // ---------------------------------------------------------------- implementation

  /** The PUSH macro: copies a text to out[n..], as long as a byte is left for the NUL. */
  method Push(out: array<char>, n: nat, s: string) returns (ok: bool, m: nat)
    requires n < out.Length
    modifies out
    ensures ok <==> n + |s| < out.Length
    ensures ok ==> m == n + |s| && out[..m] == old(out[..n]) + s
  {
    m := n;
    var i := 0;
    while i < |s|
      invariant 0 <= i <= |s| && m == n + i < out.Length
      invariant out[..m] == old(out[..n]) + s[..i]
    {
      if m + 1 >= out.Length {
        return false, m;
      }
      out[m] := s[i];
      assert out[..m + 1] == out[..m] + [s[i]];
      assert s[..i + 1] == s[..i] + [s[i]];
      m := m + 1;
      i := i + 1;
    }
    assert s[..i] == s;
    ok := true;
  }

  /** One component: from p, which is not at a slash, to the next slash. */
  method TakeSegment(src: string, p: nat) returns (seg: string, q: nat)
    requires p < |src| && src[p] != '/'
    ensures p < q <= |src| && q - p == IndexOf(src[p..], '/')
    ensures seg == Cut(src[p..q])
  {
    seg, q := "", p;
    while q < |src| && src[q] != '/'
      invariant p <= q <= |src| && '/' !in src[p..q]
      invariant seg == Cut(src[p..q])
      invariant q == p ==> src[q] != '/'
    {
      assert src[p..q + 1] == src[p..q] + [src[q]];
      if |seg| + 1 < NAME_MAX {
        seg := seg + [src[q]];
      }
      q := q + 1;
    }
    SegmentEnd(src, p, q);
  }

  lemma SegmentEnd(src: string, p: nat, q: nat)
    requires p <= q <= |src| && '/' !in src[p..q] && (q < |src| ==> src[q] == '/')
    ensures IndexOf(src[p..], '/') == q - p
  {
    if q < |src| {
      IndexOfAfter(src[p..q], '/', src[q + 1..]);
      assert src[p..] == src[p..q] + ['/'] + src[q + 1..];
    } else {
      assert src[p..] == src[p..q];
      IndexOfAbsent(src[p..], '/');
    }
  }

  lemma WalkStep(stack: seq<string>, comp: string, rest: seq<string>)
    ensures Walk(stack, [comp] + rest) ==
            if comp == "." then Walk(stack, rest)
            else if comp == ".." then Walk(if stack == [] then [] else stack[..|stack| - 1], rest)
            else if |stack| < DEPTH_MAX then Walk(stack + [comp], rest)
            else None
  {
    assert ([comp] + rest)[1..] == rest;
  }

  /** The stack of components, or None when it would grow too deep. */
  method Resolve(src: string, stack: array<string>) returns (top: Option<nat>)
    requires stack.Length == DEPTH_MAX
    modifies stack
    ensures top.None? <==> Walk([], Comps(src)).None?
    ensures top.Some? ==> top.value <= DEPTH_MAX && Walk([], Comps(src)) == Some(stack[..top.value])
  {
    var t, p := 0, 0;
    assert src[0..] == src;
    while p < |src|
      invariant 0 <= p <= |src| && 0 <= t <= DEPTH_MAX
      invariant Walk(stack[..t], Comps(src[p..])) == Walk([], Comps(src))
      decreases |src| - p
    {
      if src[p] == '/' {
        assert src[p..][1..] == src[p + 1..];
        p := p + 1;
        continue;
      }
      var seg, q := TakeSegment(src, p);
      assert src[p..][..q - p] == src[p..q] && src[p..][q - p..] == src[q..];
      WalkStep(stack[..t], seg, Comps(src[q..]));
      if seg == "." {
      } else if seg == ".." {
        if t > 0 {
          assert stack[..t][..t - 1] == stack[..t - 1];
          t := t - 1;
        }
      } else {
        if t == DEPTH_MAX {
          return None;
        }
        stack[t] := seg;
        assert stack[..t + 1] == stack[..t] + [seg];
        t := t + 1;
      }
      p := q;
    }
    return Some(t);
  }

  /** Writes the components, each after a slash. */
  method Assemble(stack: seq<string>, out: array<char>) returns (n: Option<nat>)
    requires out.Length > 0
    modifies out
    ensures n.Some? <==> |Render(stack)| < out.Length
    ensures n.Some? ==> n.value == |Render(stack)| && out[..n.value] == Render(stack)
  {
    var ok, m := Push(out, 0, "/");
    if !ok {
      RenderLength(stack);
      return None;
    }
    var k := 0;
    ghost var text := "/";
    while k < |stack|
      invariant 0 <= k <= |stack| && text == Render(stack[..k])
      invariant m == |text| < out.Length && out[..m] == text
    {
      RenderNext(stack, k, text);
      ghost var longer := Render(stack[..k + 1]);
      ok, m := PushComponent(out, m, k > 0, stack[k]);
      if !ok {
        return None;
      }
      text, k := longer, k + 1;
    }
    assert stack[..k] == stack;
    return Some(m);
  }

  /** A component, after a slash unless the root's is there. */
  method PushComponent(out: array<char>, n: nat, slash: bool, c: string) returns (ok: bool, m: nat)
    requires n < out.Length
    modifies out
    ensures var text := if slash then "/" + c else c;
      (ok <==> n + |text| < out.Length) && (ok ==> m == n + |text| && out[..m] == old(out[..n]) + text)
  {
    ok, m := true, n;
    if slash {
      ok, m := Push(out, n, "/");
      if !ok {
        return;
      }
      ConcatAssoc(old(out[..n]), "/", c);
    }
    ok, m := Push(out, m, c);
  }

  /** One more component: after a slash, or right after the root's. */
  lemma RenderNext(stack: seq<string>, k: nat, text: string)
    requires k < |stack| && text == Render(stack[..k])
    ensures Render(stack[..k + 1]) == text + (if k > 0 then "/" + stack[k] else stack[k])
    ensures |Render(stack)| >= |Render(stack[..k + 1])|
  {
    SlashedAppend(stack[..k], [stack[k]]);
    SlashedAppend(stack[..k + 1], stack[k + 1..]);
    assert stack[..k + 1] == stack[..k] + [stack[k]] && stack == stack[..k + 1] + stack[k + 1..];
    SlashedOne(stack[k]);
  }

  lemma SlashedOne(c: string)
    ensures Slashed([c]) == "/" + c
  {
    assert [c][1..] == [];
    assert "/" + c + "" == "/" + c;
  }

  /** The buffer holds this result as a C string of length n, or the error is returned. */
  ghost predicate Holds(out: array<char>, result: Result, rc: int, n: nat)
    reads out
  {
    match result
    case Err(e) => rc == e
    case Ok(path) => rc == 0 && n == |path| < out.Length && out[..n] == path && out[n] == NUL
  }

  /** fsp_path_normalize */
  method NormalizeInto(input: string, cwd: Result, out: array<char>) returns (rc: int, n: nat)
    modifies out
    ensures Holds(out, Normalize(input, cwd, out.Length), rc, n)
  {
    n := 0;
    if out.Length == 0 {
      return EINVAL, 0;
    }
    var src := Source(input, cwd);
    if src.Err? {
      return src.code, 0;
    }
    var stack := new string[DEPTH_MAX](_ => "");
    var top := Resolve(src.path, stack);
    if top.None? {
      return ENAMETOOLONG, 0;
    }
    var len := Assemble(stack[..top.value], out);
    if len.None? {
      return ENAMETOOLONG, 0;
    }
    n := len.value;
    out[n] := NUL;
    rc := 0;
  }

  /** fsp_path_join */
  method JoinInto(dir: string, name: string, cwd: Result, out: array<char>) returns (rc: int, n: nat)
    modifies out
    ensures Holds(out, Join(dir, name, cwd, out.Length), rc, n)
  {
    if out.Length == 0 {
      return EINVAL, 0;
    }
    var tmp := dir;
    if |dir| > 0 && dir[|dir| - 1] != '/' {
      tmp := tmp + "/";
    }
    if |tmp| + |name| + 1 > BUF_MAX {
      return ENAMETOOLONG, 0;
    }
    rc, n := NormalizeInto(tmp + name, cwd, out);
  }

  /** snprintf(out, cap, "%s", s) */
  method Print(out: array<char>, s: string) returns (n: nat)
    requires out.Length > 0
    modifies out
    ensures n == |Clip(s, out.Length)| < out.Length && out[..n] == Clip(s, out.Length) && out[n] == NUL
  {
    var ok, m := Push(out, 0, Clip(s, out.Length));
    n := m;
    out[n] := NUL;
  }

  /** Slashes at the end are left out, but for the root's. */
  method TrimSlashes(norm: array<char>, n: nat) returns (len: nat)
    requires n <= norm.Length
    ensures len <= n && norm[..len] == DropSlashes(norm[..n])
  {
    len := n;
    while len > 1 && norm[len - 1] == '/'
      invariant len <= n && DropSlashes(norm[..len]) == DropSlashes(norm[..n])
    {
      assert norm[..len][..len - 1] == norm[..len - 1];
      len := len - 1;
    }
  }

  method FindLastSlash(norm: array<char>, len: nat) returns (slash: int)
    requires len <= norm.Length
    ensures slash == LastSlash(norm[..len])
  {
    slash := len - 1;
    while slash >= 0 && norm[slash] != '/'
      invariant -1 <= slash < len
      invariant LastSlash(norm[..slash + 1]) == LastSlash(norm[..len])
    {
      assert norm[..slash + 1][..slash] == norm[..slash];
      slash := slash - 1;
    }
  }

  /** fsp_path_parent */
  method ParentInto(path: string, cwd: Result, out: array<char>) returns (rc: int, n: nat)
    requires cwd.Err? ==> cwd.code != 0
    modifies out
    ensures Holds(out, Parent(path, cwd, out.Length), rc, n)
  {
    if out.Length == 0 {
      return EINVAL, 0;
    }
    var norm := new char[BUF_MAX];
    var full;
    rc, full := NormalizeInto(path, cwd, norm);
    if rc != 0 {
      return rc, 0;
    }
    rc, n := CutParent(norm, full, out);
  }

  /** The last component goes, with the slash in front of it. */
  method CutParent(norm: array<char>, full: nat, out: array<char>) returns (rc: int, n: nat)
    requires full <= norm.Length && out.Length > 0 && norm != out
    modifies out
    ensures Holds(out, ParentOf(old(norm[..full]), out.Length), rc, n)
  {
    n := 0;
    var len := TrimSlashes(norm, full);
    var slash := FindLastSlash(norm, len);
    if slash < 0 {
      return EINVAL, 0;
    }
    if slash == 0 {
      if out.Length < 2 {
        return ENAMETOOLONG, 0;
      }
      n := Print(out, "/");
      return 0, n;
    }
    assert norm[..len][..slash] == norm[..slash];
    n := Print(out, norm[..slash]);
    return 0, n;
  }

  lemma RenderLength(stack: seq<string>)
    ensures |Render(stack)| >= 1
  {
  }

  lemma {:induction false} SlashedAppend(a: seq<string>, b: seq<string>)
    ensures Slashed(a + b) == Slashed(a) + Slashed(b)
  {
    if a == [] {
      assert a + b == b;
    } else {
      SlashedAppend(a[1..], b);
      AppendHead(a, b);
    }
  }

  // ---------------------------------------------------------------- normal forms

  /** A component that stands for itself. */
  predicate Plain(c: string) {
    0 < |c| < NAME_MAX && '/' !in c && c != "." && c != ".."
  }

  ghost predicate PlainStack(stack: seq<string>) {
    |stack| <= DEPTH_MAX && forall i | 0 <= i < |stack| :: Plain(stack[i])
  }

  ghost predicate Segments(comps: seq<string>) {
    forall i | 0 <= i < |comps| :: 0 < |comps[i]| < NAME_MAX && '/' !in comps[i]
  }

  lemma {:induction false} CompsAreSegments(s: string)
    ensures Segments(Comps(s))
    decreases |s|
  {
    if s != "" {
      if s[0] == '/' {
        CompsAreSegments(s[1..]);
      } else {
        var end := IndexOf(s, '/');
        CompsAreSegments(s[end..]);
        assert forall i | 0 <= i < |Cut(s[..end])| :: Cut(s[..end])[i] == s[..end][i];
      }
    }
  }

  lemma {:induction false} WalkPlain(stack: seq<string>, comps: seq<string>)
    requires PlainStack(stack) && Segments(comps)
    ensures Walk(stack, comps).Some? ==> PlainStack(Walk(stack, comps).value)
    decreases |comps|
  {
    if comps != [] {
      if comps[0] == "." {
        WalkPlain(stack, comps[1..]);
      } else if comps[0] == ".." {
        WalkPlain(if stack == [] then [] else stack[..|stack| - 1], comps[1..]);
      } else if |stack| < DEPTH_MAX {
        WalkPlain(stack + [comps[0]], comps[1..]);
      }
    }
  }

  lemma {:induction false} CompsCons(c: string, rest: string)
    requires 0 < |c| < NAME_MAX && '/' !in c && (rest == "" || rest[0] == '/')
    ensures Comps("/" + c + rest) == [c] + Comps(rest)
  {
    var s := "/" + c + rest;
    assert s[1..] == c + rest;
    if rest == "" {
      assert c + rest == c;
      IndexOfAbsent(c, '/');
    } else {
      IndexOfAfter(c, '/', rest[1..]);
      assert c + rest == c + ['/'] + rest[1..];
    }
    assert (c + rest)[..|c|] == c && (c + rest)[|c|..] == rest;
  }

  lemma {:induction false} CompsOfSlashed(stack: seq<string>)
    requires PlainStack(stack)
    ensures Comps(Slashed(stack)) == stack
  {
    if stack != [] {
      CompsOfSlashed(stack[1..]);
      CompsCons(stack[0], Slashed(stack[1..]));
    }
  }

  /** A rendered stack has exactly its components. */
  lemma CompsOfRender(stack: seq<string>)
    requires PlainStack(stack)
    ensures Comps(Render(stack)) == stack
  {
    CompsOfSlashed(stack);
    assert "/"[1..] == "";
  }

  lemma {:induction false} WalkPush(stack: seq<string>, comps: seq<string>)
    requires PlainStack(stack + comps)
    ensures Walk(stack, comps) == Some(stack + comps)
    decreases |comps|
  {
    if comps == [] {
      assert stack + comps == stack;
    } else {
      assert (stack + comps)[|stack|] == comps[0];
      ConcatHead(stack, comps);
      WalkPush(stack + [comps[0]], comps[1..]);
    }
  }

  lemma {:induction false} WalkAppend(stack: seq<string>, a: seq<string>, b: seq<string>)
    ensures Walk(stack, a + b) == match Walk(stack, a) { case None => None case Some(s) => Walk(s, b) }
    decreases |a|
  {
    if a == [] {
      assert a + b == b;
    } else {
      AppendHead(a, b);
      if a[0] == "." {
        WalkAppend(stack, a[1..], b);
      } else if a[0] == ".." {
        WalkAppend(if stack == [] then [] else stack[..|stack| - 1], a[1..], b);
      } else if |stack| < DEPTH_MAX {
        WalkAppend(stack + [a[0]], a[1..], b);
      }
    }
  }

  lemma {:induction false} CompsAppend(a: string, b: string)
    ensures Comps(a + "/" + b) == Comps(a) + Comps(b)
    decreases |a|
  {
    if a == "" {
      assert (a + "/" + b)[1..] == b;
    } else if a[0] == '/' {
      assert (a + "/" + b)[1..] == a[1..] + "/" + b;
      CompsAppend(a[1..], b);
    } else {
      var end := IndexOf(a, '/');
      CompsAppend(a[end..], b);
      SameHead(a, b);
    }
  }

  /** The first component is the same, whatever is appended after a slash. */
  lemma SameHead(a: string, b: string)
    requires a != "" && a[0] != '/'
    ensures var end := IndexOf(a, '/');
      Comps(a) == [Cut(a[..end])] + Comps(a[end..]) && Comps(a + "/" + b) == [Cut(a[..end])] + Comps(a[end..] + "/" + b)
  {
    var end := IndexOf(a, '/');
    FirstSlash(a, b);
    assert (a + "/" + b)[0] == a[0];
    assert (a + "/" + b)[..end] == a[..end] && (a + "/" + b)[end..] == a[end..] + "/" + b;
  }

  lemma FirstSlash(a: string, b: string)
    ensures IndexOf(a + "/" + b, '/') == IndexOf(a, '/')
  {
    var end := IndexOf(a, '/');
    var rest := (a + "/" + b)[end + 1..];
    IndexOfAfter(a[..end], '/', rest);
    assert a + "/" + b == a[..end] + ['/'] + rest;
  }

  /** The stack behind a normalised path. */
  lemma NormalStack(input: string, cwd: Result, cap: nat) returns (stack: seq<string>)
    requires Normalize(input, cwd, cap).Ok?
    ensures PlainStack(stack) && Normalize(input, cwd, cap) == Ok(Render(stack)) && |Render(stack)| < cap
    ensures Source(input, cwd).Ok? && Walk([], Comps(Source(input, cwd).path)) == Some(stack)
  {
    var src := Source(input, cwd).path;
    stack := Walk([], Comps(src)).value;
    CompsAreSegments(src);
    WalkPlain([], Comps(src));
  }

  lemma RenderAbsolute(stack: seq<string>, cwd: Result)
    ensures Render(stack)[0] == '/' && Source(Render(stack), cwd) == Ok(Render(stack))
  {
  }

  lemma NormalizeRender(stack: seq<string>, cwd: Result, cap: nat)
    requires PlainStack(stack) && |Render(stack)| < cap
    ensures Normalize(Render(stack), cwd, cap) == Ok(Render(stack))
  {
    RenderAbsolute(stack, cwd);
    CompsOfRender(stack);
    assert [] + stack == stack;
    WalkPush([], stack);
  }

  // ---------------------------------------------------------------- main results

  /** A normalised path starts with a slash and has only plain components: none empty, ".", ".." or with a slash in it. */
  lemma NormalizedIsPlain(input: string, cwd: Result, cap: nat)
    requires Normalize(input, cwd, cap).Ok?
    ensures var path := Normalize(input, cwd, cap).path;
      path != "" && path[0] == '/' && PlainStack(Comps(path)) && path == Render(Comps(path))
  {
    var stack := NormalStack(input, cwd, cap);
    CompsOfRender(stack);
    RenderAbsolute(stack, cwd);
  }

  /** Normalising again changes nothing, whatever the working directory is then. */
  lemma NormalizeTwice(input: string, cwd: Result, cap: nat, later: Result, laterCap: nat)
    requires Normalize(input, cwd, cap).Ok? && |Normalize(input, cwd, cap).path| < laterCap
    ensures Normalize(Normalize(input, cwd, cap).path, later, laterCap) == Normalize(input, cwd, cap)
  {
    var stack := NormalStack(input, cwd, cap);
    NormalizeRender(stack, later, laterCap);
  }

  lemma CompsAfterFront(front: string, name: string)
    ensures Comps(front + "/" + name) == Comps(front + "/") + Comps(name)
  {
    CompsAppend(front, "");
    CompsAppend(front, name);
    assert front + "/" + "" == front + "/";
    assert Comps(front) + [] == Comps(front);
  }

  lemma CompsAfterSlash(dir: string, name: string)
    requires dir != "" && dir[|dir| - 1] == '/'
    ensures Comps(dir + name) == Comps(dir) + Comps(name)
  {
    assert dir == dir[..|dir| - 1] + "/";
    CompsAfterFront(dir[..|dir| - 1], name);
  }

  lemma JoinSource(dir: string, name: string)
    requires dir != "" && dir[0] == '/'
    ensures WithSlash(dir) + name != "" && (WithSlash(dir) + name)[0] == '/'
    ensures Comps(WithSlash(dir) + name) == Comps(dir) + Comps(name)
  {
    if dir[|dir| - 1] == '/' {
      CompsAfterSlash(dir, name);
    } else {
      CompsAppend(dir, name);
    }
  }

  /** Joining walks on from the directory's own components. */
  lemma JoinWalks(dir: string, name: string, cwd: Result, cap: nat)
    requires dir != "" && dir[0] == '/' && cap > 0 && |WithSlash(dir)| + |name| + 1 <= BUF_MAX
    ensures Join(dir, name, cwd, cap) ==
            match Walk([], Comps(dir)) {
              case None => Err(ENAMETOOLONG)
              case Some(stack) =>
                match Walk(stack, Comps(name)) { case None => Err(ENAMETOOLONG) case Some(s) => Fit(s, cap) }
            }
  {
    JoinSource(dir, name);
    WalkAppend([], Comps(dir), Comps(name));
  }

  // ---------------------------------------------------------------- lengths

  function Total(comps: seq<string>): nat {
    if comps == [] then 0 else 1 + |comps[0]| + Total(comps[1..])
  }

  lemma {:induction false} SlashedTotal(stack: seq<string>)
    ensures |Slashed(stack)| == Total(stack)
  {
    if stack != [] {
      SlashedTotal(stack[1..]);
    }
  }

  lemma {:induction false} TotalAppend(a: seq<string>, b: seq<string>)
    ensures Total(a + b) == Total(a) + Total(b)
  {
    if a == [] {
      assert a + b == b;
    } else {
      TotalAppend(a[1..], b);
      AppendHead(a, b);
    }
  }

  lemma {:induction false} WalkShrinks(stack: seq<string>, comps: seq<string>)
    ensures Walk(stack, comps).Some? ==> Total(Walk(stack, comps).value) <= Total(stack) + Total(comps)
    decreases |comps|
  {
    if comps != [] {
      if comps[0] == "." {
        WalkShrinks(stack, comps[1..]);
      } else if comps[0] == ".." {
        var popped := if stack == [] then [] else stack[..|stack| - 1];
        if stack != [] {
          TotalAppend(popped, [stack[|stack| - 1]]);
          assert stack == popped + [stack[|stack| - 1]];
        }
        WalkShrinks(popped, comps[1..]);
      } else if |stack| < DEPTH_MAX {
        TotalAppend(stack, [comps[0]]);
        assert [comps[0]][1..] == [];
        WalkShrinks(stack + [comps[0]], comps[1..]);
      }
    }
  }

  /** A text that ends in a slash has room for all its components and the slashes after them. */
  lemma {:induction false} CompsTotal(s: string)
    requires s == "" || s[|s| - 1] == '/'
    ensures Total(Comps(s)) <= |s|
    decreases |s|
  {
    if s != "" {
      if s[0] == '/' {
        CompsTotal(s[1..]);
      } else {
        var end := IndexOf(s, '/');
        assert s[..|s|] == s;
        CompsTotal(s[end + 1..]);
        assert s[end..][1..] == s[end + 1..] && s[end..][0] == '/';
      }
    }
  }

  /** The normalised directory is no longer than the directory, also with a slash at the end. */
  lemma NormalNoLonger(dir: string, stack: seq<string>)
    requires dir != "" && dir[0] == '/' && Walk([], Comps(dir)) == Some(stack)
    ensures |WithSlash(Render(stack))| <= |WithSlash(dir)|
  {
    var t := WithSlash(dir);
    JoinSource(dir, "");
    assert t + "" == t && Comps(dir) + Comps("") == Comps(dir);
    CompsTotal(t[1..]);
    WalkShrinks([], Comps(dir));
    SlashedTotal(stack);
  }

  /**
    Joining to a directory is joining to its normal form, in every case but one:
    the directory as given may be too long for the buffer when its normal form is not.
   */
  lemma JoinNormalized(dir: string, name: string, cwd: Result, dirCap: nat, cap: nat)
    requires dir != "" && dir[0] == '/' && cap > 0 && Normalize(dir, cwd, dirCap).Ok?
    ensures var d := Normalize(dir, cwd, dirCap).path;
      Join(dir, name, cwd, cap) ==
      if |WithSlash(dir)| + |name| + 1 > BUF_MAX then Err(ENAMETOOLONG) else Join(d, name, cwd, cap)
  {
    var stack := NormalStack(dir, cwd, dirCap);
    if |WithSlash(dir)| + |name| + 1 <= BUF_MAX {
      NormalNoLonger(dir, stack);
      RenderAbsolute(stack, cwd);
      CompsOfRender(stack);
      assert [] + stack == stack;
      WalkPush([], stack);
      JoinWalks(dir, name, cwd, cap);
      JoinWalks(Render(stack), name, cwd, cap);
    }
  }

  lemma {:induction false} LastSlashAfter(front: string, c: string)
    requires '/' !in c
    ensures LastSlash(front + "/" + c) == |front|
    decreases |c|
  {
    var s := front + "/" + c;
    if c == "" {
      assert s[|s| - 1] == '/';
    } else {
      var shorter := c[..|c| - 1];
      assert s[|s| - 1] == c[|c| - 1];
      assert s[..|s| - 1] == front + "/" + shorter;
      LastSlashAfter(front, shorter);
    }
  }

  /** The parent of a rendered stack is the rendered stack without its top. */
  lemma ParentOfRender(stack: seq<string>, c: string, cwd: Result, cap: nat)
    requires PlainStack(stack + [c]) && |Render(stack + [c])| < BUF_MAX && cap > |Render(stack)|
    ensures Parent(Render(stack + [c]), cwd, cap) == Ok(Render(stack))
  {
    NormalizeRender(stack + [c], cwd, BUF_MAX);
    SlashedAppend(stack, [c]);
    assert (stack + [c])[|stack|] == c;
    assert Slashed([c]) == "/" + c by {
      assert [c][1..] == [];
    }
    var full := Slashed(stack) + "/" + c;
    assert Render(stack + [c]) == full;
    assert full[|full| - 1] == c[|c| - 1];
    assert DropSlashes(full) == full;
    LastSlashAfter(Slashed(stack), c);
    assert full[..|Slashed(stack)|] == Slashed(stack);
  }

  /** The parent of a directory joined with a plain name is the normal form of the directory. */
  lemma ParentOfJoin(dir: string, c: string, cwd: Result, joinCap: nat, cap: nat)
    requires dir != "" && dir[0] == '/' && Plain(c)
    requires Join(dir, c, cwd, joinCap).Ok? && |Join(dir, c, cwd, joinCap).path| < BUF_MAX
    requires Normalize(dir, cwd, cap).Ok?
    ensures Parent(Join(dir, c, cwd, joinCap).path, cwd, cap) == Normalize(dir, cwd, cap)
  {
    var stack := NormalStack(dir, cwd, cap);
    JoinWalks(dir, c, cwd, joinCap);
    CompsOfPlain(c);
    WalkStep(stack, c, []);
    assert [c] + [] == [c];
    ParentOfRender(stack, c, cwd, cap);
  }

  lemma CompsOfPlain(c: string)
    requires Plain(c)
    ensures Comps(c) == [c]
  {
    IndexOfAbsent(c, '/');
    assert c[..|c|] == c && c[|c|..] == "";
  }

  // ---------------------------------------------------------------- component by component

  /** One level up, as text; the root stays the root. */
  function Up(path: string): string {
    if LastSlash(path) <= 0 then "/" else path[..LastSlash(path)]
  }

  /** How many components a normal form has. */
  function Depth(path: string): nat {
    if path == "" then 0 else (if path[|path| - 1] == '/' then 1 else 0) + Depth(path[..|path| - 1])
  }

  lemma {:induction false} DepthAppend(a: string, b: string)
    ensures Depth(a + b) == Depth(a) + Depth(b)
    decreases |b|
  {
    if b == "" {
      assert a + b == a;
    } else {
      assert (a + b)[..|a + b| - 1] == a + b[..|b| - 1] && (a + b)[|a + b| - 1] == b[|b| - 1];
      DepthAppend(a, b[..|b| - 1]);
    }
  }

  lemma {:induction false} DepthNone(c: string)
    requires '/' !in c
    ensures Depth(c) == 0
    decreases |c|
  {
    if c != "" {
      assert c[|c| - 1] in c;
      DepthNone(c[..|c| - 1]);
    }
  }

  lemma DepthSlash()
    ensures Depth("/") == 1
  {
    assert "/"[..0] == "";
  }

  lemma {:induction false} DepthOf(stack: seq<string>)
    requires forall i | 0 <= i < |stack| :: '/' !in stack[i]
    ensures Depth(Slashed(stack)) == |stack|
  {
    if stack != [] {
      DepthOf(stack[1..]);
      DepthSlash();
      DepthNone(stack[0]);
      DepthAppend("/", stack[0]);
      DepthAppend("/" + stack[0], Slashed(stack[1..]));
    }
  }

  lemma RenderPush(stack: seq<string>, c: string)
    ensures Render(stack + [c]) == (if stack == [] then "" else Render(stack)) + "/" + c
  {
    SlashedAppend(stack, [c]);
    SlashedOne(c);
    assert "" + "/" + c == "/" + c;
    assert Slashed(stack) + ("/" + c) == Slashed(stack) + "/" + c;
  }

  lemma RenderUp(stack: seq<string>)
    requires PlainStack(stack)
    ensures Up(Render(stack)) == Render(if stack == [] then [] else stack[..|stack| - 1])
  {
    if stack == [] {
      assert LastSlash("/") == 0;
    } else {
      var front, c := stack[..|stack| - 1], stack[|stack| - 1];
      assert stack == front + [c];
      RenderPush(front, c);
      LastSlashAfter(if front == [] then "" else Render(front), c);
      assert Render(stack)[..|if front == [] then "" else Render(front)|] == if front == [] then "" else Render(front);
    }
  }

  lemma CompsOfOne(c: string)
    requires '/' !in c
    ensures Comps(c) == if c == "" then [] else [Cut(c)]
  {
    if c != "" {
      IndexOfAbsent(c, '/');
      assert c[0] in c && c[..|c|] == c && c[|c|..] == "";
    }
  }

  /** Where one more component leads from a normal form. */
  function OneStep(d: string, c: string): string {
    if c == "" || c == "." then d else if c == ".." then Up(d) else (if d == "/" then "" else d) + "/" + Clip(c, 256)
  }

  lemma RootOnly(stack: seq<string>)
    ensures Render(stack) == "/" ==> stack == [] || stack == [""]
  {
    if stack != [] {
      SlashedTotal(stack);
      if |stack| > 1 {
        SlashedTotal(stack[1..]);
      }
    }
  }

  lemma WalkOne(stack: seq<string>, c: string)
    requires PlainStack(stack) && '/' !in c
    ensures var regular := c != "" && c != "." && c != "..";
      match Walk(stack, Comps(c))
      case None => regular && |stack| == DEPTH_MAX
      case Some(t) => !(regular && |stack| == DEPTH_MAX) && Render(t) == OneStep(Render(stack), c)
  {
    CompsOfOne(c);
    if c != "" {
      WalkStep(stack, Cut(c), []);
      assert [Cut(c)] + [] == [Cut(c)];
    }
    RenderUp(stack);
    RenderPush(stack, Cut(c));
    RootOnly(stack);
  }

  /**
    Normalising one component further, after any absolute directory: nothing and "."
    stay, ".." goes one level up, and anything else, cut to 255 bytes, is appended
    after a slash; an error if there are 64 components already, or if the result does
    not fit.  With the root this determines every normal form.
   */
  lemma NormalizeStep(dir: string, c: string, cwd: Result, dirCap: nat, cap: nat, d: string)
    requires '/' !in c && cap > 0
    requires (dir == "" && d == "/") || (dir != "" && dir[0] == '/' && Normalize(dir, cwd, dirCap) == Ok(d))
    ensures Normalize(dir + "/" + c, cwd, cap) ==
      if c != "" && c != "." && c != ".." && d != "/" && Depth(d) == 64 then Err(ENAMETOOLONG)
      else if |OneStep(d, c)| < cap then Ok(OneStep(d, c)) else Err(ENAMETOOLONG)
  {
    var stack := [];
    if dir != "" {
      stack := NormalStack(dir, cwd, dirCap);
    }
    DepthOf(stack);
    CompsAppend(dir, c);
    WalkAppend([], Comps(dir), Comps(c));
    WalkOne(stack, c);
    RootOnly(stack);
  }

  /** The root, and relative paths: those start at the working directory, if there is one and both fit the buffer. */
  lemma NormalizeStart(input: string, cwd: Result, cap: nat)
    requires cap > 0
    ensures Normalize("/", cwd, cap) == if cap >= 2 then Ok("/") else Err(ENAMETOOLONG)
    ensures input == "" || input[0] != '/' ==>
      Normalize(input, cwd, cap) ==
        match cwd
        case Err(e) => Err(e)
        case Ok(dir) =>
          if |dir| + 1 + |input| + 1 > 4096 then Err(ENAMETOOLONG)
          else if dir != "" && dir[0] == '/' then Normalize(dir + "/" + input, cwd, cap)
          else Normalize(input, cwd, cap)
  {
    assert "/"[1..] == "";
  }

  /** Joining is normalising the two with one slash between them. */
  lemma JoinIs(dir: string, name: string, cwd: Result, cap: nat)
    requires cap > 0 && dir != ""
    ensures Join(dir, name, cwd, cap) ==
      if dir[|dir| - 1] == '/' then
        (if |dir| + |name| + 1 > 4096 then Err(ENAMETOOLONG) else Normalize(dir + name, cwd, cap))
      else (if |dir| + 1 + |name| + 1 > 4096 then Err(ENAMETOOLONG) else Normalize(dir + "/" + name, cwd, cap))
  {
  }

  /** The parent of a path is one level up from its normal form. */
  lemma ParentIsUp(path: string, cwd: Result, cap: nat)
    requires Normalize(path, cwd, 4096).Ok? && cap > 1
    ensures Parent(path, cwd, cap) == Ok(Clip(Up(Normalize(path, cwd, 4096).path), cap))
  {
    var stack := NormalStack(path, cwd, BUF_MAX);
    NormalEnd(stack);
    ParentFrom(path, cwd, cap, Render(stack));
  }

  /** A normal form does not end in a slash, but for the root. */
  lemma NormalEnd(stack: seq<string>)
    requires PlainStack(stack)
    ensures DropSlashes(Render(stack)) == Render(stack) && LastSlash(Render(stack)) >= 0
  {
    if stack == [] {
      assert LastSlash("/") == 0;
    } else {
      var front, c := stack[..|stack| - 1], stack[|stack| - 1];
      assert stack == front + [c] && Plain(c);
      RenderPush(front, c);
      LastSlashAfter(if front == [] then "" else Render(front), c);
      assert Render(stack)[|Render(stack)| - 1] == c[|c| - 1];
    }
  }

  lemma ParentFrom(path: string, cwd: Result, cap: nat, full: string)
    requires cap > 1 && Normalize(path, cwd, BUF_MAX) == Ok(full) && DropSlashes(full) == full && LastSlash(full) >= 0
    ensures Parent(path, cwd, cap) == Ok(Clip(Up(full), cap))
  {
  }
}
