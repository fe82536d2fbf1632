/**
  Directory trees, and the copy and clear loops that snapshots are made of
  (storage/src/storage_impl.c, storage_copy_tree, storage_copy_file,
  storage_dir_clear, storage_rm_rf).
 */
module StorageTree {
  import opened CText

  const EIO: int := -5
  const LINK_MAX: nat := 1023
  const MODE_0700: nat := 448

  /** What a path leads to, without following links; `mode` holds the permission bits. */
  datatype Node =
    | File(bytes: string, mode: nat)
    | Link(target: string)
    | Special
    | Dir(mode: nat, entries: map<string, Node>)

  // ---------------------------------------------------------------- specification

  /** The part of a link's target that a buffer of 1024 bytes holds. */
  function ReadLink(target: string): string {
    if |target| <= LINK_MAX then target else target[..LINK_MAX]
  }

  /** What a copy of the tree holds: no special files at any depth. */
  function Strip(n: Node): (r: Node)
    ensures r.Special? <==> n.Special?
  {
    match n
    case File(_, _) => n
    case Link(target) => Link(ReadLink(target))
    case Special => Special
    case Dir(mode, entries) => Dir(mode, map name | name in entries && !entries[name].Special? :: Strip(entries[name]))
  }

  ghost predicate NoSpecials(n: Node) {
    match n
    case Special => false
    case Dir(_, entries) => forall name | name in entries :: NoSpecials(entries[name])
    case _ => true
  }

  ghost predicate ShortLinks(n: Node) {
    match n
    case Link(target) => |target| <= 1023
    case Dir(_, entries) => forall name | name in entries :: ShortLinks(entries[name])
    case _ => true
  }

  lemma {:induction false} StripClean(n: Node)
    ensures !n.Special? ==> NoSpecials(Strip(n))
    ensures ShortLinks(Strip(n))
  {
    if n.Dir? {
      forall name | name in Strip(n).entries
        ensures NoSpecials(Strip(n).entries[name]) && ShortLinks(Strip(n).entries[name])
      {
        StripClean(n.entries[name]);
      }
    }
  }

  lemma {:induction false} StripId(n: Node)
    requires NoSpecials(n) && ShortLinks(n)
    ensures Strip(n) == n
  {
    if n.Dir? {
      forall name | name in n.entries
        ensures Strip(n.entries[name]) == n.entries[name] && !n.entries[name].Special?
      {
        StripId(n.entries[name]);
      }
      assert Strip(n).entries == n.entries;
    }
  }

  /** A tree survives copying unchanged exactly when it has no special file and no overlong link. */
  lemma StripIff(n: Node)
    requires !n.Special?
    ensures Strip(n) == n <==> NoSpecials(n) && ShortLinks(n)
  {
    StripClean(n);
    if NoSpecials(n) && ShortLinks(n) {
      StripId(n);
    }
  }

  /** A place where a copy can be put: nothing there, or an empty directory. */
  ghost predicate Free(dst: Option<Node>) {
    dst.None? || (dst.value.Dir? && dst.value.entries == map[])
  }

  /**
    What a copy of a tree that was cut off has made of it, or a removal has left:
    nothing that the tree does not have. Permission bits are set last.
   */
  ghost predicate Remains(left: Node, n: Node) {
    match left
    case Dir(_, entries) =>
      n.Dir? && forall name | name in entries :: name in n.entries && Remains(entries[name], n.entries[name])
    case File(bytes, _) => n.File? && bytes <= n.bytes
    case _ => left == n
  }

  lemma {:induction false} RemainsAll(n: Node)
    ensures Remains(n, n)
  {
    if n.Dir? {
      forall name | name in n.entries
        ensures Remains(n.entries[name], n.entries[name])
      {
        RemainsAll(n.entries[name]);
      }
    }
  }

  lemma {:induction false} RemainsTwice(a: Node, b: Node, c: Node)
    requires Remains(a, b) && Remains(b, c)
    ensures Remains(a, c)
  {
    if a.Dir? {
      forall name | name in a.entries
        ensures name in c.entries && Remains(a.entries[name], c.entries[name])
      {
        RemainsTwice(a.entries[name], b.entries[name], c.entries[name]);
      }
    }
  }

  // ---------------------------------------------------------------- system calls

  /** What the system calls answer, numbered in the order they are made: 0, or an errno. */
  type Answers = nat -> nat

  /** None of the calls from one number on, to before another, fails. */
  ghost predicate AllWork(calls: Answers, from: nat, to: nat) {
    forall k | from <= k < to :: calls(k) == 0
  }

  lemma WorkApart(calls: Answers, from: nat, mid: nat, to: nat)
    requires from <= mid <= to
    ensures AllWork(calls, from, to) <==> AllWork(calls, from, mid) && AllWork(calls, mid, to)
  {
  }

  // ---------------------------------------------------------------- implementation

  /**
    A file whose copying fails is removed again, unless that fails as well. Opening
    gives its own error, writing and closing EIO.
   */
  method CopyFile(bytes: string, mode: nat, calls: Answers, at: nat) returns (rc: int, out: Option<Node>, next: nat)
    ensures at <= next && rc <= 0 && (rc == 0 <==> AllWork(calls, at, next))
    ensures rc == 0 ==> out == Some(File(bytes, mode))
    ensures rc != 0 ==> out == None || (out.value.File? && out.value.bytes <= bytes)
  {
    if calls(at) != 0 {
      return -(calls(at) as int), None, at + 1;
    }
    if calls(at + 1) == 0 {
      return 0, Some(File(bytes, mode)), at + 2;
    }
    var written: nat :| written <= |bytes|;
    var umasked: nat := *;
    return EIO, if calls(at + 2) == 0 then None else Some(File(bytes[..written], umasked)), at + 3;
  }

  /** `readdir` returns the names in any order. */
  method CopyTree(src: Node, dst: Option<Node>, calls: Answers, at: nat) returns (rc: int, out: Option<Node>, next: nat)
    requires Free(dst) && (dst.Some? ==> src.Dir?)
    ensures at <= next && rc <= 0 && (rc == 0 <==> AllWork(calls, at, next))
    ensures rc == 0 ==> out == if src.Special? then dst else Some(Strip(src))
    ensures src.Special? ==> out == dst
    ensures rc != 0 ==> out == dst || (out.Some? && Remains(out.value, Strip(src)))
    decreases src, 1
  {
    next := at + 1;
    if calls(at) != 0 {
      return -(calls(at) as int), dst, next;
    }
    match src {
      case File(bytes, mode) =>
        rc, out, next := CopyFile(bytes, mode, calls, next);
        WorkApart(calls, at, at + 1, next);
      case Link(target) => rc, out, next := CopyLink(target, calls, next);
      case Special => return 0, dst, next;
      case Dir(_, _) =>
        rc, out, next := CopyDir(src, dst, calls, next);
        WorkApart(calls, at, at + 1, next);
    }
  }

  /** readlink and symlink. */
  method CopyLink(target: string, calls: Answers, at: nat) returns (rc: int, out: Option<Node>, next: nat)
    ensures at <= next && rc <= 0 && (rc == 0 <==> AllWork(calls, at, next))
    ensures out == if rc == 0 then Some(Link(ReadLink(target))) else None
  {
    if calls(at) != 0 {
      return -(calls(at) as int), None, at + 1;
    }
    if calls(at + 1) != 0 {
      return -(calls(at + 1) as int), None, at + 2;
    }
    return 0, Some(Link(ReadLink(target))), at + 2;
  }

  /** The directory is made, then opened, then its entries are copied until one fails; its permission bits come last. */
  method CopyDir(src: Node, dst: Option<Node>, calls: Answers, at: nat) returns (rc: int, out: Option<Node>, next: nat)
    requires src.Dir? && Free(dst)
    ensures at <= next && rc <= 0 && (rc == 0 <==> AllWork(calls, at, next))
    ensures rc == 0 ==> out == Some(Strip(src))
    ensures rc != 0 ==> out == dst || (out.Some? && Remains(out.value, Strip(src)))
    decreases src, 0
  {
    var entries := src.entries;
    if calls(at) != 0 {
      return -(calls(at) as int), dst, at + 1;
    }
    var made := if dst.Some? then dst.value.mode else MODE_0700;
    next := at + 2;
    if calls(at + 1) != 0 {
      return -(calls(at + 1) as int), Some(Dir(made, map[])), next;
    }
    var copied: map<string, Node> := map[];
    var todo := entries.Keys;
    while todo != {}
      invariant todo <= entries.Keys && at + 2 <= next && AllWork(calls, at, next)
      invariant forall name :: name in copied <==> name in entries && name !in todo && !entries[name].Special?
      invariant forall name | name in copied :: copied[name] == Strip(entries[name])
      decreases |todo|
    {
      var name :| name in todo;
      ghost var before := next;
      var e, child;
      e, child, next := CopyTree(entries[name], None, calls, next);
      WorkApart(calls, at, before, next);
      if e != 0 {
        CutOff(src, made, copied, name, child);
        return e, Some(Dir(made, if child.Some? then copied[name := child.value] else copied)), next;
      }
      if child.Some? {
        copied := copied[name := child.value];
      }
      todo := todo - {name};
    }
    assert copied == Strip(src).entries;
    return 0, Some(Dir(src.mode, copied)), next;
  }

  /** Entries copied so far, and what there is of the next one. */
  lemma CutOff(src: Node, mode: nat, copied: map<string, Node>, name: string, child: Option<Node>)
    requires src.Dir? && name in src.entries && name !in copied
    requires forall k | k in copied :: k in src.entries && !src.entries[k].Special? && copied[k] == Strip(src.entries[k])
    requires child.Some? ==> Remains(child.value, Strip(src.entries[name])) && !src.entries[name].Special?
    ensures Remains(Dir(mode, if child.Some? then copied[name := child.value] else copied), Strip(src))
  {
    forall k | k in copied
      ensures k in Strip(src).entries && Remains(copied[k], Strip(src).entries[k])
    {
      RemainsAll(copied[k]);
    }
  }

  /** Empties a directory: subdirectories go with all they hold, everything else by itself. */
  method DirClear(dir: Node, calls: Answers, at: nat) returns (rc: int, out: Node, next: nat)
    requires dir.Dir?
    ensures at <= next && rc <= 0 && (rc == 0 <==> AllWork(calls, at, next))
    ensures out.Dir? && out.mode == dir.mode && Remains(out, dir)
    ensures forall name | name in out.entries :: name in dir.entries && (dir.entries[name].Dir? || out.entries[name] == dir.entries[name])
    ensures rc == 0 ==> out.entries == map[]
    decreases dir, 0
  {
    next := at + 1;
    if calls(at) != 0 {
      RemainsAll(dir);
      return -(calls(at) as int), dir, next;
    }
    var left := dir.entries;
    var todo := left.Keys;
    while todo != {}
      invariant todo == left.Keys && at < next && AllWork(calls, at, next)
      invariant forall name | name in left :: name in dir.entries && left[name] == dir.entries[name]
      decreases |todo|
    {
      var name :| name in todo;
      ghost var before := next;
      var e, child;
      e, child, next := RmRf(dir.entries[name], calls, next);
      WorkApart(calls, at, before, next);
      if e != 0 {
        left := left[name := child.value];
        KeptRemain(dir, left, name);
        return e, Dir(dir.mode, left), next;
      }
      left := left - {name};
      todo := todo - {name};
    }
    return 0, Dir(dir.mode, left), next;
  }

  lemma KeptRemain(dir: Node, left: map<string, Node>, name: string)
    requires dir.Dir? && forall k | k in left :: k in dir.entries
    requires forall k | k in left && k != name :: left[k] == dir.entries[k]
    requires name in left ==> Remains(left[name], dir.entries[name])
    ensures Remains(Dir(dir.mode, left), dir)
  {
    forall k | k in left && k != name
      ensures Remains(left[k], dir.entries[k])
    {
      RemainsAll(left[k]);
    }
  }

  /**
    Looks at a node, removes all that is below if it is a directory, then the node
    itself. The first call that fails ends it.
   */
  method RmRf(n: Node, calls: Answers, at: nat) returns (rc: int, left: Option<Node>, next: nat)
    ensures at <= next && rc <= 0 && (rc == 0 <==> AllWork(calls, at, next))
    ensures rc == 0 <==> left == None
    ensures left.Some? ==> Remains(left.value, n) && (!n.Dir? ==> left.value == n)
    decreases n, 1
  {
    RemainsAll(n);
    left := Some(n);
    next := at + 1;
    if calls(at) != 0 {
      return -(calls(at) as int), left, next;
    }
    if n.Dir? {
      var out;
      rc, out, next := DirClear(n, calls, next);
      WorkApart(calls, at, at + 1, next);
      left := Some(out);
      if rc != 0 {
        return;
      }
    }
    var rmdir := calls(next);
    next := next + 1;
    if rmdir != 0 {
      return -(rmdir as int), left, next;
    }
    return 0, None, next;
  }

  /**
    The copying part of taking a snapshot: on failure the partial copy is removed
    again. Whether that succeeds nobody asks; what it leaves is part of a snapshot.
   */
  method TakeSnapshot(volume: Node, calls: Answers, at: nat) returns (rc: int, snapshot: Option<Node>, removed: bool, next: nat)
    requires volume.Dir?
    ensures at <= next && rc <= 0 && (rc == 0 <==> AllWork(calls, at, next))
    ensures rc == 0 ==> snapshot == Some(Strip(volume))
    ensures rc != 0 && removed ==> snapshot == None
    ensures rc != 0 && snapshot.Some? ==> Remains(snapshot.value, Strip(volume))
  {
    rc, snapshot, next := CopyTree(volume, None, calls, at);
    removed := false;
    if rc != 0 && snapshot.Some? {
      ghost var copied := next;
      var e, left;
      e, left, next := RmRf(snapshot.value, calls, next);
      WorkApart(calls, at, copied, next);
      removed := e == 0;
      if left.Some? {
        RemainsTwice(left.value, snapshot.value, Strip(volume));
      }
      snapshot := left;
    }
  }

  /** The copying part of putting a snapshot back over whatever the volume holds. */
  method Restore(snapshot: Node, volume: Node, calls: Answers, at: nat) returns (rc: int, out: Node, next: nat)
    requires snapshot.Dir? && volume.Dir?
    ensures at <= next && rc <= 0 && (rc == 0 <==> AllWork(calls, at, next))
    ensures out.Dir? && (rc == 0 ==> out == Strip(snapshot))
    ensures rc != 0 ==> Remains(out, volume) || Remains(out, Strip(snapshot))
  {
    rc, out, next := DirClear(volume, calls, at);
    if rc != 0 {
      return;
    }
    ghost var cleared := next;
    var copy: Option<Node>;
    rc, copy, next := CopyTree(snapshot, Some(out), calls, next);
    WorkApart(calls, at, cleared, next);
    out := copy.value;
  }

  // ---------------------------------------------------------------- main results

  lemma StripTwice(n: Node)
    ensures Strip(Strip(n)) == Strip(n)
  {
    StripClean(n);
    if !n.Special? {
      StripId(Strip(n));
    }
  }

  /**
    Snapshot, then any change to the volume, then restore: if no call fails both
    succeed, and the volume is the tree it was at snapshot time without its special
    files; it is exactly that tree if and only if there were none (and no link over
    1023 bytes).  A second snapshot and restore changes nothing any more.
   */
  method SnapshotChangeRestore(before: Node, changed: Node, calls: Answers) returns (rc: int, after: Node, next: nat)
    requires before.Dir? && changed.Dir?
    ensures rc == 0 <==> AllWork(calls, 0, next)
    ensures (forall k: nat :: calls(k) == 0) ==> rc == 0 && after == Strip(before)
    ensures rc == 0 ==> after == Strip(before)
    ensures rc == 0 ==> NoSpecials(after) && ShortLinks(after) && Strip(after) == after
    ensures rc == 0 ==> (after == before <==> NoSpecials(before) && ShortLinks(before))
  {
    var snapshot: Option<Node>;
    var removed: bool;
    rc, snapshot, removed, next := TakeSnapshot(before, calls, 0);
    after := changed;
    if rc == 0 {
      ghost var taken := next;
      rc, after, next := Restore(snapshot.value, changed, calls, next);
      WorkApart(calls, 0, taken, next);
      StripTwice(before);
      StripClean(before);
      StripIff(before);
    }
  }

  /** The node a path of names leads to. */
  function At(n: Node, path: seq<string>): Option<Node>
    decreases |path|
  {
    if path == [] then Some(n)
    else if n.Dir? && path[0] in n.entries then At(n.entries[path[0]], path[1..])
    else None
  }

  /** A copy has the same node at every path, but for special files, which have none. */
  lemma {:induction false} StripAt(n: Node, path: seq<string>)
    requires !n.Special?
    ensures At(Strip(n), path) ==
            match At(n, path) {
              case None => None
              case Some(m) => if m.Special? then None else Some(Strip(m))
            }
    decreases |path|
  {
    if path != [] && n.Dir? && path[0] in n.entries && !n.entries[path[0]].Special? {
      StripAt(n.entries[path[0]], path[1..]);
    }
  }
}
