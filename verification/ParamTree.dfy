/**
  Parameters: a tree whose edges are the segments of dotted keys, which has to
  behave as a flat map from keys to values (bus/src/hwrun.c, param_split_key ..
  hw_param_set; bus/src/param.c, hw_param_get, hw_param_set_value).
 */
module ParamTree {
  import opened CText

  const KEY_MAX: nat := 128
  const VALUE_MAX: nat := 256

  /** A parameter; `kids` is its list of children in the order they were added. */
  datatype Tree = Node(key: string, value: string, kids: seq<Tree>)

  // ---------------------------------------------------------------- keys

  function Split(key: string): (segs: seq<string>)
    ensures segs != [] && forall i | 0 <= i < |segs| :: '.' !in segs[i]
    decreases |key|
  {
    var dot := IndexOf(key, '.');
    if dot == |key| then assert key == key[..dot]; [key] else [key[..dot]] + Split(key[dot + 1..])
  }

  function Clipped(segs: seq<string>): (path: seq<string>)
    ensures |path| == |segs| && forall i | 0 <= i < |path| :: path[i] == Clip(segs[i], KEY_MAX)
  {
    if segs == [] then [] else [Clip(segs[0], KEY_MAX)] + Clipped(segs[1..])
  }

  /** The edges a key leads along. */
  function PathOf(key: string): (path: seq<string>)
    ensures path != []
  {
    Clipped(Split(key))
  }

  function JoinDots(path: seq<string>): string {
    if path == [] then ""
    else if |path| == 1 then path[0]
    else path[0] + "." + JoinDots(path[1..])
  }

  lemma {:induction false} JoinSplit(key: string)
    ensures JoinDots(Split(key)) == key
    decreases |key|
  {
    var dot := IndexOf(key, '.');
    if dot < |key| {
      JoinSplit(key[dot + 1..]);
      JoinCons(key[..dot], Split(key[dot + 1..]));
      assert key == key[..dot] + "." + key[dot + 1..];
    }
  }

  lemma JoinCons(seg: string, path: seq<string>)
    requires path != []
    ensures JoinDots([seg] + path) == seg + "." + JoinDots(path)
  {
    assert ([seg] + path)[1..] == path;
  }

  lemma {:induction false} SplitJoin(path: seq<string>)
    requires path != [] && forall i | 0 <= i < |path| :: '.' !in path[i]
    ensures Split(JoinDots(path)) == path
  {
    if |path| == 1 {
      IndexOfAbsent(path[0], '.');
    } else {
      var rest := JoinDots(path[1..]);
      IndexOfAfter(path[0], '.', rest);
      var key := path[0] + ['.'] + rest;
      assert key == JoinDots(path) && key[..|path[0]|] == path[0] && key[|path[0]| + 1..] == rest;
      SplitJoin(path[1..]);
    }
  }

  /** Every segment fits its buffer. */
  predicate ShortSegments(key: string) {
    forall i | 0 <= i < |Split(key)| :: |Split(key)[i]| < 128
  }

  lemma ShortPath(key: string)
    requires ShortSegments(key)
    ensures PathOf(key) == Split(key) && JoinDots(PathOf(key)) == key
  {
    JoinSplit(key);
  }

  /** Keys with segments that fit their buffers never lead to the same place. */
  lemma PathInjective(a: string, b: string)
    requires ShortSegments(a) && ShortSegments(b)
    ensures PathOf(a) == PathOf(b) <==> a == b
  {
    ShortPath(a);
    ShortPath(b);
  }

  // ---------------------------------------------------------------- specification

  function FindKid(kids: seq<Tree>, seg: string): (i: nat)
    ensures i <= |kids|
    ensures i < |kids| ==> kids[i].key == seg
    ensures forall j | 0 <= j < i :: kids[j].key != seg
  {
    if kids == [] || kids[0].key == seg then 0 else 1 + FindKid(kids[1..], seg)
  }

  function Find(kids: seq<Tree>, path: seq<string>): Option<Tree>
    requires path != []
    decreases |path|
  {
    var i := FindKid(kids, path[0]);
    if i == |kids| then None
    else if |path| == 1 then Some(kids[i])
    else Find(kids[i].kids, path[1..])
  }

  /** The value at the end of a path; a missing parameter and an empty value are the same. */
  function ValueAt(kids: seq<Tree>, path: seq<string>): string
    requires path != []
  {
    match Find(kids, path) case None => "" case Some(n) => n.value
  }

  /** The child for a segment, a new empty one if there is none. */
  function KidFor(kids: seq<Tree>, seg: string): Tree {
    var i := FindKid(kids, seg);
    if i < |kids| then kids[i] else Node(seg, "", [])
  }

  function PutKid(kids: seq<Tree>, node: Tree): seq<Tree> {
    var i := FindKid(kids, node.key);
    if i < |kids| then kids[i := node] else kids + [node]
  }

  function Put(kids: seq<Tree>, path: seq<string>, value: string): seq<Tree>
    requires path != []
    decreases |path|
  {
    var node := KidFor(kids, path[0]);
    PutKid(kids, if |path| == 1 then node.(value := value) else node.(kids := Put(node.kids, path[1..], value)))
  }

  datatype Assign = Assign(key: string, value: string)

  function Assigned(kids: seq<Tree>, a: Assign): seq<Tree> {
    Put(kids, PathOf(a.key), Clip(a.value, VALUE_MAX))
  }

  function AssignAll(kids: seq<Tree>, assigns: seq<Assign>): seq<Tree>
    decreases |assigns|
  {
    if assigns == [] then kids else AssignAll(Assigned(kids, assigns[0]), assigns[1..])
  }

  function Get(kids: seq<Tree>, key: string): Option<string> {
    var v := ValueAt(kids, PathOf(key));
    if v == "" then None else Some(v)
  }

  // ---------------------------------------------------------------- implementation

  /** param_split_key: the part before the first dot, cut to its buffer, and the rest. */
  function SplitKey(key: string): (string, Option<string>) {
    var dot := IndexOf(key, '.');
    if dot == |key| then (Clip(key, KEY_MAX), None)
    else (Clip(key[..dot], KEY_MAX), Some(key[dot + 1..]))
  }

  lemma SplitKeyPath(key: string)
    ensures match SplitKey(key).1
      case None => PathOf(key) == [SplitKey(key).0]
      case Some(rest) => PathOf(key) == [SplitKey(key).0] + PathOf(rest)
  {
    var dot := IndexOf(key, '.');
    if dot < |key| {
      assert Split(key)[1..] == Split(key[dot + 1..]);
    }
  }

  method GetChild(kids: seq<Tree>, seg: string) returns (i: nat)
    ensures i == FindKid(kids, seg)
  {
    i := 0;
    while i < |kids| && kids[i].key != seg
      invariant i <= |kids| && FindKid(kids, seg) == i + FindKid(kids[i..], seg)
    {
      assert kids[i..][1..] == kids[i + 1..];
      i := i + 1;
    }
  }

  method FindNode(kids: seq<Tree>, key: string) returns (node: Option<Tree>)
    ensures node == Find(kids, PathOf(key))
    decreases |key|
  {
    SplitKeyPath(key);
    var (head, rest) := SplitKey(key);
    var i := GetChild(kids, head);
    if i == |kids| {
      return None;
    }
    if rest.None? {
      return Some(kids[i]);
    }
    assert PathOf(key)[1..] == PathOf(rest.value);
    node := FindNode(kids[i].kids, rest.value);
  }

  method SetIn(kids: seq<Tree>, key: string, value: string) returns (changed: seq<Tree>)
    ensures changed == Assigned(kids, Assign(key, value))
    decreases |key|
  {
    SplitKeyPath(key);
    var (head, rest) := SplitKey(key);
    var i := GetChild(kids, head);
    changed := kids;
    if i == |kids| {
      changed := changed + [Node(head, "", [])];
    }
    if rest.None? {
      changed := changed[i := changed[i].(value := Clip(value, VALUE_MAX))];
    } else {
      assert PathOf(key)[1..] == PathOf(rest.value);
      var below := SetIn(changed[i].kids, rest.value, value);
      changed := changed[i := changed[i].(kids := below)];
    }
  }

  class Params {
    var kids: seq<Tree>

    constructor ()
      ensures kids == []
    {
      kids := [];
    }

    method GetValue(key: string) returns (value: Option<string>)
      ensures value == Get(kids, key)
    {
      var node := FindNode(kids, key);
      if node.Some? && node.value.value != "" {
        return Some(node.value.value);
      }
      return None;
    }

    /** Sets a value; the old one goes to the watchers. */
    method SetValue(key: string, value: string) returns (before: Option<string>)
      modifies this
      ensures before == Get(old(kids), key)
      ensures kids == Assigned(old(kids), Assign(key, value))
    {
      before := GetValue(key);
      kids := SetIn(kids, key, value);
    }
  }

  // ---------------------------------------------------------------- a flat map

  lemma FindKidUnique(kids: seq<Tree>, seg: string, i: nat)
    requires i <= |kids| && (i < |kids| ==> kids[i].key == seg) && forall j | 0 <= j < i :: kids[j].key != seg
    ensures FindKid(kids, seg) == i
  {
  }

  /** After a child was put, its segment leads to it and the others where they led. */
  lemma PutKidFinds(kids: seq<Tree>, node: Tree, seg: string)
    ensures KidFor(PutKid(kids, node), seg) == if seg == node.key then node else KidFor(kids, seg)
    ensures FindKid(PutKid(kids, node), seg) < |PutKid(kids, node)| <==> seg == node.key || FindKid(kids, seg) < |kids|
  {
    var put := PutKid(kids, node);
    var i, k := FindKid(kids, node.key), FindKid(kids, seg);
    if i < |kids| || seg != node.key {
      assert forall j | 0 <= j < |kids| :: put[j].key == kids[j].key;
      FindKidUnique(put, seg, if k < |kids| then k else |put|);
    } else {
      FindKidUnique(put, seg, |kids|);
    }
  }

  /** Setting a value changes what is read along its path, and along no other path. */
  lemma {:induction false} PutThenValue(kids: seq<Tree>, path: seq<string>, value: string, other: seq<string>)
    requires path != [] && other != []
    ensures ValueAt(Put(kids, path, value), other) == if other == path then value else ValueAt(kids, other)
    decreases |path|
  {
    var node := KidFor(kids, path[0]);
    var put := if |path| == 1 then node.(value := value) else node.(kids := Put(node.kids, path[1..], value));
    PutKidFinds(kids, put, other[0]);
    ValueDown(PutKid(kids, put), other);
    ValueDown(kids, other);
    if other[0] == path[0] && |path| > 1 && |other| > 1 {
      PutThenValue(node.kids, path[1..], value, other[1..]);
    }
    SamePath(path, other);
  }

  /** A value is that of the child for the first segment, or below it. */
  lemma ValueDown(kids: seq<Tree>, path: seq<string>)
    requires path != []
    ensures ValueAt(kids, path) ==
            if |path| == 1 then KidFor(kids, path[0]).value else ValueAt(KidFor(kids, path[0]).kids, path[1..])
  {
    if |path| > 1 {
      EmptyValue(path[1..]);
    }
  }

  lemma SamePath(a: seq<string>, b: seq<string>)
    requires a != [] && b != []
    ensures a == b <==> a[0] == b[0] && a[1..] == b[1..]
  {
    assert a == [a[0]] + a[1..] && b == [b[0]] + b[1..];
  }

  lemma EmptyValue(path: seq<string>)
    requires path != []
    ensures ValueAt([], path) == ""
  {
  }

  /**
    Reading back: a key reads what was set for it, and setting a key leaves all
    others alone; keys are the same when they have the same path.
   */
  lemma SetThenGet(kids: seq<Tree>, key: string, value: string, other: string)
    ensures Get(Assigned(kids, Assign(key, value)), other) ==
            if PathOf(other) != PathOf(key) then Get(kids, other)
            else if value == "" then None else Some(Clip(value, 256))
  {
    PutThenValue(kids, PathOf(key), Clip(value, VALUE_MAX), PathOf(other));
  }

  /** What a flat list of assignments says of a path. */
  function Latest(assigns: seq<Assign>, path: seq<string>, before: string): string
    decreases |assigns|
  {
    if assigns == [] then before
    else Latest(assigns[1..], path, if PathOf(assigns[0].key) == path then Clip(assigns[0].value, VALUE_MAX) else before)
  }

  lemma {:induction false} AssignAllValue(kids: seq<Tree>, assigns: seq<Assign>, path: seq<string>)
    requires path != []
    ensures ValueAt(AssignAll(kids, assigns), path) == Latest(assigns, path, ValueAt(kids, path))
    decreases |assigns|
  {
    if assigns != [] {
      PutThenValue(kids, PathOf(assigns[0].key), Clip(assigns[0].value, VALUE_MAX), path);
      AssignAllValue(Assigned(kids, assigns[0]), assigns[1..], path);
    }
  }

  function FlatMap(m: map<string, string>, assigns: seq<Assign>): map<string, string>
    decreases |assigns|
  {
    if assigns == [] then m else FlatMap(m[assigns[0].key := assigns[0].value], assigns[1..])
  }

  function FlatGet(m: map<string, string>, key: string): Option<string> {
    if key in m && m[key] != "" then Some(Clip(m[key], VALUE_MAX)) else None
  }

  /** The tree and the map agree on a key. */
  ghost predicate Agree(kids: seq<Tree>, m: map<string, string>, key: string) {
    Get(kids, key) == FlatGet(m, key)
  }

  lemma {:induction false} RunAgrees(kids: seq<Tree>, m: map<string, string>, assigns: seq<Assign>, key: string)
    requires ShortSegments(key) && forall i | 0 <= i < |assigns| :: ShortSegments(assigns[i].key)
    requires Agree(kids, m, key)
    ensures Agree(AssignAll(kids, assigns), FlatMap(m, assigns), key)
    decreases |assigns|
  {
    if assigns != [] {
      var a := assigns[0];
      SetThenGet(kids, a.key, a.value, key);
      PathInjective(key, a.key);
      RunAgrees(Assigned(kids, a), m[a.key := a.value], assigns[1..], key);
    }
  }

  /** Over every run of assignments the tree reads as the flat map from whole keys to values. */
  lemma TreeIsFlatMap(assigns: seq<Assign>, key: string)
    requires ShortSegments(key) && forall i | 0 <= i < |assigns| :: ShortSegments(assigns[i].key)
    ensures Get(AssignAll([], assigns), key) == FlatGet(FlatMap(map[], assigns), key)
  {
    EmptyValue(PathOf(key));
    RunAgrees([], map[], assigns, key);
  }

  // ---------------------------------------------------------------- siblings

  ghost predicate DistinctKeys(kids: seq<Tree>) {
    forall i, j | 0 <= i < j < |kids| :: kids[i].key != kids[j].key
  }

  /** At every level siblings have different keys without dots, that fit their buffer. */
  ghost predicate TreeOk(kids: seq<Tree>) {
    && DistinctKeys(kids)
    && forall i | 0 <= i < |kids| :: '.' !in kids[i].key && |kids[i].key| < KEY_MAX && TreeOk(kids[i].kids)
  }

  lemma PutKidOk(kids: seq<Tree>, node: Tree)
    requires TreeOk(kids) && '.' !in node.key && |node.key| < KEY_MAX && TreeOk(node.kids)
    ensures TreeOk(PutKid(kids, node))
  {
    var put, i := PutKid(kids, node), FindKid(kids, node.key);
    assert forall k | 0 <= k < |put| :: put[k] == if k == i then node else kids[k];
    assert DistinctKeys(put);
  }

  lemma {:induction false} PutOk(kids: seq<Tree>, path: seq<string>, value: string)
    requires TreeOk(kids) && path != [] && forall i | 0 <= i < |path| :: '.' !in path[i] && |path[i]| < KEY_MAX
    ensures TreeOk(Put(kids, path, value))
    decreases |path|
  {
    var node := KidFor(kids, path[0]);
    assert TreeOk([]);
    if |path| == 1 {
      PutKidOk(kids, node.(value := value));
    } else {
      PutOk(node.kids, path[1..], value);
      PutKidOk(kids, node.(kids := Put(node.kids, path[1..], value)));
    }
  }

  lemma ClipKeepsFree(s: string, cap: nat, c: char)
    requires cap > 0 && c !in s
    ensures c !in Clip(s, cap) && |Clip(s, cap)| < cap
  {
  }

  /** Any assignment, whatever its key, keeps siblings distinct at every level. */
  lemma {:induction false} SiblingsStayDistinct(kids: seq<Tree>, assigns: seq<Assign>)
    requires TreeOk(kids)
    ensures TreeOk(AssignAll(kids, assigns))
    decreases |assigns|
  {
    if assigns != [] {
      var segs := Split(assigns[0].key);
      forall i | 0 <= i < |segs|
        ensures '.' !in Clip(segs[i], KEY_MAX) && |Clip(segs[i], KEY_MAX)| < KEY_MAX
      {
        ClipKeepsFree(segs[i], KEY_MAX, '.');
      }
      PutOk(kids, PathOf(assigns[0].key), Clip(assigns[0].value, VALUE_MAX));
      SiblingsStayDistinct(Assigned(kids, assigns[0]), assigns[1..]);
    }
  }
}
