/**
 * Batch translation of every string of a JSON tree (src/utils/translate.ts):
 * the strings are collected with their paths, joined by newlines, sent to a
 * translator in one request, split again and written back at their paths
 * into a deep clone of the input. The remote translator is a parameter.
 */
module Translate {
  import opened Wrappers
  import opened Json

  /** One step of a path: an object key or an array index (`string | number`). */
  datatype Segment = Key(name: string) | Idx(index: nat)

  type Path = seq<Segment>

  /** The property name a segment reads: JavaScript converts a number to its decimal string. */
  function SegKey(s: Segment): string {
    match s
    case Key(k) => k
    case Idx(i) => IndexKey(i)
  }

  /** The segment collectStrings appends for property `i`: the index in an array, the key otherwise. */
  function SegmentAt(v: Json, i: nat): (s: Segment)
    requires i < |Props(v)|
    ensures SegKey(s) == Props(v)[i].0
  {
    if v.JArr? then Idx(i) else Key(Props(v)[i].0)
  }

  // =====================================================================
  // collectStrings

  /** A collected string with its path relative to the node it was collected from. */
  type Leaf = (string, Path)

  /**
   * What collectStrings pushes, in order: a string is its own leaf, an array
   * contributes its items' leaves in index order, any other non-null object
   * its entries' leaves in entry order, and numbers, booleans and null nothing.
   */
  function Leaves(v: Json): seq<Leaf>
    decreases Size(v), 1
  {
    if v.JStr? then [(v.s, [])]
    else if IsObjectTyped(v) && !v.JNull? then LeavesFrom(v, 0)
    else []
  }

  function LeavesFrom(v: Json, i: nat): seq<Leaf>
    requires !v.JStr? && i <= |Props(v)|
    decreases Size(v), 0, |Props(v)| - i
  {
    if i == |Props(v)| then []
    else
      assert Size(Props(v)[i].1) < Size(v) by { ChildSmaller(v, i); }
      Under(SegmentAt(v, i), Leaves(Props(v)[i].1)) + LeavesFrom(v, i + 1)
  }

  /** Leaves of a child, seen from its parent. */
  function Under(s: Segment, ls: seq<Leaf>): (r: seq<Leaf>)
    ensures |r| == |ls| && forall k :: 0 <= k < |ls| ==> r[k] == (ls[k].0, [s] + ls[k].1)
  {
    seq(|ls|, k requires 0 <= k < |ls| => (ls[k].0, [s] + ls[k].1))
  }

  function Texts(ls: seq<Leaf>): (r: seq<string>)
    ensures |r| == |ls| && forall k :: 0 <= k < |ls| ==> r[k] == ls[k].0
  {
    seq(|ls|, k requires 0 <= k < |ls| => ls[k].0)
  }

  /** The absolute paths of leaves collected below `at`. */
  function Located(at: Path, ls: seq<Leaf>): (r: seq<Path>)
    ensures |r| == |ls| && forall k :: 0 <= k < |ls| ==> r[k] == at + ls[k].1
  {
    seq(|ls|, k requires 0 <= k < |ls| => at + ls[k].1)
  }

  lemma TextsSplit(c: seq<Leaf>, s: Segment, rest: seq<Leaf>)
    ensures Texts(Under(s, c) + rest) == Texts(c) + Texts(rest)
  {
  }

  lemma LocatedSplit(at: Path, c: seq<Leaf>, s: Segment, rest: seq<Leaf>)
    ensures Located(at, Under(s, c) + rest) == Located(at + [s], c) + Located(at, rest)
  {
    var l, r := Located(at, Under(s, c) + rest), Located(at + [s], c) + Located(at, rest);
    forall k | 0 <= k < |l|
      ensures l[k] == r[k]
    {
      if k < |c| {
        assert at + ([s] + c[k].1) == (at + [s]) + c[k].1;
      }
    }
  }

  /** What one iteration of collectStrings' loop adds, against the rest it leaves for later. */
  lemma CollectStep(v: Json, i: nat, at: Path)
    requires !v.JStr? && i < |Props(v)|
    ensures var c := Leaves(Props(v)[i].1);
      Texts(LeavesFrom(v, i)) == Texts(c) + Texts(LeavesFrom(v, i + 1)) &&
      Located(at, LeavesFrom(v, i)) == Located(at + [SegmentAt(v, i)], c) + Located(at, LeavesFrom(v, i + 1))
  {
    var c := Leaves(Props(v)[i].1);
    assert LeavesFrom(v, i) == Under(SegmentAt(v, i), c) + LeavesFrom(v, i + 1);
    TextsSplit(c, SegmentAt(v, i), LeavesFrom(v, i + 1));
    LocatedSplit(at, c, SegmentAt(v, i), LeavesFrom(v, i + 1));
  }

  /** After collecting child `i`, what has been collected plus what is still to come is unchanged. */
  lemma CollectAdvance(v: Json, i: nat, at: Path, strings0: seq<string>, strings: seq<string>,
                       paths0: seq<Path>, paths: seq<Path>)
    requires !v.JStr? && i < |Props(v)|
    requires strings == strings0 + Texts(Leaves(Props(v)[i].1))
    requires paths == paths0 + Located(at + [SegmentAt(v, i)], Leaves(Props(v)[i].1))
    ensures strings + Texts(LeavesFrom(v, i + 1)) == strings0 + Texts(LeavesFrom(v, i))
    ensures paths + Located(at, LeavesFrom(v, i + 1)) == paths0 + Located(at, LeavesFrom(v, i))
  {
    CollectStep(v, i, at);
    Regroup(strings0, strings, Texts(Leaves(Props(v)[i].1)), Texts(LeavesFrom(v, i + 1)), Texts(LeavesFrom(v, i)));
    Regroup(paths0, paths, Located(at + [SegmentAt(v, i)], Leaves(Props(v)[i].1)),
      Located(at, LeavesFrom(v, i + 1)), Located(at, LeavesFrom(v, i)));
  }

  /** What was pushed for one child, followed by what is still to come, is what was to come. */
  lemma Regroup<T>(before: seq<T>, after: seq<T>, pushed: seq<T>, rest: seq<T>, pending: seq<T>)
    requires after == before + pushed && pending == pushed + rest
    ensures after + rest == before + pending
  {
  }

  /** The `strings` and `paths` arrays collectStrings shares between its recursive calls. */
  class Collector {
    var strings: seq<string>
    var paths: seq<Path>

    constructor()
      ensures strings == [] && paths == []
    {
      strings := [];
      paths := [];
    }

    /** collectStrings(obj, strings, paths, currentPath) */
    method CollectStrings(obj: Json, currentPath: Path)
      modifies this
      ensures strings == old(strings) + Texts(Leaves(obj))
      ensures paths == old(paths) + Located(currentPath, Leaves(obj))
      decreases Size(obj), 1
    {
      if obj.JStr? {
        assert currentPath + [] == currentPath;
        assert Texts(Leaves(obj)) == [obj.s] && Located(currentPath, Leaves(obj)) == [currentPath];
        strings := strings + [obj.s];
        paths := paths + [currentPath];
      } else if IsObjectTyped(obj) && !obj.JNull? {
        CollectChildren(obj, currentPath);
      }
    }

    /** The `forEach` over an array's items, or over an object's `Object.entries`. */
    method CollectChildren(obj: Json, currentPath: Path)
      requires IsObjectTyped(obj) && !obj.JNull?
      modifies this
      ensures strings == old(strings) + Texts(LeavesFrom(obj, 0))
      ensures paths == old(paths) + Located(currentPath, LeavesFrom(obj, 0))
      decreases Size(obj), 0
    {
      var props := Props(obj);
      var i := 0;
      while i < |props|
        invariant 0 <= i <= |props|
        invariant strings + Texts(LeavesFrom(obj, i)) == old(strings) + Texts(LeavesFrom(obj, 0))
        invariant paths + Located(currentPath, LeavesFrom(obj, i)) == old(paths) + Located(currentPath, LeavesFrom(obj, 0))
      {
        var seg := if obj.JArr? then Idx(i) else Key(props[i].0);
        assert seg == SegmentAt(obj, i);
        ChildSmaller(obj, i);
        ghost var strings0, paths0 := strings, paths;
        CollectStrings(props[i].1, currentPath + [seg]);
        CollectAdvance(obj, i, currentPath, strings0, strings, paths0, paths);
        i := i + 1;
      }
      assert LeavesFrom(obj, i) == [];
    }
  }

  // =====================================================================
  // Following a path

  /**
   * One step down a path: the property a segment names, read only from an
   * array or an object (the only nodes a successful write passes through).
   */
  function Child(v: Json, s: Segment): Option<Json> {
    match v
    case JObj(e) => Lookup(e, SegKey(s))
    case JArr(a) => Lookup(ArrayProps(a), SegKey(s))
    case _ => None
  }

  lemma ChildGet(v: Json, s: Segment)
    requires v.JObj? || v.JArr?
    ensures Child(v, s) == Get(v, SegKey(s))
  {
  }

  /** The node reached by reading `current = current[path[i]]` along the whole path, through arrays and objects. */
  function GetPath(v: Json, p: Path): Option<Json>
    decreases |p|
  {
    if p == [] then Some(v)
    else match Child(v, p[0])
      case None => None
      case Some(c) => GetPath(c, p[1..])
  }

  /** Every node before the end of the path is an array or an object holding the next segment. */
  predicate Walkable(v: Json, p: Path)
    decreases |p|
  {
    p == [] || ((v.JObj? || v.JArr?) && Child(v, p[0]).Some? && Walkable(Child(v, p[0]).value, p[1..]))
  }

  /** Each leaf's path leads, through arrays and objects, to a string equal to the leaf's text. */
  predicate Addressed(v: Json, ls: seq<Leaf>) {
    forall k :: 0 <= k < |ls| ==> Walkable(v, ls[k].1) && GetPath(v, ls[k].1) == Some(JStr(ls[k].0))
  }

  lemma UnderAddressed(v: Json, i: nat)
    requires WellFormed(v) && !v.JStr? && i < |Props(v)|
    requires Addressed(Props(v)[i].1, Leaves(Props(v)[i].1))
    ensures Addressed(v, Under(SegmentAt(v, i), Leaves(Props(v)[i].1)))
  {
    var c := Props(v)[i].1;
    var s := SegmentAt(v, i);
    GetProp(v, i);
    if |Leaves(c)| > 0 {
      assert c.JNum? ==> Leaves(c) == [];
      assert v.JObj? || v.JArr?;
    }
    forall k | 0 <= k < |Leaves(c)|
      ensures Walkable(v, ([s] + Leaves(c)[k].1)) && GetPath(v, [s] + Leaves(c)[k].1) == Some(JStr(Leaves(c)[k].0))
    {
      assert ([s] + Leaves(c)[k].1)[1..] == Leaves(c)[k].1;
    }
  }

  lemma {:induction false} LeavesFromAddressed(v: Json, i: nat)
    requires WellFormed(v) && !v.JStr? && i <= |Props(v)|
    ensures Addressed(v, LeavesFrom(v, i))
    decreases Size(v), 0, |Props(v)| - i
  {
    if i < |Props(v)| {
      ChildSmaller(v, i);
      PropsWellFormed(v);
      LeavesAddressed(Props(v)[i].1);
      UnderAddressed(v, i);
      LeavesFromAddressed(v, i + 1);
      var a, b := Under(SegmentAt(v, i), Leaves(Props(v)[i].1)), LeavesFrom(v, i + 1);
      AppendAddressed(v, a, b);
    }
  }

  lemma AppendAddressed(v: Json, a: seq<Leaf>, b: seq<Leaf>)
    requires Addressed(v, a) && Addressed(v, b)
    ensures Addressed(v, a + b)
  {
    forall k | 0 <= k < |a + b|
      ensures Walkable(v, (a + b)[k].1) && GetPath(v, (a + b)[k].1) == Some(JStr((a + b)[k].0))
    {
      if k >= |a| {
        assert (a + b)[k] == b[k - |a|];
      }
    }
  }

  /** Following `paths[i]` from the root reaches a string equal to `strings[i]`. */
  lemma {:induction false} LeavesAddressed(v: Json)
    requires WellFormed(v)
    ensures Addressed(v, Leaves(v))
    decreases Size(v), 1
  {
    if !v.JStr? && IsObjectTyped(v) && !v.JNull? {
      LeavesFromAddressed(v, 0);
    }
  }

  // =====================================================================
  // setTranslatedValues

  /** `current[k] = x`, with the error JavaScript (or the tree model) raises when it cannot. */
  function SetKey(v: Json, k: string, x: Json): (r: Result<Json>)
    ensures r.Success? <==> Set(v, k, x).Some?
    ensures r.Success? ==> r.value == Set(v, k, x).value
    ensures r.Failure? ==> r.error == (if v.JArr? || v.JBuffer? then OutsideModel else TypeError)
  {
    match Set(v, k, x)
    case Some(w) => Success(w)
    case None => Failure(if v.JArr? || v.JBuffer? then OutsideModel else TypeError)
  }

  /**
   * Writing `x` at `path`, as the loop of setTranslatedValues does: every
   * segment but the last is read (a missing one makes the next access throw),
   * and the last one is assigned. For an empty path `path[path.length - 1]`
   * is `undefined`, so the root gets a property named "undefined".
   */
  function SetPath(v: Json, p: Path, x: Json): (r: Result<Json>)
    ensures r.Failure? ==> r.error == TypeError || r.error == OutsideModel
    decreases |p|
  {
    if |p| == 0 then SetKey(v, "undefined", x)
    else if |p| == 1 then SetKey(v, SegKey(p[0]), x)
    else match Get(v, SegKey(p[0]))
      case None => Failure(TypeError)
      case Some(c) =>
        var c' :- SetPath(c, p[1..], x);
        SetKey(v, SegKey(p[0]), c')
  }

  /**
   * The writes that make an in-place change of a nested node visible from
   * the root: the changed node goes back into each of its ancestors, innermost first.
   */
  function Plug(ancestors: seq<Json>, p: Path, r: Result<Json>): Result<Json>
    requires |ancestors| == |p|
    decreases |p|
  {
    if r.Failure? || |p| == 0 then r
    else
      var n := |p| - 1;
      Plug(ancestors[..n], p[..n], SetKey(ancestors[n], SegKey(p[n]), r.value))
  }

  lemma PlugStep(ancestors: seq<Json>, p: Path, a: Json, s: Segment, r: Result<Json>)
    requires |ancestors| == |p|
    ensures Plug(ancestors + [a], p + [s], r) ==
      if r.Failure? then r else Plug(ancestors, p, SetKey(a, SegKey(s), r.value))
  {
    if r.Success? {
      assert (ancestors + [a])[..|p|] == ancestors;
      assert (p + [s])[..|p|] == p;
    }
  }

  lemma PrefixStep<T>(s: seq<T>, i: nat)
    requires i < |s|
    ensures s[..i + 1] == s[..i] + [s[i]]
  {
  }

  lemma PlugFailure(ancestors: seq<Json>, p: Path, e: Error)
    requires |ancestors| == |p|
    ensures Plug(ancestors, p, Failure(e)) == Failure(e)
  {
  }

  lemma SetPathStep(v: Json, p: Path, i: nat, x: Json)
    requires i + 2 <= |p|
    ensures Get(v, SegKey(p[i])).None? ==> SetPath(v, p[i..], x) == Failure(TypeError)
    ensures Get(v, SegKey(p[i])).Some? ==>
      var r := SetPath(Get(v, SegKey(p[i])).value, p[i + 1..], x);
      SetPath(v, p[i..], x) == if r.Failure? then r else SetKey(v, SegKey(p[i]), r.value)
  {
    assert p[i..][0] == p[i] && p[i..][1..] == p[i + 1..];
  }

  lemma SetPathLast(v: Json, p: Path, i: nat, x: Json)
    requires i + 1 == |p|
    ensures SetPath(v, p[i..], x) == SetKey(v, SegKey(p[i]), x)
  {
    assert p[i..] == [p[i]];
  }

  /** Reading one more segment moves the pending write one level down. */
  lemma WalkStep(obj: Json, path: Path, x: Json, ancestors: seq<Json>, current: Json, i: nat)
    requires i < |path| - 1 && |ancestors| == i
    requires SetPath(obj, path, x) == Plug(ancestors, path[..i], SetPath(current, path[i..], x))
    ensures Get(current, SegKey(path[i])).None? ==> SetPath(obj, path, x) == Failure(TypeError)
    ensures Get(current, SegKey(path[i])).Some? ==>
      SetPath(obj, path, x) ==
        Plug(ancestors + [current], path[..i + 1], SetPath(Get(current, SegKey(path[i])).value, path[i + 1..], x))
  {
    SetPathStep(current, path, i, x);
    if Get(current, SegKey(path[i])).None? {
      PlugFailure(ancestors, path[..i], TypeError);
    } else {
      PlugStep(ancestors, path[..i], current, path[i], SetPath(Get(current, SegKey(path[i])).value, path[i + 1..], x));
      PrefixStep(path, i);
    }
  }

  /** Writing the changed node into its parent moves the pending write one level up. */
  lemma RebuildStep(ancestors: seq<Json>, path: Path, j: nat, r: Result<Json>)
    requires 0 < j <= |ancestors| && j <= |path| && r.Success?
    ensures Plug(ancestors[..j], path[..j], r) ==
      Plug(ancestors[..j - 1], path[..j - 1], SetKey(ancestors[j - 1], SegKey(path[j - 1]), r.value))
  {
    assert ancestors[..j][..j - 1] == ancestors[..j - 1];
    assert path[..j][..j - 1] == path[..j - 1];
  }

  /** One iteration of `paths.forEach`: walk `current` down the path, then assign. */
  method WriteAt(obj: Json, path: Path, x: Json) returns (r: Result<Json>)
    ensures r == SetPath(obj, path, x)
  {
    if |path| == 0 {
      r := SetKey(obj, "undefined", x);
      return;
    }
    var ancestors: seq<Json> := [];
    var current := obj;
    var i := 0;
    while i < |path| - 1
      invariant 0 <= i <= |path| - 1 && |ancestors| == i
      invariant SetPath(obj, path, x) == Plug(ancestors, path[..i], SetPath(current, path[i..], x))
    {
      var next := Get(current, SegKey(path[i]));
      WalkStep(obj, path, x, ancestors, current, i);
      if next.None? {
        r := Failure(TypeError);
        return;
      }
      ancestors := ancestors + [current];
      current := next.value;
      i := i + 1;
    }
    SetPathLast(current, path, i, x);
    r := SetKey(current, SegKey(path[i]), x);
    var j := |ancestors|;
    assert ancestors[..j] == ancestors && path[..i] == path[..j];
    while j > 0 && r.Success?
      invariant 0 <= j <= |ancestors|
      invariant SetPath(obj, path, x) == Plug(ancestors[..j], path[..j], r)
    {
      RebuildStep(ancestors, path, j, r);
      j := j - 1;
      r := SetKey(ancestors[j], SegKey(path[j]), r.value);
    }
    if r.Failure? {
      PlugFailure(ancestors[..j], path[..j], r.error);
    }
  }

  /** The `paths.forEach` of setTranslatedValues from path `i` on; the first failing write throws. */
  function SetAll(v: Json, texts: seq<string>, paths: seq<Path>, i: nat): Result<Json>
    requires |paths| <= |texts| && i <= |paths|
    decreases |paths| - i
  {
    if i == |paths| then Success(v)
    else
      var w :- SetPath(v, paths[i], JStr(texts[i]));
      SetAll(w, texts, paths, i + 1)
  }

  /** setTranslatedValues, on the clone translateJson owns. */
  method SetTranslatedValues(obj: Json, translatedStrings: seq<string>, paths: seq<Path>) returns (r: Result<Json>)
    requires |paths| <= |translatedStrings|
    ensures r == SetAll(obj, translatedStrings, paths, 0)
  {
    var current := obj;
    var idx := 0;
    while idx < |paths|
      invariant 0 <= idx <= |paths|
      invariant SetAll(obj, translatedStrings, paths, 0) == SetAll(current, translatedStrings, paths, idx)
    {
      var w := WriteAt(current, paths[idx], JStr(translatedStrings[idx]));
      if w.Failure? {
        return Failure(w.error);
      }
      current := w.value;
      idx := idx + 1;
    }
    r := Success(current);
  }

  // ---------------------------------------------------------------------
  // What a write does

  /** After writing `x` at a non-empty path, the path leads to `x`. */
  lemma {:induction false} GetSetPath(v: Json, p: Path, x: Json)
    requires |p| > 0 && SetPath(v, p, x).Success?
    ensures GetPath(SetPath(v, p, x).value, p) == Some(x)
    decreases |p|
  {
    var k := SegKey(p[0]);
    if |p| == 1 {
      GetSet(v, k, x, k);
    } else {
      var c := Get(v, k).value;
      GetSetPath(c, p[1..], x);
      GetSet(v, k, SetPath(c, p[1..], x).value, k);
    }
  }

  /** Two paths part when, at some position both have, they read different property names. */
  predicate Part(p: Path, q: Path)
    decreases |p|
  {
    |p| > 0 && |q| > 0 && (SegKey(p[0]) != SegKey(q[0]) || Part(p[1..], q[1..]))
  }

  /** A write changes nothing a path parting from its own leads to. */
  lemma {:induction false} SetPathElsewhere(v: Json, p: Path, x: Json, q: Path)
    requires SetPath(v, p, x).Success? && Part(p, q)
    ensures GetPath(SetPath(v, p, x).value, q) == GetPath(v, q)
    decreases |p|
  {
    var k := SegKey(p[0]);
    if |p| == 1 {
      GetSet(v, k, x, SegKey(q[0]));
    } else {
      var c := Get(v, k).value;
      var c' := SetPath(c, p[1..], x).value;
      GetSet(v, k, c', SegKey(q[0]));
      if SegKey(q[0]) == k {
        SetPathElsewhere(c, p[1..], x, q[1..]);
      }
    }
  }

  /** Writing back the value a path already leads to changes nothing. */
  lemma {:induction false} SetPathSame(v: Json, p: Path)
    requires |p| > 0 && Walkable(v, p) && GetPath(v, p).Some?
    ensures SetPath(v, p, GetPath(v, p).value) == Success(v)
    decreases |p|
  {
    var k := SegKey(p[0]);
    SetSame(v, k);
    if |p| > 1 {
      SetPathSame(Get(v, k).value, p[1..]);
    }
  }

  /** Each path from `i` on leads, through arrays and objects, to the string of the same index. */
  predicate Holds(v: Json, texts: seq<string>, paths: seq<Path>, i: nat)
    requires |paths| <= |texts|
  {
    forall k :: i <= k < |paths| ==> |paths[k]| > 0 && Walkable(v, paths[k]) && GetPath(v, paths[k]) == Some(JStr(texts[k]))
  }

  lemma {:induction false} SetAllSame(v: Json, texts: seq<string>, paths: seq<Path>, i: nat)
    requires |paths| <= |texts| && i <= |paths| && Holds(v, texts, paths, i)
    ensures SetAll(v, texts, paths, i) == Success(v)
    decreases |paths| - i
  {
    if i < |paths| {
      SetPathSame(v, paths[i]);
      SetAllStep(v, texts, paths, i);
      SetAllSame(v, texts, paths, i + 1);
    }
  }

  lemma SetAllStep(v: Json, texts: seq<string>, paths: seq<Path>, i: nat)
    requires |paths| <= |texts| && i < |paths|
    ensures SetPath(v, paths[i], JStr(texts[i])).Failure? ==>
      SetAll(v, texts, paths, i) == Failure(SetPath(v, paths[i], JStr(texts[i])).error)
    ensures SetPath(v, paths[i], JStr(texts[i])).Success? ==>
      SetAll(v, texts, paths, i) == SetAll(SetPath(v, paths[i], JStr(texts[i])).value, texts, paths, i + 1)
  {
  }

  /** Only the root itself is collected with the empty path. */
  lemma {:induction false} LeafPathsNonEmpty(v: Json)
    requires !v.JStr?
    ensures forall k :: 0 <= k < |Leaves(v)| ==> |Leaves(v)[k].1| > 0
  {
    if IsObjectTyped(v) && !v.JNull? {
      LeavesFromNonEmpty(v, 0);
    }
  }

  lemma {:induction false} LeavesFromNonEmpty(v: Json, i: nat)
    requires !v.JStr? && i <= |Props(v)|
    ensures forall k :: 0 <= k < |LeavesFrom(v, i)| ==> |LeavesFrom(v, i)[k].1| > 0
    decreases |Props(v)| - i
  {
    if i < |Props(v)| {
      ChildSmaller(v, i);
      LeavesFromNonEmpty(v, i + 1);
    }
  }

  /** Writing the collected strings back at their own paths is a no-op. */
  lemma WriteBackCollected(v: Json)
    requires WellFormed(v) && !v.JStr?
    ensures SetAll(v, Texts(Leaves(v)), Located([], Leaves(v)), 0) == Success(v)
  {
    var ls := Leaves(v);
    LeavesAddressed(v);
    LeafPathsNonEmpty(v);
    LocatedAtRoot(ls);
    assert Holds(v, Texts(ls), Located([], ls), 0);
    SetAllSame(v, Texts(ls), Located([], ls), 0);
  }

  // =====================================================================
  // Joining and splitting lines

  /** `strings.join('\n')` */
  function Join(ss: seq<string>): string {
    if |ss| == 0 then ""
    else if |ss| == 1 then ss[0]
    else ss[0] + "\n" + Join(ss[1..])
  }

  /** `s.split('\n')`: the pieces between newlines, always at least one. */
  function Split(s: string): (r: seq<string>)
    ensures |r| > 0
  {
    if |s| == 0 then [""]
    else
      var rest := Split(s[1..]);
      if s[0] == '\n' then [""] + rest
      else [[s[0]] + rest[0]] + rest[1..]
  }

  function Newlines(s: string): nat {
    if |s| == 0 then 0 else (if s[0] == '\n' then 1 else 0) + Newlines(s[1..])
  }

  lemma {:induction false} SplitCount(s: string)
    ensures |Split(s)| == Newlines(s) + 1
  {
    if |s| > 0 {
      SplitCount(s[1..]);
    }
  }

  lemma {:induction false} NewlinesAppend(a: string, b: string)
    ensures Newlines(a + b) == Newlines(a) + Newlines(b)
  {
    if |a| > 0 {
      assert (a + b)[0] == a[0] && (a + b)[1..] == a[1..] + b;
      NewlinesAppend(a[1..], b);
    } else {
      assert a + b == b;
    }
  }

  lemma {:induction false} NewlinesIn(s: string)
    ensures '\n' in s <==> Newlines(s) > 0
  {
    if |s| > 0 {
      NewlinesIn(s[1..]);
      assert s == [s[0]] + s[1..];
    }
  }

  /** A piece followed by a newline splits off as one line. */
  lemma {:induction false} SplitLine(a: string, rest: string)
    requires '\n' !in a
    ensures Split(a + "\n" + rest) == [a] + Split(rest)
  {
    if |a| > 0 {
      var s := a + "\n" + rest;
      assert s[0] == a[0] && s[1..] == a[1..] + "\n" + rest;
      assert '\n' !in a[1..] by { assert forall c :: c in a[1..] ==> c in a; }
      SplitLine(a[1..], rest);
      assert [a[0]] + a[1..] == a;
    } else {
      assert a + "\n" + rest == "\n" + rest;
    }
  }

  lemma {:induction false} SplitNone(a: string)
    requires '\n' !in a
    ensures Split(a) == [a]
  {
    if |a| > 0 {
      assert '\n' !in a[1..] by { assert forall c :: c in a[1..] ==> c in a; }
      SplitNone(a[1..]);
      assert [a[0]] + a[1..] == a;
    }
  }

  lemma {:induction false} JoinNewlines(ss: seq<string>)
    requires |ss| > 0
    ensures Newlines(Join(ss)) >= |ss| - 1
    ensures (exists k :: 0 <= k < |ss| && '\n' in ss[k]) ==> Newlines(Join(ss)) >= |ss|
  {
    if |ss| == 1 {
      NewlinesIn(ss[0]);
    } else {
      JoinNewlines(ss[1..]);
      NewlinesAppend(ss[0] + "\n", Join(ss[1..]));
      NewlinesAppend(ss[0], "\n");
      NewlinesIn(ss[0]);
      if exists k :: 0 <= k < |ss| && '\n' in ss[k] {
        var k :| 0 <= k < |ss| && '\n' in ss[k];
        if k > 0 {
          assert '\n' in ss[1..][k - 1];
        }
      }
    }
  }

  /**
   * Splitting the newline-join of the strings gives them back exactly when
   * there is at least one and none of them contains a newline.
   */
  lemma {:induction false} SplitJoin(ss: seq<string>)
    ensures Split(Join(ss)) == ss <==> |ss| > 0 && forall k :: 0 <= k < |ss| ==> '\n' !in ss[k]
  {
    if |ss| == 0 {
      assert Split("") == [""];
    } else if forall k :: 0 <= k < |ss| ==> '\n' !in ss[k] {
      JoinLines(ss);
    } else {
      JoinNewlines(ss);
      SplitCount(Join(ss));
    }
  }

  lemma {:induction false} JoinLines(ss: seq<string>)
    requires |ss| > 0 && forall k :: 0 <= k < |ss| ==> '\n' !in ss[k]
    ensures Split(Join(ss)) == ss
  {
    if |ss| == 1 {
      SplitNone(ss[0]);
    } else {
      assert '\n' !in ss[0];
      JoinLines(ss[1..]);
      SplitLine(ss[0], Join(ss[1..]));
    }
  }

  // =====================================================================
  // translateJson

  /**
   * `JSON.parse(JSON.stringify(v))`: a Buffer becomes `{type: "Buffer", data: [bytes]}`
   * (its `toJSON`); every other value of the model comes back as it was.
   */
  function Clone(v: Json): Json {
    match v
    case JBuffer(b) => JObj([("type", JStr("Buffer")), ("data", JArr(seq(|b|, i requires 0 <= i < |b| => JNum(b[i] as int))))])
    case JArr(a) => JArr(seq(|a|, i requires 0 <= i < |a| => Clone(a[i])))
    case JObj(e) => JObj(seq(|e|, i requires 0 <= i < |e| => (e[i].0, Clone(e[i].1))))
    case _ => v
  }

  predicate NoBuffers(v: Json) {
    match v
    case JBuffer(_) => false
    case JArr(a) => forall i :: 0 <= i < |a| ==> NoBuffers(a[i])
    case JObj(e) => forall i :: 0 <= i < |e| ==> NoBuffers(e[i].1)
    case _ => true
  }

  /** Without Buffers the clone is the value itself. */
  lemma CloneIdentity(v: Json)
    requires NoBuffers(v)
    ensures Clone(v) == v
  {
    match v
    case JArr(a) =>
      forall i | 0 <= i < |a| ensures Clone(a[i]) == a[i] {
        CloneIdentity(a[i]);
      }
    case JObj(e) =>
      forall i | 0 <= i < |e| ensures (e[i].0, Clone(e[i].1)) == e[i] {
        CloneIdentity(e[i].1);
      }
    case _ =>
  }

  lemma CloneWellFormed(v: Json)
    requires WellFormed(v)
    ensures WellFormed(Clone(v)) && NoBuffers(Clone(v))
  {
    match v
    case JArr(a) =>
      forall i | 0 <= i < |a| ensures WellFormed(Clone(a[i])) && NoBuffers(Clone(a[i])) {
        CloneWellFormed(a[i]);
      }
    case JObj(e) =>
      forall i | 0 <= i < |e| ensures WellFormed(Clone(e[i].1)) && NoBuffers(Clone(e[i].1)) {
        CloneWellFormed(e[i].1);
      }
    case _ =>
  }

  /** The remote translation of a text into a target language; None when the request fails. */
  type Translator = (string, string) -> Option<string>

  /** `typeof inputJson !== 'object' || inputJson === null` */
  predicate Rejected(input: Json) {
    !IsObjectTyped(input) || input.JNull?
  }

  /** translateJson(inputJson, targetLang), with `translateText` given as `translate`. */
  function TranslateJsonSpec(input: Json, targetLang: string, translate: Translator): (r: Result<Json>)
    ensures Rejected(input) <==> r == Failure(NotAnObject)
  {
    if Rejected(input) then Failure(NotAnObject)
    else
      var cloned := Clone(input);
      var leaves := Leaves(cloned);
      if |leaves| == 0 then Success(cloned)
      else
        match translate(Join(Texts(leaves)), targetLang)
        case None => Failure(TranslationFailed)
        case Some(reply) =>
          var lines := Split(reply);
          if |lines| != |leaves| then Failure(LineMismatch)
          else AllWrites(cloned, lines, Located([], leaves))
  }

  /** The write-back, whose failures are TypeError or OutsideModel only. */
  function AllWrites(v: Json, texts: seq<string>, paths: seq<Path>): (r: Result<Json>)
    requires |paths| <= |texts|
    ensures r.Failure? ==> r.error == TypeError || r.error == OutsideModel
  {
    SetAllErrors(v, texts, paths, 0);
    SetAll(v, texts, paths, 0)
  }

  lemma {:induction false} SetAllErrors(v: Json, texts: seq<string>, paths: seq<Path>, i: nat)
    requires |paths| <= |texts| && i <= |paths|
    ensures SetAll(v, texts, paths, i).Failure? ==>
      SetAll(v, texts, paths, i).error == TypeError || SetAll(v, texts, paths, i).error == OutsideModel
    decreases |paths| - i
  {
    if i < |paths| && SetPath(v, paths[i], JStr(texts[i])).Success? {
      SetAllErrors(SetPath(v, paths[i], JStr(texts[i])).value, texts, paths, i + 1);
    }
  }

  /** translateJson: clone, collect, join, translate, split, check the count, write back. */
  method TranslateJson(inputJson: Json, targetLang: string, translate: Translator) returns (r: Result<Json>)
    ensures r == TranslateJsonSpec(inputJson, targetLang, translate)
  {
    if !IsObjectTyped(inputJson) || inputJson.JNull? {
      return Failure(NotAnObject);
    }
    var clonedJson := Clone(inputJson);
    var collector := new Collector();
    collector.CollectStrings(clonedJson, []);
    var strings, paths := collector.strings, collector.paths;
    assert strings == Texts(Leaves(clonedJson)) && paths == Located([], Leaves(clonedJson));
    if |strings| == 0 {
      return Success(clonedJson);
    }
    var combinedText := Join(strings);
    var reply := translate(combinedText, targetLang);
    if reply.None? {
      return Failure(TranslationFailed);
    }
    var translatedStrings := Split(reply.value);
    if |translatedStrings| != |strings| {
      return Failure(LineMismatch);
    }
    r := SetTranslatedValues(clonedJson, translatedStrings, paths);
  }

  /** A newline inside one of the strings adds a line to the split of their join. */
  lemma SplitTooLong(ss: seq<string>, k: nat)
    requires k < |ss| && '\n' in ss[k]
    ensures |Split(Join(ss))| > |ss|
  {
    JoinNewlines(ss);
    SplitCount(Join(ss));
  }

  /** With nothing to translate the clone comes back, whatever the translator would do. */
  lemma NothingToTranslate(input: Json, targetLang: string, t1: Translator, t2: Translator)
    requires !Rejected(input) && Leaves(Clone(input)) == []
    ensures TranslateJsonSpec(input, targetLang, t1) == TranslateJsonSpec(input, targetLang, t2) == Success(Clone(input))
  {
  }

  /** No collected string contains a newline. */
  predicate SingleLines(ls: seq<Leaf>) {
    forall k :: 0 <= k < |ls| ==> '\n' !in ls[k].0
  }

  /**
   * With a translator that returns its text unchanged, translateJson of a
   * well-formed object succeeds exactly when no collected string contains a
   * newline, and then gives back the clone.
   */
  lemma IdentityTranslator(input: Json, targetLang: string, translate: Translator)
    requires WellFormed(input) && !Rejected(input)
    requires forall t, l :: translate(t, l) == Some(t)
    ensures TranslateJsonSpec(input, targetLang, translate).Success? <==> SingleLines(Leaves(Clone(input)))
    ensures TranslateJsonSpec(input, targetLang, translate).Success? ==>
      TranslateJsonSpec(input, targetLang, translate).value == Clone(input)
  {
    var cloned := Clone(input);
    var leaves := Leaves(cloned);
    CloneWellFormed(input);
    if |leaves| > 0 {
      var texts := Texts(leaves);
      SplitJoin(texts);
      assert translate(Join(texts), targetLang) == Some(Join(texts));
      if SingleLines(leaves) {
        assert Split(Join(texts)) == texts;
        assert !cloned.JStr?;
        WriteBackCollected(cloned);
        assert AllWrites(cloned, texts, Located([], leaves)) == Success(cloned);
        assert TranslateJsonSpec(input, targetLang, translate) == Success(cloned);
      } else {
        var k :| 0 <= k < |leaves| && '\n' in leaves[k].0;
        assert '\n' in texts[k];
        SplitTooLong(texts, k);
        assert TranslateJsonSpec(input, targetLang, translate) == Failure(LineMismatch);
      }
    }
  }

  // =====================================================================
  // What a successful translation gives back

  /** The tree with every string emptied: what a write-back of strings cannot change. */
  function Skeleton(v: Json): Json {
    match v
    case JStr(_) => JStr("")
    case JArr(a) => JArr(seq(|a|, i requires 0 <= i < |a| => Skeleton(a[i])))
    case JObj(e) => JObj(seq(|e|, i requires 0 <= i < |e| => (e[i].0, Skeleton(e[i].1))))
    case _ => v
  }

  lemma FindSameKeys(ps: Entries, qs: Entries, k: string)
    requires |ps| == |qs| && forall i :: 0 <= i < |ps| ==> ps[i].0 == qs[i].0
    ensures Find(ps, k) == Find(qs, k)
  {
    match Find(ps, k)
    case Some(p) => FindIs(qs, k, p);
    case None =>
      if Find(qs, k).Some? {
        FindIs(ps, k, Find(qs, k).value);
      }
  }

  /** Reading a property of a skeleton reads the skeleton of the property. */
  lemma GetSkeleton(v: Json, k: string)
    requires v.JObj? || v.JArr?
    ensures Get(Skeleton(v), k) == if Get(v, k).Some? then Some(Skeleton(Get(v, k).value)) else None
  {
    var ps, qs := Props(v), Props(Skeleton(v));
    assert |qs| == |ps| && forall i :: 0 <= i < |ps| ==> qs[i] == (ps[i].0, Skeleton(ps[i].1));
    FindSameKeys(ps, qs, k);
  }

  /** Trees of one skeleton have the same walkable paths, leading to nodes of one skeleton. */
  lemma {:induction false} SkeletonPath(v: Json, w: Json, p: Path)
    requires Skeleton(v) == Skeleton(w) && Walkable(v, p)
    ensures Walkable(w, p) && GetPath(v, p).Some? && GetPath(w, p).Some?
    ensures Skeleton(GetPath(v, p).value) == Skeleton(GetPath(w, p).value)
    ensures GetPath(v, p).value.JStr? ==> GetPath(w, p).value.JStr?
    decreases |p|
  {
    if p != [] {
      var k := SegKey(p[0]);
      assert w.JObj? || w.JArr?;
      GetSkeleton(v, k);
      GetSkeleton(w, k);
      SkeletonPath(Get(v, k).value, Get(w, k).value, p[1..]);
    }
  }

  /** Replacing a property by a value of the same skeleton keeps the skeleton. */
  lemma SetSkeleton(v: Json, k: string, y: Json)
    requires (v.JObj? || v.JArr?) && Get(v, k).Some? && Skeleton(y) == Skeleton(Get(v, k).value)
    ensures Set(v, k, y).Some? && Skeleton(Set(v, k, y).value) == Skeleton(v)
  {
    match v
    case JObj(e) =>
      var p := Find(e, k).value;
      var e' := e[p := (k, y)];
      assert Set(v, k, y) == Some(JObj(e'));
      assert Skeleton(JObj(e')).entries == Skeleton(v).entries;
    case JArr(a) =>
      var p := Find(Props(v), k).value;
      var a' := a[p := y];
      assert Set(v, k, y) == Some(JArr(a'));
      assert Skeleton(JArr(a')).items == Skeleton(v).items;
  }

  /** Writing a string where a string is keeps the skeleton, and cannot fail. */
  lemma {:induction false} SetPathSkeleton(v: Json, p: Path, x: string)
    requires |p| > 0 && Walkable(v, p) && GetPath(v, p).Some? && GetPath(v, p).value.JStr?
    ensures SetPath(v, p, JStr(x)).Success? && Skeleton(SetPath(v, p, JStr(x)).value) == Skeleton(v)
    decreases |p|
  {
    var k := SegKey(p[0]);
    var c := Get(v, k).value;
    if |p| == 1 {
      assert GetPath(c, p[1..]) == Some(c);
      SetSkeleton(v, k, JStr(x));
    } else {
      SetPathSkeleton(c, p[1..], x);
      SetSkeleton(v, k, SetPath(c, p[1..], JStr(x)).value);
    }
  }

  lemma {:induction false} PartSymmetric(p: Path, q: Path)
    requires Part(p, q)
    ensures Part(q, p)
    decreases |p|
  {
    if SegKey(p[0]) == SegKey(q[0]) {
      PartSymmetric(p[1..], q[1..]);
    }
  }

  /** No two of the paths lead into one another. */
  predicate Parted(paths: seq<Path>) {
    forall k, l :: 0 <= k < l < |paths| ==> Part(paths[k], paths[l])
  }

  /** Every path from `i` on leads, through arrays and objects, to a string. */
  predicate StringPaths(v: Json, paths: seq<Path>, i: nat) {
    forall k :: i <= k < |paths| ==>
      |paths[k]| > 0 && Walkable(v, paths[k]) && GetPath(v, paths[k]).Some? && GetPath(v, paths[k]).value.JStr?
  }

  lemma StringPathsKept(v: Json, w: Json, paths: seq<Path>, i: nat)
    requires Skeleton(v) == Skeleton(w) && StringPaths(v, paths, i)
    ensures StringPaths(w, paths, i)
  {
    forall k | i <= k < |paths|
      ensures |paths[k]| > 0 && Walkable(w, paths[k]) && GetPath(w, paths[k]).Some? && GetPath(w, paths[k]).value.JStr?
    {
      SkeletonPath(v, w, paths[k]);
    }
  }

  lemma PartedLater(paths: seq<Path>, i: nat)
    requires Parted(paths) && i < |paths|
    ensures forall k :: i + 1 <= k < |paths| ==> Part(paths[k], paths[i])
  {
    forall k | i + 1 <= k < |paths|
      ensures Part(paths[k], paths[i])
    {
      PartSymmetric(paths[i], paths[k]);
    }
  }

  lemma {:induction false} SetAllElsewhere(v: Json, texts: seq<string>, paths: seq<Path>, i: nat, q: Path)
    requires |paths| <= |texts| && i <= |paths| && SetAll(v, texts, paths, i).Success?
    requires forall k :: i <= k < |paths| ==> Part(paths[k], q)
    ensures GetPath(SetAll(v, texts, paths, i).value, q) == GetPath(v, q)
    decreases |paths| - i
  {
    if i < |paths| {
      SetAllStep(v, texts, paths, i);
      var w := SetPath(v, paths[i], JStr(texts[i])).value;
      SetPathElsewhere(v, paths[i], JStr(texts[i]), q);
      SetAllElsewhere(w, texts, paths, i + 1, q);
    }
  }

  /** Writing strings at paths that lead to strings succeeds and keeps the skeleton. */
  lemma {:induction false} SetAllShape(v: Json, texts: seq<string>, paths: seq<Path>, i: nat)
    requires |paths| <= |texts| && i <= |paths| && StringPaths(v, paths, i)
    ensures SetAll(v, texts, paths, i).Success?
    ensures Skeleton(SetAll(v, texts, paths, i).value) == Skeleton(v)
    decreases |paths| - i
  {
    if i < |paths| {
      SetPathSkeleton(v, paths[i], texts[i]);
      var w := SetPath(v, paths[i], JStr(texts[i])).value;
      StringPathsKept(v, w, paths, i + 1);
      SetAllShape(w, texts, paths, i + 1);
      SetAllStep(v, texts, paths, i);
    }
  }

  /** The first write of a successful write-back survives the later ones, whose paths part from it. */
  lemma PlacedFirst(v: Json, texts: seq<string>, paths: seq<Path>, i: nat, r: Json)
    requires |paths| <= |texts| && i < |paths| && |paths[i]| > 0
    requires forall l :: i < l < |paths| ==> Part(paths[l], paths[i])
    requires SetAll(v, texts, paths, i) == Success(r)
    ensures GetPath(r, paths[i]) == Some(JStr(texts[i]))
  {
    var p := paths[i];
    SetAllNext(v, texts, paths, i, r);
    var w := SetPath(v, p, JStr(texts[i])).value;
    GetSetPath(v, p, JStr(texts[i]));
    SetAllElsewhere(w, texts, paths, i + 1, p);
  }

  /** A successful write-back from `i` is the first write followed by the rest. */
  lemma SetAllNext(v: Json, texts: seq<string>, paths: seq<Path>, i: nat, r: Json)
    requires |paths| <= |texts| && i < |paths| && SetAll(v, texts, paths, i) == Success(r)
    ensures SetPath(v, paths[i], JStr(texts[i])).Success?
    ensures SetAll(SetPath(v, paths[i], JStr(texts[i])).value, texts, paths, i + 1) == Success(r)
  {
    SetAllStep(v, texts, paths, i);
  }

  /** The writes from `i` up to `k`, without the rest. */
  function SetUpTo(v: Json, texts: seq<string>, paths: seq<Path>, i: nat, k: nat): Result<Json>
    requires |paths| <= |texts| && i <= k <= |paths|
    decreases k - i
  {
    if i == k then Success(v)
    else
      var w :- SetPath(v, paths[i], JStr(texts[i]));
      SetUpTo(w, texts, paths, i + 1, k)
  }

  /** A successful write-back from `i` is the writes up to `k` followed by those from `k`. */
  lemma {:induction false} SetAllSplit(v: Json, texts: seq<string>, paths: seq<Path>, i: nat, k: nat, r: Json)
    requires |paths| <= |texts| && i <= k <= |paths| && SetAll(v, texts, paths, i) == Success(r)
    ensures SetUpTo(v, texts, paths, i, k).Success?
    ensures SetAll(SetUpTo(v, texts, paths, i, k).value, texts, paths, k) == Success(r)
    decreases k - i
  {
    if i < k {
      SetAllNext(v, texts, paths, i, r);
      SetAllSplit(SetPath(v, paths[i], JStr(texts[i])).value, texts, paths, i + 1, k, r);
    }
  }

  /** A later write leaves the `k`-th path leading to the string written along it. */
  lemma PlacedAt(v: Json, texts: seq<string>, paths: seq<Path>, i: nat, r: Json, k: nat)
    requires |paths| <= |texts| && i <= k < |paths| && |paths[k]| > 0
    requires forall l :: k < l < |paths| ==> Part(paths[l], paths[k])
    requires SetAll(v, texts, paths, i) == Success(r)
    ensures GetPath(r, paths[k]) == Some(JStr(texts[k]))
  {
    SetAllSplit(v, texts, paths, i, k, r);
    PlacedFirst(SetUpTo(v, texts, paths, i, k).value, texts, paths, k, r);
  }

  /** When the paths part, a successful write-back leaves each leading to the string written there. */
  lemma SetAllPlaced(v: Json, texts: seq<string>, paths: seq<Path>, r: Json)
    requires |paths| <= |texts| && Parted(paths) && forall k :: 0 <= k < |paths| ==> |paths[k]| > 0
    requires SetAll(v, texts, paths, 0) == Success(r)
    ensures forall k :: 0 <= k < |paths| ==> GetPath(r, paths[k]) == Some(JStr(texts[k]))
  {
    forall k | 0 <= k < |paths|
      ensures GetPath(r, paths[k]) == Some(JStr(texts[k]))
    {
      PartedLater(paths, k);
      PlacedAt(v, texts, paths, 0, r, k);
    }
  }

  // ---------------------------------------------------------------------
  // The collected paths part

  function PathsOf(ls: seq<Leaf>): (r: seq<Path>)
    ensures |r| == |ls| && forall k :: 0 <= k < |ls| ==> r[k] == ls[k].1
  {
    seq(|ls|, k requires 0 <= k < |ls| => ls[k].1)
  }

  lemma LocatedAtRoot(ls: seq<Leaf>)
    ensures Located([], ls) == PathsOf(ls)
  {
    forall k | 0 <= k < |ls|
      ensures Located([], ls)[k] == PathsOf(ls)[k]
    {
      assert [] + ls[k].1 == ls[k].1;
    }
  }

  /** Paths below one segment part when the paths below it part. */
  lemma UnderParted(s: Segment, ls: seq<Leaf>)
    requires Parted(PathsOf(ls))
    ensures Parted(PathsOf(Under(s, ls)))
  {
    forall k, l | 0 <= k < l < |ls|
      ensures Part([s] + ls[k].1, [s] + ls[l].1)
    {
      assert ([s] + ls[k].1)[1..] == ls[k].1;
      assert ([s] + ls[l].1)[1..] == ls[l].1;
    }
  }

  lemma AppendParted(a: seq<Leaf>, b: seq<Leaf>)
    requires Parted(PathsOf(a)) && Parted(PathsOf(b))
    requires forall k, l :: 0 <= k < |a| && 0 <= l < |b| ==> Part(a[k].1, b[l].1)
    ensures Parted(PathsOf(a + b))
  {
    var ps := PathsOf(a + b);
    forall k, l | 0 <= k < l < |ps|
      ensures Part(ps[k], ps[l])
    {
      if l < |a| {
        assert ps[k] == PathsOf(a)[k] && ps[l] == PathsOf(a)[l];
      } else if k >= |a| {
        assert ps[k] == PathsOf(b)[k - |a|] && ps[l] == PathsOf(b)[l - |a|];
      } else {
        assert ps[k] == a[k].1 && ps[l] == b[l - |a|].1;
      }
    }
  }

  /**
   * The leaves of the properties from `i` on have parted paths, each
   * starting with a key that no earlier property has.
   */
  lemma {:induction false} LeavesFromParted(v: Json, i: nat)
    requires WellFormed(v) && !v.JStr? && i <= |Props(v)|
    ensures Parted(PathsOf(LeavesFrom(v, i)))
    ensures forall k :: 0 <= k < |LeavesFrom(v, i)| ==>
      |LeavesFrom(v, i)[k].1| > 0 && forall j :: 0 <= j < i ==> SegKey(LeavesFrom(v, i)[k].1[0]) != Props(v)[j].0
    decreases Size(v), 0, |Props(v)| - i
  {
    if i < |Props(v)| {
      var c := Props(v)[i].1;
      var s := SegmentAt(v, i);
      ChildSmaller(v, i);
      PropsWellFormed(v);
      LeavesParted(c);
      LeavesFromParted(v, i + 1);
      var a, b := Under(s, Leaves(c)), LeavesFrom(v, i + 1);
      assert LeavesFrom(v, i) == a + b;
      UnderParted(s, Leaves(c));
      CrossParted(s, Leaves(c), b);
      AppendParted(a, b);
      forall k | 0 <= k < |a|
        ensures |a[k].1| > 0 && SegKey(a[k].1[0]) == Props(v)[i].0
      {
        assert a[k].1[0] == s;
      }
      FirstKeys(v, i, a, b);
    }
  }

  /** Paths below one segment part from paths that start with another property name. */
  lemma CrossParted(s: Segment, c: seq<Leaf>, b: seq<Leaf>)
    requires forall l :: 0 <= l < |b| ==> |b[l].1| > 0 && SegKey(b[l].1[0]) != SegKey(s)
    ensures forall k, l :: 0 <= k < |c| && 0 <= l < |b| ==> Part(Under(s, c)[k].1, b[l].1)
  {
    forall k, l | 0 <= k < |c| && 0 <= l < |b|
      ensures Part(Under(s, c)[k].1, b[l].1)
    {
      assert Under(s, c)[k].1[0] == s;
    }
  }

  lemma FirstKeys(v: Json, i: nat, a: seq<Leaf>, b: seq<Leaf>)
    requires DistinctKeys(Props(v)) && i < |Props(v)|
    requires forall k :: 0 <= k < |a| ==> |a[k].1| > 0 && SegKey(a[k].1[0]) == Props(v)[i].0
    requires forall k :: 0 <= k < |b| ==>
      |b[k].1| > 0 && forall j :: 0 <= j < i + 1 ==> SegKey(b[k].1[0]) != Props(v)[j].0
    ensures forall k :: 0 <= k < |a + b| ==>
      |(a + b)[k].1| > 0 && forall j :: 0 <= j < i ==> SegKey((a + b)[k].1[0]) != Props(v)[j].0
  {
    forall k | 0 <= k < |a + b|
      ensures |(a + b)[k].1| > 0 && forall j :: 0 <= j < i ==> SegKey((a + b)[k].1[0]) != Props(v)[j].0
    {
      if k >= |a| {
        assert (a + b)[k] == b[k - |a|];
      }
    }
  }

  /** Distinct collected strings sit at paths that part. */
  lemma {:induction false} LeavesParted(v: Json)
    requires WellFormed(v)
    ensures Parted(PathsOf(Leaves(v)))
    decreases Size(v), 1
  {
    if !v.JStr? && IsObjectTyped(v) && !v.JNull? {
      LeavesFromParted(v, 0);
    }
  }

  /**
   * On a well-formed object translateJson fails only when the translator
   * fails or the reply has the wrong number of lines; on success the result
   * has the skeleton of the clone, and every collected path leads to its
   * line of the reply.
   */
  lemma TranslationResult(input: Json, targetLang: string, translate: Translator)
    requires WellFormed(input) && !Rejected(input)
    ensures var r := TranslateJsonSpec(input, targetLang, translate);
      r.Success? || r.error == TranslationFailed || r.error == LineMismatch
    ensures var r := TranslateJsonSpec(input, targetLang, translate);
      r.Success? ==> Skeleton(r.value) == Skeleton(Clone(input))
    ensures var r := TranslateJsonSpec(input, targetLang, translate);
      var leaves := Leaves(Clone(input));
      r.Success? && |leaves| > 0 ==>
        var lines := Split(translate(Join(Texts(leaves)), targetLang).value);
        forall k :: 0 <= k < |leaves| ==> GetPath(r.value, leaves[k].1) == Some(JStr(lines[k]))
  {
    var cloned := Clone(input);
    var leaves := Leaves(cloned);
    CloneWellFormed(input);
    if |leaves| > 0 {
      var reply := translate(Join(Texts(leaves)), targetLang);
      if reply.Some? && |Split(reply.value)| == |leaves| {
        var lines := Split(reply.value);
        var paths := Located([], leaves);
        LocatedAtRoot(leaves);
        LeavesAddressed(cloned);
        LeafPathsNonEmpty(cloned);
        LeavesParted(cloned);
        assert StringPaths(cloned, paths, 0);
        SetAllShape(cloned, lines, paths, 0);
        SetAllPlaced(cloned, lines, paths, SetAll(cloned, lines, paths, 0).value);
      }
    }
  }

  // =====================================================================
  // getTranslatedValue

  /**
   * `field[lang] || field['nl']`: the requested language, falling back to
   * Dutch. Reading a property of null throws; every other value can be read.
   */
  function GetTranslatedValue(field: Json, lang: string): (r: Result<Option<Json>>)
    ensures r.Failure? <==> field.JNull?
    ensures r.Failure? ==> r.error == TypeError
    ensures r.Success? && TruthyOpt(Get(field, lang)) ==> r.value == Get(field, lang)
    ensures r.Success? && !TruthyOpt(Get(field, lang)) ==> r.value == Get(field, "nl")
    ensures r.Success? ==> (TruthyOpt(r.value) <==> TruthyOpt(Get(field, lang)) || TruthyOpt(Get(field, "nl")))
  {
    if field.JNull? then Failure(TypeError)
    else if TruthyOpt(Get(field, lang)) then Success(Get(field, lang))
    else Success(Get(field, "nl"))
  }
}
