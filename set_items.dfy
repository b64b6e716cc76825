/** Sets of EM objects as the set protocols see them: a class name and the
    objects in iteration order (ascending id), each with its id and its
    attributes. */
module SetItems {
  import opened Wrappers

  /** An object read from an input set; it always has an id. */
  datatype Obj<V> = Obj(objId: int, attrs: map<string, V>)

  /** An object as appended to an output set: `None` is a cleared id, which
      the output set assigns itself on insertion. */
  datatype Appended<V> = Appended(objId: Option<int>, attrs: map<string, V>)

  /** A set (`SetOfParticles`, `SetOfMicrographs`, ...). */
  datatype EMSet<V> = EMSet(className: string, items: seq<Obj<V>>)

  /** An output set whose objects may have cleared ids. */
  datatype AppendedSet<V> = AppendedSet(className: string, items: seq<Appended<V>>)

  function Ids<V>(objs: seq<Obj<V>>): (ids: seq<int>)
    ensures |ids| == |objs|
    ensures forall k :: 0 <= k < |objs| ==> ids[k] == objs[k].objId
  {
    seq(|objs|, k requires 0 <= k < |objs| => objs[k].objId)
  }

  /** The objects of all sets, set after set, each in its own order. */
  function Flatten<V>(sets: seq<EMSet<V>>): seq<Obj<V>>
  {
    if sets == [] then [] else Flatten(sets[..|sets| - 1]) + sets[|sets| - 1].items
  }

  function TotalSize<V>(sets: seq<EMSet<V>>): nat
  {
    if sets == [] then 0 else TotalSize(sets[..|sets| - 1]) + |sets[|sets| - 1].items|
  }

  /** The union of the sets holds as many objects as they hold together. */
  lemma {:induction false} FlattenSize<V>(sets: seq<EMSet<V>>)
    ensures |Flatten(sets)| == TotalSize(sets)
    decreases |sets|
  {
    if sets != [] {
      FlattenSize(sets[..|sets| - 1]);
    }
  }

  /** Python's `s.replace(pattern, "")`: every non-overlapping occurrence,
      scanned left to right, removed. */
  function RemoveAll(s: string, pattern: string): (r: string)
    requires pattern != []
    ensures |r| <= |s|
    decreases |s|
  {
    if |s| < |pattern| then s
    else if s[..|pattern|] == pattern then RemoveAll(s[|pattern|..], pattern)
    else [s[0]] + RemoveAll(s[1..], pattern)
  }

  /** `pattern` starts at position `k` of `s`. */
  predicate OccursAt(pattern: string, s: string, k: int)
  {
    0 <= k <= |s| - |pattern| && s[k..k + |pattern|] == pattern
  }

  predicate Occurs(pattern: string, s: string)
  {
    exists k :: 0 <= k <= |s| && OccursAt(pattern, s, k)
  }

  /** Removing a pattern that does not occur leaves the string as it is. */
  lemma {:induction false} RemoveAbsent(s: string, pattern: string)
    requires pattern != []
    requires !Occurs(pattern, s)
    ensures RemoveAll(s, pattern) == s
    decreases |s|
  {
    if |s| >= |pattern| {
      assert !OccursAt(pattern, s, 0);
      forall k | 0 <= k <= |s[1..]| - |pattern| ensures !OccursAt(pattern, s[1..], k) {
        assert !OccursAt(pattern, s, k + 1);
        assert s[1..][k..k + |pattern|] == s[k + 1..k + 1 + |pattern|];
      }
      RemoveAbsent(s[1..], pattern);
    }
  }

  /** `'output' + className.replace('SetOf', '')`. */
  function OutputKey(className: string): (key: string)
    ensures |key| >= 6 && key[..6] == "output"
  {
    "output" + RemoveAll(className, "SetOf")
  }

  /** The key of a `SetOf<Name>` class is `output<Name>` when `<Name>`
      itself does not contain `SetOf`. */
  lemma OutputKeyOfSetClass(name: string)
    requires !Occurs("SetOf", name)
    ensures OutputKey("SetOf" + name) == "output" + name
  {
    var s := "SetOf" + name;
    assert s[..5] == "SetOf" && s[5..] == name;
    RemoveAbsent(name, "SetOf");
  }
}
