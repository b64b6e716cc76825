/** `ProtSubSet`: the elements of a full set that are also referenced (by
    id) in a second set, or a given sample of the full set's positions. */
module SubSets {
  import opened Wrappers
  import opened SeqUtil
  import opened SetItems

  /** `inputFullSet[objId]`: the element with that id, or `None`. */
  function FindById<V>(items: seq<Obj<V>>, id: int): (r: Option<Obj<V>>)
    ensures r.Some? <==> id in Ids(items)
    ensures r.Some? ==> r.value in items && r.value.objId == id
  {
    if items == [] then None
    else if items[0].objId == id then Some(items[0])
    else FindById(items[1..], id)
  }

  /** In a set whose ids are distinct, looking up an element's id finds that
      very element. */
  lemma {:induction false} FindByIdOfMember<V>(items: seq<Obj<V>>, x: Obj<V>)
    requires NoDuplicates(Ids(items))
    requires x in items
    ensures FindById(items, x.objId) == Some(x)
  {
    if items[0] != x {
      assert items[0].objId != x.objId by {
        var j :| 0 <= j < |items| && items[j] == x;
        assert Ids(items)[0] == items[0].objId && Ids(items)[j] == x.objId;
      }
      assert Ids(items[1..]) == Ids(items)[1..];
      FindByIdOfMember(items[1..], x);
    }
  }

  /** The non-random output: for each element of the subset, in order, the
      full-set element with its id, skipping ids the full set lacks. */
  function Intersect<V>(full: seq<Obj<V>>, sub: seq<Obj<V>>): seq<Obj<V>>
  {
    if sub == [] then []
    else
      var rest := Intersect(full, sub[..|sub| - 1]);
      match FindById(full, sub[|sub| - 1].objId)
      case Some(orig) => rest + [orig]
      case None => rest
  }

  /** `createOutputStep` without `chooseAtRandom`. */
  method SubsetCreateOutput<V>(fullSet: EMSet<V>, subSet: EMSet<V>) returns (outputSet: EMSet<V>)
    ensures outputSet == EMSet(fullSet.className, Intersect(fullSet.items, subSet.items))
  {
    var items: seq<Obj<V>> := [];
    var k := 0;
    while k < |subSet.items|
      invariant 0 <= k <= |subSet.items|
      invariant items == Intersect(fullSet.items, subSet.items[..k])
    {
      assert subSet.items[..k + 1][..k] == subSet.items[..k];
      var origElem := FindById(fullSet.items, subSet.items[k].objId);
      if origElem.Some? {
        items := items + [origElem.value];
      }
      k := k + 1;
    }
    assert subSet.items[..k] == subSet.items;
    outputSet := EMSet(fullSet.className, items);
  }

  /** Every output element comes from the full set, its id is in the
      subset, and there are never more of them than subset elements. */
  lemma {:induction false} IntersectSound<V>(full: seq<Obj<V>>, sub: seq<Obj<V>>)
    ensures |Intersect(full, sub)| <= |sub|
    ensures forall x :: x in Intersect(full, sub) ==> x in full && x.objId in Ids(sub)
  {
    if sub != [] {
      var init := sub[..|sub| - 1];
      IntersectSound(full, init);
      assert Ids(sub) == Ids(init) + [sub[|sub| - 1].objId];
    }
  }

  /** When the full set's ids are distinct, each of its elements is in the
      output exactly when its id occurs in the subset. */
  lemma {:induction false} IntersectComplete<V>(full: seq<Obj<V>>, sub: seq<Obj<V>>, x: Obj<V>)
    requires NoDuplicates(Ids(full))
    requires x in full && x.objId in Ids(sub)
    ensures x in Intersect(full, sub)
  {
    var init := sub[..|sub| - 1];
    assert Ids(sub) == Ids(init) + [sub[|sub| - 1].objId];
    if x.objId == sub[|sub| - 1].objId {
      FindByIdOfMember(full, x);
    } else {
      IntersectComplete(full, init, x);
    }
  }

  /** A subset drawn from the full set gets all its elements back, in subset
      order, as the full set stores them. */
  lemma {:induction false} IntersectOfSubsetIds<V>(full: seq<Obj<V>>, sub: seq<Obj<V>>)
    requires forall k :: 0 <= k < |sub| ==> sub[k].objId in Ids(full)
    ensures |Intersect(full, sub)| == |sub|
    ensures Ids(Intersect(full, sub)) == Ids(sub)
  {
    if sub != [] {
      var init := sub[..|sub| - 1];
      IntersectOfSubsetIds(full, init);
      assert Ids(sub) == Ids(init) + [sub[|sub| - 1].objId];
      var rest := Intersect(full, init);
      var orig := FindById(full, sub[|sub| - 1].objId).value;
      assert Ids(rest + [orig]) == Ids(rest) + [orig.objId];
    }
  }

  // ---------------------------------------------------------------------
  // The random path, with the sample given

  /** The elements at the chosen positions, in full-set order. */
  function Pick<V>(items: seq<Obj<V>>, chosen: set<int>): seq<Obj<V>>
  {
    if items == [] then []
    else Pick(items[..|items| - 1], chosen) + (if |items| - 1 in chosen then [items[|items| - 1]] else [])
  }

  /** The chosen positions below `k`. */
  function ChosenBelow(chosen: set<int>, k: int): set<int>
  {
    set i | i in chosen && i < k
  }

  lemma {:induction false} PickSize<V>(items: seq<Obj<V>>, chosen: set<int>)
    requires forall i :: i in chosen ==> 0 <= i
    ensures |Pick(items, chosen)| == |ChosenBelow(chosen, |items|)|
  {
    if items != [] {
      var k := |items| - 1;
      PickSize(items[..k], chosen);
      if k in chosen {
        assert ChosenBelow(chosen, k + 1) == ChosenBelow(chosen, k) + {k};
      } else {
        assert ChosenBelow(chosen, k + 1) == ChosenBelow(chosen, k);
      }
    } else {
      assert ChosenBelow(chosen, 0) == {};
    }
  }

  /** A valid sample of `n` positions yields exactly `n` elements, each from
      the full set. */
  lemma PickSample<V>(items: seq<Obj<V>>, chosen: set<int>)
    requires forall i :: i in chosen ==> 0 <= i < |items|
    ensures |Pick(items, chosen)| == |chosen|
  {
    PickSize(items, chosen);
    assert ChosenBelow(chosen, |items|) == chosen;
  }

  /** `random.sample` refuses a sample size outside `0..population`. */
  datatype SubsetError = SampleOutOfRange

  predicate SampleInRange(nElements: int, size: nat)
  {
    0 <= nElements <= size
  }

  /** `createOutputStep` with `chooseAtRandom`: `chosen` stands for what
      `random.sample(range(len), nElements)` returned, whenever it returns. */
  method SubsetRandomCreateOutput<V>(fullSet: EMSet<V>, nElements: int, chosen: set<int>)
    returns (r: Result<EMSet<V>, SubsetError>)
    requires SampleInRange(nElements, |fullSet.items|) ==>
               |chosen| == nElements && forall i :: i in chosen ==> 0 <= i < |fullSet.items|
    ensures r.Ok? <==> SampleInRange(nElements, |fullSet.items|)
    ensures r.Ok? ==> r.value.className == fullSet.className && |r.value.items| == nElements
    ensures r.Ok? ==> r.value.items == Pick(fullSet.items, chosen)
  {
    if !SampleInRange(nElements, |fullSet.items|) {
      return Err(SampleOutOfRange);
    }
    var items: seq<Obj<V>> := [];
    var i := 0;
    while i < |fullSet.items|
      invariant 0 <= i <= |fullSet.items|
      invariant items == Pick(fullSet.items[..i], chosen)
    {
      assert fullSet.items[..i + 1][..i] == fullSet.items[..i];
      if i in chosen {
        items := items + [fullSet.items[i]];
      }
      i := i + 1;
    }
    assert fullSet.items[..i] == fullSet.items;
    PickSample(fullSet.items, chosen);
    r := Ok(EMSet(fullSet.className, items));
  }

  // ---------------------------------------------------------------------
  // Validation

  /** What `_validate` compares: a sample size, or the subset's class. */
  datatype SubsetMode = RandomSample(nElements: int) | BySubset(subClassName: string)

  /** The incompatibility table: each class with the classes it cannot be
      intersected with. */
  function IncompatibleTable(): seq<(string, set<string>)>
  {
    [("SetOfParticles", {"SetOfMicrographs", "SetOfMovies", "SetOfVolumes"}),
     ("SetOfCoordinates", {"SetOfMicrographs", "SetOfMovies", "SetOfVolumes"}),
     ("SetOfVolumes", {"SetOfMicrographs", "SetOfMovies", "SetOfParticles", "SetOfCoordinates"})]
  }

  /** The table loop: some entry matches the pair in either direction. */
  function AnyIncompatible(table: seq<(string, set<string>)>, c1: string, c2: string): bool
  {
    if table == [] then false
    else MatchesEntry(table[0], c1, c2) || AnyIncompatible(table[1..], c1, c2)
  }

  /** One table entry rejects the pair, in either order. */
  predicate MatchesEntry(entry: (string, set<string>), c1: string, c2: string)
  {
    var (classA, incompatible) := entry;
    (c1 == classA && c2 in incompatible) || (c2 == classA && c1 in incompatible)
  }

  function ValidateSubset(fullClassName: string, fullSize: nat, mode: SubsetMode): (errors: seq<string>)
  {
    match mode
    case RandomSample(n) =>
      if n <= fullSize then []
      else ["Number of elements to choose cannot be bigger than", "the number of elements in the set."]
    case BySubset(c2) =>
      if fullClassName == c2 then []
      else if AnyIncompatible(IncompatibleTable(), fullClassName, c2) then
        ["The full set and the subset are of incompatible classes", fullClassName + " and " + c2 + "."]
      else []
  }

  /** The rejected pairs, as unordered pairs of classes. */
  function RejectedPairs(): set<set<string>>
  {
    {{"SetOfParticles", "SetOfMicrographs"}, {"SetOfParticles", "SetOfMovies"},
     {"SetOfParticles", "SetOfVolumes"},
     {"SetOfCoordinates", "SetOfMicrographs"}, {"SetOfCoordinates", "SetOfMovies"},
     {"SetOfCoordinates", "SetOfVolumes"},
     {"SetOfVolumes", "SetOfMicrographs"}, {"SetOfVolumes", "SetOfMovies"}}
  }

  /** The table rejects exactly the listed unordered pairs of distinct
      classes. */
  lemma AnyIncompatibleIsRejectedPair(c1: string, c2: string)
    ensures AnyIncompatible(IncompatibleTable(), c1, c2) <==> c1 != c2 && {c1, c2} in RejectedPairs()
  {
    var t := IncompatibleTable();
    assert t[1..][1..][1..] == [];
    var p := {c1, c2};
    if AnyIncompatible(t, c1, c2) {
      IncompatibleIsRejectedPair(c1, c2);
    }
    if p in RejectedPairs() {
      if p == {"SetOfParticles", "SetOfMicrographs"} {
        SameUnorderedPair(c1, c2, "SetOfParticles", "SetOfMicrographs");
      } else if p == {"SetOfParticles", "SetOfMovies"} {
        SameUnorderedPair(c1, c2, "SetOfParticles", "SetOfMovies");
      } else if p == {"SetOfParticles", "SetOfVolumes"} {
        SameUnorderedPair(c1, c2, "SetOfParticles", "SetOfVolumes");
      } else if p == {"SetOfCoordinates", "SetOfMicrographs"} {
        SameUnorderedPair(c1, c2, "SetOfCoordinates", "SetOfMicrographs");
      } else if p == {"SetOfCoordinates", "SetOfMovies"} {
        SameUnorderedPair(c1, c2, "SetOfCoordinates", "SetOfMovies");
      } else if p == {"SetOfCoordinates", "SetOfVolumes"} {
        SameUnorderedPair(c1, c2, "SetOfCoordinates", "SetOfVolumes");
      } else if p == {"SetOfVolumes", "SetOfMicrographs"} {
        SameUnorderedPair(c1, c2, "SetOfVolumes", "SetOfMicrographs");
      } else {
        SameUnorderedPair(c1, c2, "SetOfVolumes", "SetOfMovies");
      }
    }
  }

  /** A pair the table rejects is a listed unordered pair of two distinct
      classes. */
  lemma IncompatibleIsRejectedPair(c1: string, c2: string)
    requires AnyIncompatible(IncompatibleTable(), c1, c2)
    ensures c1 != c2 && {c1, c2} in RejectedPairs()
  {
    var t := IncompatibleTable();
    assert t[1..][1..][1..] == [];
    assert MatchesEntry(t[0], c1, c2) || MatchesEntry(t[1], c1, c2) || MatchesEntry(t[2], c1, c2) by {
      assert t[1..][0] == t[1] && t[1..][1..][0] == t[2];
      assert AnyIncompatible(t[1..][1..], c1, c2) == MatchesEntry(t[2], c1, c2);
      assert AnyIncompatible(t[1..], c1, c2) == (MatchesEntry(t[1], c1, c2) || MatchesEntry(t[2], c1, c2));
    }
    if c1 == "SetOfParticles" && c2 == "SetOfMicrographs" {
      assert {c1, c2} == {"SetOfParticles", "SetOfMicrographs"};
    } else if c1 == "SetOfMicrographs" && c2 == "SetOfParticles" {
      assert {c1, c2} == {"SetOfParticles", "SetOfMicrographs"};
    } else if c1 == "SetOfParticles" && c2 == "SetOfMovies" {
      assert {c1, c2} == {"SetOfParticles", "SetOfMovies"};
    } else if c1 == "SetOfMovies" && c2 == "SetOfParticles" {
      assert {c1, c2} == {"SetOfParticles", "SetOfMovies"};
    } else if c1 == "SetOfParticles" && c2 == "SetOfVolumes" {
      assert {c1, c2} == {"SetOfParticles", "SetOfVolumes"};
    } else if c1 == "SetOfVolumes" && c2 == "SetOfParticles" {
      assert {c1, c2} == {"SetOfParticles", "SetOfVolumes"};
    } else if c1 == "SetOfCoordinates" && c2 == "SetOfMicrographs" {
      assert {c1, c2} == {"SetOfCoordinates", "SetOfMicrographs"};
    } else if c1 == "SetOfMicrographs" && c2 == "SetOfCoordinates" {
      assert {c1, c2} == {"SetOfCoordinates", "SetOfMicrographs"};
    } else if c1 == "SetOfCoordinates" && c2 == "SetOfMovies" {
      assert {c1, c2} == {"SetOfCoordinates", "SetOfMovies"};
    } else if c1 == "SetOfMovies" && c2 == "SetOfCoordinates" {
      assert {c1, c2} == {"SetOfCoordinates", "SetOfMovies"};
    } else if c1 == "SetOfCoordinates" && c2 == "SetOfVolumes" {
      assert {c1, c2} == {"SetOfCoordinates", "SetOfVolumes"};
    } else if c1 == "SetOfVolumes" && c2 == "SetOfCoordinates" {
      assert {c1, c2} == {"SetOfCoordinates", "SetOfVolumes"};
    } else if c1 == "SetOfVolumes" && c2 == "SetOfMicrographs" {
      assert {c1, c2} == {"SetOfVolumes", "SetOfMicrographs"};
    } else if c1 == "SetOfMicrographs" && c2 == "SetOfVolumes" {
      assert {c1, c2} == {"SetOfVolumes", "SetOfMicrographs"};
    } else if c1 == "SetOfVolumes" && c2 == "SetOfMovies" {
      assert {c1, c2} == {"SetOfVolumes", "SetOfMovies"};
    } else {
      assert c1 == "SetOfMovies" && c2 == "SetOfVolumes";
      assert {c1, c2} == {"SetOfVolumes", "SetOfMovies"};
    }
  }

  lemma SameUnorderedPair(c1: string, c2: string, a: string, b: string)
    requires {c1, c2} == {a, b}
    ensures (c1 == a && c2 == b) || (c1 == b && c2 == a)
  {
    assert c1 in {a, b} && c2 in {a, b} && a in {c1, c2} && b in {c1, c2};
  }

  /** Random mode checks only the sample size. */
  lemma ValidateSubsetRandom(fullClassName: string, fullSize: nat, n: int)
    ensures ValidateSubset(fullClassName, fullSize, RandomSample(n)) == [] <==> n <= fullSize
  {
  }

  /** With two sets: equal classes pass, and otherwise a pair is rejected
      exactly when it is one of the listed pairs, in whichever order the
      two sets are given. */
  lemma ValidateSubsetClasses(c1: string, fullSize: nat, c2: string)
    ensures ValidateSubset(c1, fullSize, BySubset(c2)) != [] <==> c1 != c2 && {c1, c2} in RejectedPairs()
    ensures (ValidateSubset(c1, fullSize, BySubset(c2)) == []) == (ValidateSubset(c2, fullSize, BySubset(c1)) == [])
  {
    AnyIncompatibleIsRejectedPair(c1, c2);
    AnyIncompatibleIsRejectedPair(c2, c1);
    assert {c1, c2} == {c2, c1};
  }

  /** As written, random-mode validation lets a negative sample size
      through, which the sampling then refuses. */
  lemma ValidateSubsetAdmitsNegativeSample()
    ensures ValidateSubset("SetOfParticles", 3, RandomSample(-1)) == []
    ensures !SampleInRange(-1, 3)
  {
  }

  /** Validation as evidently intended: the sample size must lie in
      `0..|full set|`; the two-set checks are unchanged. */
  function ValidateSubsetCorrected(fullClassName: string, fullSize: nat, mode: SubsetMode): (errors: seq<string>)
    ensures mode.RandomSample? ==> (errors == [] <==> SampleInRange(mode.nElements, fullSize))
    ensures mode.BySubset? ==> errors == ValidateSubset(fullClassName, fullSize, mode)
  {
    match mode
    case RandomSample(n) =>
      if n < 0 then ["Number of elements to choose cannot be negative."]
      else ValidateSubset(fullClassName, fullSize, mode)
    case BySubset(_) => ValidateSubset(fullClassName, fullSize, mode)
  }
}
