/** `ProtUnionSet` and `ProtUnionMicCtf`: join several sets into one,
    keeping the original ids until the first repeated id and clearing every
    id from there on, or renumbering from above the largest id. */
module UnionSets {
  import opened Wrappers
  import opened SeqUtil
  import opened SetItems

  /** `NoInputSets`: `self.inputSets[0]` on an empty list raises;
      `EmptyMaxArgument`: `max` over no objects raises. */
  datatype UnionError = NoInputSets | EmptyMaxArgument

  /** Python's `max` over a non-empty sequence of ids. */
  function MaxId(ids: seq<int>): (m: int)
    requires ids != []
    ensures m in ids
    ensures forall x :: x in ids ==> x <= m
  {
    if |ids| == 1 then ids[0]
    else
      var m := MaxId(ids[1..]);
      assert ids == [ids[0]] + ids[1..];
      if ids[0] > m then ids[0] else m
  }

  /** The id the union gives its `j`-th object. Renumbering (`firstObjId`
      present): the first object gets `firstObjId`, every later one a
      cleared id. Otherwise an object keeps its id while no id has repeated
      up to and including it, and gets a cleared id from the first repeat on. */
  function UnionId(ids: seq<int>, firstObjId: Option<int>, j: nat): Option<int>
    requires j < |ids|
  {
    if firstObjId.Some? then (if j == 0 then firstObjId else None)
    else if NoDuplicates(ids[..j + 1]) then Some(ids[j])
    else None
  }

  /** The objects appended by the union, in input order. */
  function UnionOutput<V>(objs: seq<Obj<V>>, firstObjId: Option<int>): (r: seq<Appended<V>>)
    ensures |r| == |objs|
  {
    seq(|objs|, j requires 0 <= j < |objs| => Appended(UnionId(Ids(objs), firstObjId, j), objs[j].attrs))
  }

  /** The id to renumber from: one above the largest id of all input objects. */
  function FirstObjId<V>(inputSets: seq<EMSet<V>>, renumber: bool): Option<int>
  {
    if renumber && Flatten(inputSets) != [] then Some(MaxId(Ids(Flatten(inputSets))) + 1) else None
  }

  lemma UnionOutputStep<V>(objs: seq<Obj<V>>, o: Obj<V>, firstObjId: Option<int>)
    ensures UnionOutput(objs + [o], firstObjId)
            == UnionOutput(objs, firstObjId) + [Appended(UnionId(Ids(objs + [o]), firstObjId, |objs|), o.attrs)]
  {
    var ids := Ids(objs + [o]);
    forall j | 0 <= j < |objs| ensures UnionId(ids, firstObjId, j) == UnionId(Ids(objs), firstObjId, j) {
      assert ids[..j + 1] == Ids(objs)[..j + 1];
    }
  }

  /** What the loop variables of the union say about the objects seen so far. */
  ghost predicate UnionLoopState<V>(seen: seq<Obj<V>>, first: Option<int>, firstObjId: Option<int>,
                                    cleanIds: bool, usedIds: set<int>, out: seq<Appended<V>>)
  {
    && out == UnionOutput(seen, first)
    && (first.Some? ==> cleanIds && (firstObjId.Some? <==> seen == []) && (firstObjId.Some? ==> firstObjId == first))
    && (first.None? ==> firstObjId.None? && (cleanIds <==> !NoDuplicates(Ids(seen))))
    && (first.None? && !cleanIds ==> usedIds == set x | x in Ids(seen))
  }

  /** One iteration of the inner loop body keeps the loop state. */
  lemma UnionLoopStep<V>(seen: seq<Obj<V>>, obj: Obj<V>, first: Option<int>, firstObjId: Option<int>,
                         cleanIds: bool, usedIds: set<int>, out: seq<Appended<V>>)
    requires UnionLoopState(seen, first, firstObjId, cleanIds, usedIds, out)
    ensures var newId := if firstObjId.Some? then firstObjId
                         else if cleanIds || obj.objId in usedIds then None
                         else Some(obj.objId);
            var firstObjId' := None;
            var cleanIds' := cleanIds || (firstObjId.None? && obj.objId in usedIds);
            var usedIds' := if firstObjId.None? && !cleanIds && obj.objId !in usedIds
                            then usedIds + {obj.objId} else usedIds;
            UnionLoopState(seen + [obj], first, firstObjId', cleanIds', usedIds', out + [Appended(newId, obj.attrs)])
  {
    UnionOutputStep(seen, obj, first);
    var ids := Ids(seen + [obj]);
    assert ids[..|seen|] == Ids(seen);
    assert ids[..|seen| + 1] == ids;
    if first.None? && !cleanIds {
      if obj.objId in usedIds {
        var k :| 0 <= k < |seen| && Ids(seen)[k] == obj.objId;
        assert ids[k] == ids[|seen|];
      }
      assert (set x | x in ids) == (set x | x in Ids(seen)) + {obj.objId};
    }
  }

  /** `ProtUnionSet.createOutputStep`: the output set of the class of the
      first input set, holding every input object in input order, with the
      ids given by `UnionId`. */
  method UnionCreateOutput<V>(inputSets: seq<EMSet<V>>, renumber: bool) returns (r: Result<AppendedSet<V>, UnionError>)
    ensures inputSets == [] ==> r == Err(NoInputSets)
    ensures inputSets != [] && renumber && Flatten(inputSets) == [] ==> r == Err(EmptyMaxArgument)
    ensures inputSets != [] && !(renumber && Flatten(inputSets) == []) ==>
              r == Ok(AppendedSet(inputSets[0].className,
                                  UnionOutput(Flatten(inputSets), FirstObjId(inputSets, renumber))))
  {
    if inputSets == [] {
      return Err(NoInputSets);
    }
    var set1 := inputSets[0];
    var usedIds: set<int> := {};
    var cleanIds := false;
    var firstObjId: Option<int> := None;
    if renumber {
      var allIds := Ids(Flatten(inputSets));
      if allIds == [] {
        return Err(EmptyMaxArgument);
      }
      firstObjId := Some(MaxId(allIds) + 1);
      cleanIds := true;
    }
    ghost var first := firstObjId;
    assert first == FirstObjId(inputSets, renumber);
    var out: seq<Appended<V>> := [];
    ghost var seen: seq<Obj<V>> := [];
    var s := 0;
    while s < |inputSets|
      invariant 0 <= s <= |inputSets|
      invariant seen == Flatten(inputSets[..s])
      invariant UnionLoopState(seen, first, firstObjId, cleanIds, usedIds, out)
    {
      var items := inputSets[s].items;
      var k := 0;
      while k < |items|
        invariant 0 <= k <= |items|
        invariant seen == Flatten(inputSets[..s]) + items[..k]
        invariant UnionLoopState(seen, first, firstObjId, cleanIds, usedIds, out)
      {
        var obj := items[k];
        var objId := obj.objId;
        var newId := Some(objId);
        UnionLoopStep(seen, obj, first, firstObjId, cleanIds, usedIds, out);
        if firstObjId.Some? {
          newId := firstObjId;
          firstObjId := None;
        } else if cleanIds {
          newId := None;
        } else if objId in usedIds {
          newId := None;
          cleanIds := true;
        } else {
          usedIds := usedIds + {objId};
        }
        out := out + [Appended(newId, obj.attrs)];
        seen := seen + [obj];
        assert items[..k + 1] == items[..k] + [obj];
        k := k + 1;
      }
      assert items[..k] == items;
      assert inputSets[..s + 1][..s] == inputSets[..s];
      s := s + 1;
    }
    assert inputSets[..s] == inputSets;
    r := Ok(AppendedSet(set1.className, out));
  }

  // ---------------------------------------------------------------------
  // Properties of the union

  /** The union holds every input object, set after set, with its attributes. */
  lemma UnionSizeAndOrder<V>(inputSets: seq<EMSet<V>>, firstObjId: Option<int>)
    ensures var r := UnionOutput(Flatten(inputSets), firstObjId);
            && |r| == TotalSize(inputSets)
            && forall j :: 0 <= j < |r| ==> r[j].attrs == Flatten(inputSets)[j].attrs
  {
    FlattenSize(inputSets);
  }

  /** Without renumbering: a kept id is the object's own id, kept ids never
      repeat, once an id is cleared every later one is cleared too, and
      inputs without repeated ids keep all their ids. */
  lemma UnionKeepsIdsUntilFirstRepeat<V>(objs: seq<Obj<V>>)
    ensures var r := UnionOutput(objs, None);
            && (forall j :: 0 <= j < |r| && r[j].objId.Some? ==> r[j].objId == Some(objs[j].objId))
            && (forall j, k :: 0 <= j < k < |r| && r[j].objId.Some? && r[k].objId.Some? ==> r[j].objId != r[k].objId)
            && (forall j, k :: 0 <= j < k < |r| && r[j].objId.None? ==> r[k].objId.None?)
            && (NoDuplicates(Ids(objs)) ==> forall j :: 0 <= j < |r| ==> r[j].objId == Some(objs[j].objId))
  {
    var ids := Ids(objs);
    var r := UnionOutput(objs, None);
    forall j, k | 0 <= j < k < |r| && r[k].objId.Some?
      ensures r[j].objId == Some(ids[j]) && ids[j] != ids[k]
    {
      assert ids[..k + 1][j] == ids[j] && ids[..k + 1][k] == ids[k];
      PrefixNoDuplicates(ids, j + 1, k + 1);
    }
    if NoDuplicates(ids) {
      assert ids[..|ids|] == ids;
      forall j | 0 <= j < |r| ensures r[j].objId == Some(ids[j]) {
        PrefixNoDuplicates(ids, j + 1, |ids|);
      }
    }
  }

  /** With renumbering: the first object gets an id above every input id and
      every other object a cleared id. */
  lemma RenumberedIds<V>(inputSets: seq<EMSet<V>>)
    requires Flatten(inputSets) != []
    ensures var r := UnionOutput(Flatten(inputSets), FirstObjId(inputSets, true));
            && r[0].objId.Some?
            && (forall o :: o in Flatten(inputSets) ==> o.objId < r[0].objId.value)
            && (forall j :: 1 <= j < |r| ==> r[j].objId.None?)
  {
    var objs := Flatten(inputSets);
    forall o | o in objs ensures o.objId in Ids(objs) {
      var k :| 0 <= k < |objs| && objs[k] == o;
      assert Ids(objs)[k] == o.objId;
    }
  }

  // ---------------------------------------------------------------------
  // Union of micrographs and CTFs

  /** A CTF estimation with the micrograph it belongs to. */
  datatype CtfModel<V> = CtfModel(ctf: Obj<V>, micrograph: map<string, V>)

  function CtfObjs<V>(ctfSets: seq<seq<CtfModel<V>>>): seq<CtfModel<V>>
  {
    if ctfSets == [] then [] else CtfObjs(ctfSets[..|ctfSets| - 1]) + ctfSets[|ctfSets| - 1]
  }

  function Ctfs<V>(models: seq<CtfModel<V>>): (r: seq<Obj<V>>)
    ensures |r| == |models|
  {
    seq(|models|, k requires 0 <= k < |models| => models[k].ctf)
  }

  /** The micrographs appended beside `ctfs`: each takes the (possibly
      cleared) id of its CTF. */
  function PairedMicrographs<V>(models: seq<CtfModel<V>>, ctfs: seq<Appended<V>>): (r: seq<Appended<V>>)
    requires |ctfs| == |models|
  {
    seq(|models|, k requires 0 <= k < |models| => Appended(ctfs[k].objId, models[k].micrograph))
  }

  /** `ProtUnionMicCtf.createOutputStep`: the CTFs follow the union id rule
      (no renumbering); every micrograph is appended right after its CTF
      with the CTF's id as it stands before the append (kept or cleared), so
      both outputs have the same length and are paired
      position by position. */
  method UnionMicCtfCreateOutput<V>(ctfSets: seq<seq<CtfModel<V>>>)
    returns (r: Result<(seq<Appended<V>>, seq<Appended<V>>), UnionError>)
    ensures ctfSets == [] <==> r == Err(NoInputSets)
    ensures r.Ok? <==> ctfSets != []
    ensures r.Ok? ==>
              var (outCtfs, outMics) := r.value;
              && outCtfs == UnionOutput(Ctfs(CtfObjs(ctfSets)), None)
              && |outMics| == |outCtfs|
              && outMics == PairedMicrographs(CtfObjs(ctfSets), outCtfs)
  {
    if ctfSets == [] {
      return Err(NoInputSets);
    }
    var usedIds: set<int> := {};
    var cleanIds := false;
    var outCtfs: seq<Appended<V>> := [];
    var outMics: seq<Appended<V>> := [];
    ghost var seen: seq<CtfModel<V>> := [];
    var s := 0;
    while s < |ctfSets|
      invariant 0 <= s <= |ctfSets|
      invariant seen == CtfObjs(ctfSets[..s])
      invariant UnionLoopState(Ctfs(seen), None, None, cleanIds, usedIds, outCtfs)
      invariant outMics == PairedMicrographs(seen, outCtfs)
    {
      var items := ctfSets[s];
      var k := 0;
      while k < |items|
        invariant 0 <= k <= |items|
        invariant seen == CtfObjs(ctfSets[..s]) + items[..k]
        invariant UnionLoopState(Ctfs(seen), None, None, cleanIds, usedIds, outCtfs)
        invariant outMics == PairedMicrographs(seen, outCtfs)
      {
        var model := items[k];
        var ctf := model.ctf;
        var ctfId := ctf.objId;
        var newId := Some(ctfId);
        UnionLoopStep(Ctfs(seen), ctf, None, None, cleanIds, usedIds, outCtfs);
        assert Ctfs(seen + [model]) == Ctfs(seen) + [ctf];
        if cleanIds {
          newId := None;
        } else if ctfId in usedIds {
          newId := None;
          cleanIds := true;
        } else {
          usedIds := usedIds + {ctfId};
        }
        outCtfs := outCtfs + [Appended(newId, ctf.attrs)];
        outMics := outMics + [Appended(newId, model.micrograph)];
        seen := seen + [model];
        assert items[..k + 1] == items[..k] + [model];
        k := k + 1;
      }
      assert items[..k] == items;
      assert ctfSets[..s + 1][..s] == ctfSets[..s];
      s := s + 1;
    }
    assert ctfSets[..s] == ctfSets;
    r := Ok((outCtfs, outMics));
  }

  // ---------------------------------------------------------------------
  // Validation shared by both unions

  /** What validation reads of an input set: its class and the attribute
      names of its first object (`None` for an empty set). */
  datatype SetSummary = SetSummary(className: string, firstAttrs: Option<set<string>>)

  function Summary<V>(s: EMSet<V>): SetSummary
  {
    SetSummary(s.className, if s.items == [] then None else Some(s.items[0].attrs.Keys))
  }

  /** `EmptySetRaises`: asking an empty set for its first object raises. */
  datatype SameKindCheck = Accepted | MixedTypes(classes: set<string>)
                         | MixedAttributes(attrs: set<set<string>>) | EmptySetRaises

  /** `_validate` of both unions: one class for all sets, then the same
      attribute names on the first object of every set. */
  function ValidateSameKind(sets: seq<SetSummary>): SameKindCheck
  {
    var classes := set s | s in sets :: s.className;
    if |classes| > 1 then MixedTypes(classes)
    else if exists s :: s in sets && s.firstAttrs.None? then EmptySetRaises
    else
      var attrs := set s | s in sets && s.firstAttrs.Some? :: s.firstAttrs.value;
      if |attrs| > 1 then MixedAttributes(attrs) else Accepted
  }

  /** Sets all of one class, all non-empty, with the same attribute names
      on their first object, pass validation. */
  lemma AllSameKindAccepted(sets: seq<SetSummary>)
    requires forall i :: 0 <= i < |sets| ==> sets[i].firstAttrs.Some?
    requires forall i, j :: 0 <= i < |sets| && 0 <= j < |sets| ==>
               sets[i].className == sets[j].className && sets[i].firstAttrs == sets[j].firstAttrs
    ensures ValidateSameKind(sets) == Accepted
  {
    if sets != [] {
      var classes := set s | s in sets :: s.className;
      var attrs := set s | s in sets && s.firstAttrs.Some? :: s.firstAttrs.value;
      forall c | c in classes ensures c == sets[0].className {
        var s :| s in sets && s.className == c;
        var i :| 0 <= i < |sets| && sets[i] == s;
      }
      assert classes <= {sets[0].className};
      forall a | a in attrs ensures a == sets[0].firstAttrs.value {
        var s :| s in sets && s.firstAttrs.Some? && s.firstAttrs.value == a;
        var i :| 0 <= i < |sets| && sets[i] == s;
      }
      assert attrs <= {sets[0].firstAttrs.value};
      assert sets[0] in sets;
      assert classes == {sets[0].className};
      assert attrs == {sets[0].firstAttrs.value};
    }
  }

  /** Validation accepts exactly the inputs whose sets are all of one class
      and all non-empty with the same attribute names on their first object. */
  lemma SameKindAccepted(sets: seq<SetSummary>)
    ensures ValidateSameKind(sets) == Accepted <==>
            (forall i :: 0 <= i < |sets| ==> sets[i].firstAttrs.Some?)
            && (forall i, j :: 0 <= i < |sets| && 0 <= j < |sets| ==>
                  sets[i].className == sets[j].className && sets[i].firstAttrs == sets[j].firstAttrs)
  {
    var classes := set s | s in sets :: s.className;
    var attrs := set s | s in sets && s.firstAttrs.Some? :: s.firstAttrs.value;
    if ValidateSameKind(sets) == Accepted {
      forall i, j | 0 <= i < |sets| && 0 <= j < |sets|
        ensures sets[i].firstAttrs.Some?
        ensures sets[i].className == sets[j].className && sets[i].firstAttrs == sets[j].firstAttrs
      {
        assert sets[i] in sets && sets[j] in sets;
        AtMostOneElement(classes, sets[i].className, sets[j].className);
        AtMostOneElement(attrs, sets[i].firstAttrs.value, sets[j].firstAttrs.value);
      }
    }
    if (forall i :: 0 <= i < |sets| ==> sets[i].firstAttrs.Some?)
       && (forall i, j :: 0 <= i < |sets| && 0 <= j < |sets| ==>
             sets[i].className == sets[j].className && sets[i].firstAttrs == sets[j].firstAttrs) {
      AllSameKindAccepted(sets);
    }
  }
}
