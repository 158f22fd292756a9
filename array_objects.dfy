// The array-object cache of the non-legacy draw path, as values.
//
// Each vertex buffer maps (render-target id, shader id) keys to the name of
// the vertex array object built for that pairing. Each render target keeps
// an age table over the array objects it created: a draw resets the age of
// the object it uses, then every age grows by one and the objects whose age
// passes the limit are deleted and leave the table. The buffers' maps are
// not told, so a key may keep a name that is no longer in the table.

module ArrayObjectCache {
  import opened Gl
  import opened VertexBuffers
  import opened Shaders

  /** Draws an array object may go unused before it is purged. */
  const MaxArrayObjectAge: nat := 10000

  /** The outcome of looking up the array object for one draw: its name,
      whether it is being built now (so the attributes are set up), whether
      the buffer's data must be uploaded again, and the updated buffer map
      and age table. */
  datatype Selection = Selection(arrayObject: nat, newArray: bool, needUpload: bool,
                                 objects: map<Key, nat>, ages: map<nat, nat>)

  /** The stored name is reused exactly when the age table still holds it. */
  predicate Reusable(objects: map<Key, nat>, ages: map<nat, nat>, key: Key)
  {
    key in objects && objects[key] in ages
  }

  /** The lookup of a draw: a key with no entry, or whose name has been
      purged, gets the name `generated` the driver generates, registered under
      the key with age 0; a reusable entry gets its age reset and asks for
      an upload exactly when the buffer is `marked`. */
  function Select(objects: map<Key, nat>, ages: map<nat, nat>, key: Key, generated: nat, marked: bool): (r: Selection)
    ensures r.newArray <==> !Reusable(objects, ages, key)
    ensures r.newArray ==> r.arrayObject == generated && !r.needUpload
    ensures !r.newArray ==> r.arrayObject == objects[key] && r.needUpload == marked
    ensures key in r.objects && r.objects[key] == r.arrayObject
    ensures r.objects.Keys == objects.Keys + {key}
    ensures forall k :: k in objects && k != key ==> r.objects[k] == objects[k]
    ensures r.arrayObject in r.ages && r.ages[r.arrayObject] == 0
    ensures r.ages.Keys == ages.Keys + {r.arrayObject}
    ensures forall n :: n in ages && n != r.arrayObject ==> r.ages[n] == ages[n]
  {
    if key !in objects then
      Selection(generated, true, false, objects[key := generated], ages[generated := 0])
    else if objects[key] in ages then
      Selection(objects[key], false, marked, objects, ages[objects[key] := 0])
    else
      Selection(generated, true, false, objects[key := generated], ages[generated := 0])
  }

  /** The age table after the increment-and-purge pass. */
  function Aged(ages: map<nat, nat>): (r: map<nat, nat>)
    ensures forall n :: n in r <==> n in ages && ages[n] + 1 <= MaxArrayObjectAge
    ensures forall n :: n in r ==> r[n] == ages[n] + 1
  {
    map n | n in ages && ages[n] + 1 <= MaxArrayObjectAge :: ages[n] + 1
  }

  /** Whether the pass purges this name. */
  predicate Expires(ages: map<nat, nat>, n: int)
  {
    n in ages && ages[n] + 1 > MaxArrayObjectAge
  }

  /** The deletion of one name by the pass, if it expires. */
  function PurgeCall(ages: map<nat, nat>, n: int): (calls: seq<Call>)
    ensures Expires(ages, n) ==> calls == [DeleteObject(ArrayObject, n)]
    ensures !Expires(ages, n) ==> calls == []
  {
    if Expires(ages, n) then [DeleteObject(ArrayObject, n)] else []
  }

  /** The driver name the pass frees for one name of the table. */
  function PurgedName(ages: map<nat, nat>, n: int): (names: set<Name>)
    ensures Expires(ages, n) ==> names == {Name(ArrayObject, n)}
    ensures !Expires(ages, n) ==> names == {}
  {
    if Expires(ages, n) then {Name(ArrayObject, n)} else {}
  }

  /** The table after the pass visits one name: aged by one, or dropped
      once past the limit. */
  function AgeStep(ages: map<nat, nat>, n: nat): (r: map<nat, nat>)
    requires n in ages
    ensures Expires(ages, n) ==> r == ages - {n}
    ensures !Expires(ages, n) ==> r == ages[n := ages[n] + 1]
  {
    if Expires(ages, n) then ages - {n} else ages[n := ages[n] + 1]
  }

  /** The deletions of the pass, visiting the given names in order. */
  function PurgeCalls(keys: seq<int>, ages: map<nat, nat>): (calls: seq<Call>)
    ensures |calls| <= |keys|
  {
    if keys == [] then []
    else PurgeCall(ages, keys[0]) + PurgeCalls(keys[1..], ages)
  }

  /** The names among `visited` that the pass deletes from the driver. */
  function ExpiredNames(ages: map<nat, nat>, visited: set<int>): (names: set<Name>)
    ensures forall x :: x in names <==> x.kind == ArrayObject && x.id in visited && Expires(ages, x.id)
  {
    set n | n in ages && n in visited && Expires(ages, n) :: Name(ArrayObject, n)
  }

  /** The age table after visiting some of its names: visited names are
      aged or purged, the others are as they were. */
  ghost function AgedPart(ages: map<nat, nat>, visited: set<int>): (r: map<nat, nat>)
    ensures forall n :: n in r <==> n in ages && (n in visited ==> !Expires(ages, n))
  {
    map n | n in ages && (n in visited ==> !Expires(ages, n)) :: if n in visited then ages[n] + 1 else ages[n]
  }

  /** Before the pass visits any name, the table is as it was and no name
      has been deleted. */
  lemma AgedPartNone(ages: map<nat, nat>)
    ensures AgedPart(ages, {}) == ages
    ensures ExpiredNames(ages, {}) == {}
  {
    assert AgedPart(ages, {}).Keys == ages.Keys;
  }

  /** Visiting one more name ages or purges just that name, and adds it to
      the deleted names when it expires. */
  lemma AgedPartStep(ages: map<nat, nat>, visited: set<int>, k: nat)
    requires k in ages && k !in visited
    ensures k in AgedPart(ages, visited) && AgedPart(ages, visited)[k] == ages[k]
    ensures PurgeCall(AgedPart(ages, visited), k) == PurgeCall(ages, k)
    ensures PurgedName(AgedPart(ages, visited), k) == PurgedName(ages, k)
    ensures AgedPart(ages, visited + {k}) == AgeStep(AgedPart(ages, visited), k)
    ensures ExpiredNames(ages, visited + {k}) == ExpiredNames(ages, visited) + PurgedName(ages, k)
  {
    var before := AgedPart(ages, visited);
    var after := AgedPart(ages, visited + {k});
    var expected := AgeStep(before, k);
    assert after.Keys == expected.Keys;
    forall n | n in after
      ensures after[n] == expected[n]
    {
    }
  }

  /** One more visited name puts its deletion, if it expires, in front of
      the deletions still to come. */
  lemma PurgeStep(ages: map<nat, nat>, keys: seq<int>, i: nat)
    requires i < |keys|
    ensures PurgeCalls(keys[i..], ages) == PurgeCall(ages, keys[i]) + PurgeCalls(keys[i + 1..], ages)
  {
    assert keys[i..][1..] == keys[i + 1..];
  }

  /** The first `i` names of a visit. */
  ghost function Visited(keys: seq<int>, i: nat): (r: set<int>)
    requires i <= |keys|
    ensures forall j :: 0 <= j < i ==> keys[j] in r
  {
    if i == 0 then {} else Visited(keys, i - 1) + {keys[i - 1]}
  }

  /** In the visit of a table in key order, the names before position `i`
      are all smaller than the one at `i`, so that one is still unvisited. */
  lemma {:induction false} VisitedBelow(s: set<int>, i: nat, j: nat)
    requires j < i <= |SortedKeys(s)|
    ensures forall n :: n in Visited(SortedKeys(s), j) ==> n < SortedKeys(s)[j]
    ensures forall n :: n in Visited(SortedKeys(s), j) ==> n in s
    decreases j
  {
    SortedKeysOrdered(s);
    if j > 0 {
      VisitedBelow(s, i, j - 1);
    }
  }

  /** One visit of the pass keeps its three accounts in step: the table,
      the calls still to come, and the names still live. */
  lemma VisitStep(ages: map<nat, nat>, keys: seq<int>, i: nat,
                  log0: seq<Call>, live0: set<Name>, log: seq<Call>, live: set<Name>)
    requires keys == SortedKeys(ages.Keys) && i < |keys|
    requires log + PurgeCalls(keys[i..], ages) == log0 + PurgeCalls(keys, ages)
    requires live == live0 - ExpiredNames(ages, Visited(keys, i))
    ensures keys[i] in ages
    ensures var k: nat := keys[i];
            var visited := Visited(keys, i);
            var before := AgedPart(ages, visited);
            k in before &&
            AgeStep(before, k) == AgedPart(ages, Visited(keys, i + 1)) &&
            (log + PurgeCall(before, k)) + PurgeCalls(keys[i + 1..], ages) == log0 + PurgeCalls(keys, ages) &&
            live - PurgedName(before, k) == live0 - ExpiredNames(ages, Visited(keys, i + 1))
  {
    var k: nat := keys[i];
    var visited := Visited(keys, i);
    VisitedBelow(ages.Keys, i + 1, i);
    AgedPartStep(ages, visited, k);
    PurgeStep(ages, keys, i);
    assert (log + PurgeCall(ages, k)) + PurgeCalls(keys[i + 1..], ages) == log + (PurgeCall(ages, k) + PurgeCalls(keys[i + 1..], ages));
    assert live0 - ExpiredNames(ages, visited) - PurgedName(ages, k) == live0 - (ExpiredNames(ages, visited) + PurgedName(ages, k));
  }

  /** A visit of every name in key order covers the whole table. */
  lemma VisitedAll(s: set<int>)
    ensures s <= Visited(SortedKeys(s), |SortedKeys(s)|)
  {
    SortedKeysOrdered(s);
    var keys := SortedKeys(s);
    forall n | n in s
      ensures n in Visited(keys, |keys|)
    {
      var j :| 0 <= j < |keys| && keys[j] == n;
    }
  }

  /** Once every name has been visited, the table is the aged one. */
  lemma AgedPartAll(ages: map<nat, nat>, visited: set<int>)
    requires ages.Keys <= visited
    ensures AgedPart(ages, visited) == Aged(ages)
    ensures ExpiredNames(ages, visited) == ExpiredNames(ages, ages.Keys)
  {
    var a := AgedPart(ages, visited);
    assert a.Keys == Aged(ages).Keys;
  }

  /** The pass deletes every visited name that expires, and nothing else. */
  lemma {:induction false} PurgeCallsDelete(keys: seq<int>, ages: map<nat, nat>)
    ensures forall c :: c in PurgeCalls(keys, ages) ==> c.DeleteObject? && c.kind == ArrayObject && c.name in keys && Expires(ages, c.name)
    ensures forall n :: n in keys && Expires(ages, n) ==> DeleteObject(ArrayObject, n) in PurgeCalls(keys, ages)
  {
    if keys != [] {
      PurgeCallsDelete(keys[1..], ages);
      assert PurgeCalls(keys, ages) == PurgeCall(ages, keys[0]) + PurgeCalls(keys[1..], ages);
      forall n | n in keys && Expires(ages, n)
        ensures DeleteObject(ArrayObject, n) in PurgeCalls(keys, ages)
      {
        if n != keys[0] {
          assert n in keys[1..];
        }
      }
    }
  }

  /** Visiting the table's own keys in increasing order, the pass deletes
      exactly the expiring names. */
  lemma PurgeInOrder(ages: map<nat, nat>)
    ensures forall c :: c in PurgeCalls(SortedKeys(ages.Keys), ages) ==> c.DeleteObject? && Expires(ages, c.name)
    ensures forall n :: Expires(ages, n) ==> DeleteObject(ArrayObject, n) in PurgeCalls(SortedKeys(ages.Keys), ages)
  {
    SortedKeysOrdered(ages.Keys);
    PurgeCallsDelete(SortedKeys(ages.Keys), ages);
  }

  /** After a draw through the cache: the object it used has age 1, every
      surviving object has an age between 1 and the limit, and exactly the
      objects whose age passed the limit have been dropped. */
  lemma DrawAges(objects: map<Key, nat>, ages: map<nat, nat>, key: Key, generated: nat, marked: bool)
    ensures var r := Select(objects, ages, key, generated, marked);
            var after := Aged(r.ages);
            r.arrayObject in after && after[r.arrayObject] == 1 &&
            (forall n :: n in after ==> 1 <= after[n] <= MaxArrayObjectAge) &&
            (forall n :: n in r.ages ==> (n !in after <==> r.ages[n] >= MaxArrayObjectAge))
  {
  }

  /** A miss registers the new name under the key and leaves the buffer's
      other keys alone; a hit keeps the buffer's map as it was. */
  lemma SelectMap(objects: map<Key, nat>, ages: map<nat, nat>, key: Key, generated: nat, marked: bool)
    ensures var r := Select(objects, ages, key, generated, marked);
            (r.newArray ==> r.objects == objects[key := generated]) &&
            (!r.newArray ==> r.objects == objects)
  {
    var r := Select(objects, ages, key, generated, marked);
    if !r.newArray {
      assert r.objects.Keys == objects.Keys;
    }
  }

  /** A purged name is free for the driver to hand out again. When another
      buffer's draw receives it, the first buffer's stale entry is found in
      the age table again and its draw reuses the other buffer's array
      object, without setting up attributes or binding its own buffer. */
  lemma StaleNameReused()
    ensures var a := Key(1, 1);
            var b := Key(1, 2);
            var aged := Aged(map[7 := MaxArrayObjectAge]);
            var drawB := Select(map[], aged, b, 7, false);
            var drawA := Select(map[a := 7], drawB.ages, a, 9, false);
            7 !in aged && drawB.newArray && drawB.arrayObject == 7 &&
            !drawA.newArray && drawA.arrayObject == drawB.arrayObject && !drawA.needUpload
  {
    var aged := Aged(map[7 := MaxArrayObjectAge]);
    assert 7 !in aged;
  }
}
