/**
 Reference extraction. Given the selected GameObject, it computes the GameObjects the
 selection's components point at (outgoing) and the candidates with a component pointing at
 the selection or at one of its components (incoming).

 Both scans walk every component except missing ones and exact Transforms. For each component
 they read the reference-typed fields, and then the readable Object-typed properties. The
 outgoing field scan has an arm for arrays that the incoming one lacks, but that arm never
 yields a value, so both scans read the same values.
 */
module Extractor {
  import opened Wrappers
  import opened Scene

  /** A component takes part in a scan unless it is missing or is exactly a Transform. */
  predicate Scanned(c: Option<Component>)
  {
    c.Some? && c.value.kind != Transform
  }

  /**
   The values a scan reads from one field. An `ArrayField` yields nothing in either scan: the
   incoming scan has no array arm, and in the outgoing scan's array arm the `as Object[]` cast
   of a multi-dimensional array is null, so its loop adds nothing.
   */
  function FieldValues(f: Field): seq<Option<Ref>>
  {
    match f
    case ObjectField(value) => [value]
    case EnumerableField(items) => if items.Some? then items.value else []
    case ArrayField => []
    case PlainField => []
  }

  /**
   The value a scan reads from one property: none for a write-only property, none on a
   Renderer or MeshFilter, and none when the getter throws (the exception is swallowed).
   */
  function PropertyValues(kind: Kind, p: Property): seq<Option<Ref>>
  {
    match p
    case ObjectProperty(canRead, getter) =>
      if canRead && kind != Renderer && kind != MeshFilter && getter.Returns? then [getter.value] else []
    case PlainProperty => []
  }

  /** The values read from a run of fields, in declaration order. */
  function FieldsValues(fs: seq<Field>): seq<Option<Ref>>
    decreases |fs|
  {
    if |fs| == 0 then [] else FieldValues(fs[0]) + FieldsValues(fs[1..])
  }

  /** The values read from a run of properties, in declaration order. */
  function PropertiesValues(kind: Kind, ps: seq<Property>): seq<Option<Ref>>
    decreases |ps|
  {
    if |ps| == 0 then [] else PropertyValues(kind, ps[0]) + PropertiesValues(kind, ps[1..])
  }

  /** Fields first, then properties. */
  function ComponentValues(c: Component): seq<Option<Ref>>
  {
    FieldsValues(c.fields) + PropertiesValues(c.kind, c.properties)
  }

  /** The values read from every scanned component of a component list. */
  function ObjectValues(cs: seq<Option<Component>>): seq<Option<Ref>>
    decreases |cs|
  {
    if |cs| == 0 then []
    else (if Scanned(cs[0]) then ComponentValues(cs[0].value) else []) + ObjectValues(cs[1..])
  }

  // ---------------------------------------------------------------------------------------
  // What a scan reads, stated slot by slot

  /** Component `c` holds `v` in some field or readable property that the scan consults. */
  ghost predicate Reads(c: Component, v: Option<Ref>)
  {
    || (exists j :: 0 <= j < |c.fields| && v in FieldValues(c.fields[j]))
    || (exists j :: 0 <= j < |c.properties| && v in PropertyValues(c.kind, c.properties[j]))
  }

  /** Some scanned component of `cs` holds `v`. */
  ghost predicate ReadsAny(cs: seq<Option<Component>>, v: Option<Ref>)
  {
    exists i :: 0 <= i < |cs| && Scanned(cs[i]) && Reads(cs[i].value, v)
  }

  lemma {:induction false} FieldsValuesSpec(fs: seq<Field>, v: Option<Ref>)
    ensures v in FieldsValues(fs) <==> exists j :: 0 <= j < |fs| && v in FieldValues(fs[j])
    decreases |fs|
  {
    if |fs| > 0 {
      FieldsValuesSpec(fs[1..], v);
      if v in FieldsValues(fs[1..]) {
        var j :| 0 <= j < |fs[1..]| && v in FieldValues(fs[1..][j]);
        assert fs[1..][j] == fs[j + 1];
      }
      if exists j :: 0 <= j < |fs| && v in FieldValues(fs[j]) {
        var j :| 0 <= j < |fs| && v in FieldValues(fs[j]);
        if j > 0 {
          assert fs[1..][j - 1] == fs[j];
        }
      }
    }
  }

  lemma {:induction false} PropertiesValuesSpec(kind: Kind, ps: seq<Property>, v: Option<Ref>)
    ensures v in PropertiesValues(kind, ps) <==> exists j :: 0 <= j < |ps| && v in PropertyValues(kind, ps[j])
    decreases |ps|
  {
    if |ps| > 0 {
      PropertiesValuesSpec(kind, ps[1..], v);
      if v in PropertiesValues(kind, ps[1..]) {
        var j :| 0 <= j < |ps[1..]| && v in PropertyValues(kind, ps[1..][j]);
        assert ps[1..][j] == ps[j + 1];
      }
      if exists j :: 0 <= j < |ps| && v in PropertyValues(kind, ps[j]) {
        var j :| 0 <= j < |ps| && v in PropertyValues(kind, ps[j]);
        if j > 0 {
          assert ps[1..][j - 1] == ps[j];
        }
      }
    }
  }

  /** The flattened values of a component are exactly what it holds in a consulted slot. */
  lemma ComponentValuesSpec(c: Component, v: Option<Ref>)
    ensures v in ComponentValues(c) <==> Reads(c, v)
  {
    FieldsValuesSpec(c.fields, v);
    PropertiesValuesSpec(c.kind, c.properties, v);
  }

  /** The flattened values of a component list are exactly what its scanned components hold. */
  lemma {:induction false} ObjectValuesSpec(cs: seq<Option<Component>>, v: Option<Ref>)
    ensures v in ObjectValues(cs) <==> ReadsAny(cs, v)
    decreases |cs|
  {
    if |cs| > 0 {
      ObjectValuesSpec(cs[1..], v);
      if Scanned(cs[0]) {
        ComponentValuesSpec(cs[0].value, v);
      }
      if ReadsAny(cs[1..], v) {
        var i :| 0 <= i < |cs[1..]| && Scanned(cs[1..][i]) && Reads(cs[1..][i].value, v);
        assert cs[1..][i] == cs[i + 1];
      }
      if ReadsAny(cs, v) {
        var i :| 0 <= i < |cs| && Scanned(cs[i]) && Reads(cs[i].value, v);
        if i > 0 {
          assert cs[1..][i - 1] == cs[i];
        }
      }
    }
  }

  // ---------------------------------------------------------------------------------------
  // Outgoing: referencedObjects

  /** One call of AddReferencedObject: add the owner of `v` unless it is absent or the selection. */
  function AddReferencedObject(selId: ObjId, acc: set<ObjId>, v: Option<Ref>): set<ObjId>
  {
    match Owner(v)
    case None => acc
    case Some(go) => if go != selId then acc + {go} else acc
  }

  /** AddReferencedObject applied to each value in turn. */
  function AddReferenced(selId: ObjId, acc: set<ObjId>, vs: seq<Option<Ref>>): (r: set<ObjId>)
    ensures forall id :: id in r <==> id in acc || (id != selId && exists v :: v in vs && Owner(v) == Some(id))
    decreases |vs|
  {
    if |vs| == 0 then acc
    else
      var r := AddReferenced(selId, AddReferencedObject(selId, acc, vs[0]), vs[1..]);
      assert vs == [vs[0]] + vs[1..];
      r
  }

  /** The outgoing set after a recomputation; empty when nothing is selected. */
  function ReferencedObjects(sel: Option<GameObject>): set<ObjId>
  {
    if sel.None? then {} else AddReferenced(sel.value.id, {}, ObjectValues(sel.value.components))
  }

  /** `sel` holds, in a slot the outgoing scan consults, a value standing for GameObject `id`. */
  ghost predicate RefersTo(sel: GameObject, id: ObjId)
  {
    id != sel.id && exists v :: ReadsAny(sel.components, v) && Owner(v) == Some(id)
  }

  /**
   A GameObject is in the outgoing set exactly when it is not the selection and some scanned
   component of the selection holds it, or one of its components, in a consulted slot.
   */
  lemma ReferencedObjectsSpec(sel: GameObject, id: ObjId)
    ensures id in ReferencedObjects(Some(sel)) <==> RefersTo(sel, id)
  {
    var vs := ObjectValues(sel.components);
    if id in ReferencedObjects(Some(sel)) {
      var v :| v in vs && Owner(v) == Some(id);
      ObjectValuesSpec(sel.components, v);
    }
    if RefersTo(sel, id) {
      var v :| ReadsAny(sel.components, v) && Owner(v) == Some(id);
      ObjectValuesSpec(sel.components, v);
    }
  }

  // ---------------------------------------------------------------------------------------
  // Incoming: referencingObjects

  /**
   IsReferencingSelectedObject: the value is the selection itself or a component whose
   GameObject is the selection. It agrees with the normalisation of the outgoing scan.
   */
  function IsReferencingSelected(selId: ObjId, v: Option<Ref>): (r: bool)
    ensures r <==> Owner(v) == Some(selId)
  {
    match v
    case None => false
    case Some(GameObjectRef(id)) => id == selId
    case Some(ComponentRef(owner)) => owner == selId
    case Some(AssetRef) => false
  }

  /** Some value of `vs` points at the selection. */
  predicate AnyReferencesSelected(selId: ObjId, vs: seq<Option<Ref>>)
  {
    exists k :: 0 <= k < |vs| && IsReferencingSelected(selId, vs[k])
  }

  /** Some field, or some consulted property, of `c` points at the selection. */
  predicate ComponentMatches(selId: ObjId, c: Component)
  {
    || (exists j :: 0 <= j < |c.fields| && AnyReferencesSelected(selId, FieldValues(c.fields[j])))
    || (exists j :: 0 <= j < |c.properties| && AnyReferencesSelected(selId, PropertyValues(c.kind, c.properties[j])))
  }

  /** Some scanned component of the candidate points at the selection. */
  predicate CandidateMatches(selId: ObjId, go: GameObject)
  {
    exists i :: 0 <= i < |go.components| && Scanned(go.components[i]) && ComponentMatches(selId, go.components[i].value)
  }

  /** The incoming set after a recomputation; empty when nothing is selected. */
  function ReferencingObjects(sel: Option<GameObject>, pool: seq<GameObject>): set<ObjId>
  {
    if sel.None? then {}
    else set k | 0 <= k < |pool| && pool[k].id != sel.value.id && CandidateMatches(sel.value.id, pool[k]) :: pool[k].id
  }

  /** `go` holds, in a slot the incoming scan consults, the selection or one of its components. */
  ghost predicate ReferencesSelected(selId: ObjId, go: GameObject)
  {
    go.id != selId && exists v :: ReadsAny(go.components, v) && Owner(v) == Some(selId)
  }

  lemma ComponentMatchesSpec(selId: ObjId, c: Component)
    ensures ComponentMatches(selId, c) <==> exists v :: Reads(c, v) && Owner(v) == Some(selId)
  {
  }

  /** The short-circuiting test of a candidate agrees with the slot-by-slot statement. */
  lemma CandidateMatchesSpec(selId: ObjId, go: GameObject)
    ensures CandidateMatches(selId, go) <==> exists v :: ReadsAny(go.components, v) && Owner(v) == Some(selId)
  {
  }

  /**
   A GameObject is in the incoming set exactly when it is a candidate other than the selection
   and one of its scanned components holds the selection, or one of its components, in a
   consulted slot.
   */
  lemma ReferencingObjectsSpec(sel: GameObject, pool: seq<GameObject>, id: ObjId)
    ensures id in ReferencingObjects(Some(sel), pool)
            <==> exists k :: 0 <= k < |pool| && pool[k].id == id && ReferencesSelected(sel.id, pool[k])
  {
  }

  /** The selection is never in either set: the pool loop skips it and AddReferencedObject refuses it. */
  lemma SelectionExcluded(sel: GameObject, pool: seq<GameObject>)
    ensures sel.id !in ReferencedObjects(Some(sel))
    ensures sel.id !in ReferencingObjects(Some(sel), pool)
  {
  }

  // ---------------------------------------------------------------------------------------
  // The incoming scan of one candidate, with its early exits

  /**
   The component loop of UpdateReferences' pool scan, for one candidate. A hit in an object
   field leaves the field loop; a hit in an enumerable leaves only the item loop; the property
   loop runs whatever the fields found; a hit after a component leaves the component loop. The exits only save work:
   the answer is whether any consulted slot points at the selection.
   */
  method ScanCandidate(selId: ObjId, go: GameObject) returns (isReferencing: bool)
    ensures isReferencing <==> CandidateMatches(selId, go)
  {
    isReferencing := false;
    var comps := go.components;
    var i := 0;
    while i < |comps|
      invariant 0 <= i <= |comps|
      invariant !isReferencing
      invariant forall i' :: 0 <= i' < i && Scanned(comps[i']) ==> !ComponentMatches(selId, comps[i'].value)
    {
      var comp := comps[i];
      if comp.None? || comp.value.kind == Transform {
        i := i + 1;
        continue;
      }
      var c := comp.value;
      // Fields
      var j := 0;
      while j < |c.fields|
        invariant 0 <= j <= |c.fields|
        invariant isReferencing <==> exists j' :: 0 <= j' < j && AnyReferencesSelected(selId, FieldValues(c.fields[j']))
      {
        match c.fields[j] {
          case ObjectField(value) =>
            if IsReferencingSelected(selId, value) {
              assert FieldValues(c.fields[j])[0] == value;
              isReferencing := true;
              break;
            }
          case EnumerableField(items) =>
            if items.Some? {
              var k := 0;
              while k < |items.value|
                invariant 0 <= k <= |items.value|
                invariant isReferencing <==>
                  (exists j' :: 0 <= j' < j && AnyReferencesSelected(selId, FieldValues(c.fields[j'])))
                  || (exists k' :: 0 <= k' < k && IsReferencingSelected(selId, items.value[k']))
              {
                if IsReferencingSelected(selId, items.value[k]) {
                  isReferencing := true;
                  break;
                }
                k := k + 1;
              }
            }
          case ArrayField =>
          case PlainField =>
        }
        j := j + 1;
      }
      ghost var fieldHit := isReferencing;
      // Properties
      j := 0;
      while j < |c.properties|
        invariant 0 <= j <= |c.properties|
        invariant isReferencing <==>
          fieldHit || exists j' :: 0 <= j' < j && AnyReferencesSelected(selId, PropertyValues(c.kind, c.properties[j']))
      {
        match c.properties[j] {
          case ObjectProperty(canRead, getter) =>
            if canRead {
              if c.kind == Renderer || c.kind == MeshFilter {
                j := j + 1;
                continue;
              }
              match getter {
                case Throws =>
                case Returns(value) =>
                  if IsReferencingSelected(selId, value) {
                    assert PropertyValues(c.kind, c.properties[j])[0] == value;
                    isReferencing := true;
                    break;
                  }
              }
            }
          case PlainProperty =>
        }
        j := j + 1;
      }
      if isReferencing {
        assert ComponentMatches(selId, c);
        break;
      }
      i := i + 1;
    }
  }

  /**
   UpdateReferences once the prefab stage is open: both sets start empty, the
   outgoing set is filled from the selection and the incoming set from the candidate pool.
   */
  method UpdateReferences(sel: Option<GameObject>, pool: seq<GameObject>)
    returns (referenced: set<ObjId>, referencing: set<ObjId>)
    ensures sel.None? ==> referenced == {} && referencing == {}
    ensures sel.Some? ==> forall id :: id in referenced <==> RefersTo(sel.value, id)
    ensures sel.Some? ==> forall id :: id in referencing <==>
      exists k :: 0 <= k < |pool| && pool[k].id == id && ReferencesSelected(sel.value.id, pool[k])
  {
    referenced := {};
    referencing := {};
    if sel.None? {
      return;
    }
    var selected := sel.value;
    referenced := AddReferenced(selected.id, referenced, ObjectValues(selected.components));
    forall id | true
      ensures id in referenced <==> RefersTo(selected, id)
    {
      ReferencedObjectsSpec(selected, id);
    }
    var k := 0;
    while k < |pool|
      invariant 0 <= k <= |pool|
      invariant referencing ==
        set k' | 0 <= k' < k && pool[k'].id != selected.id && CandidateMatches(selected.id, pool[k']) :: pool[k'].id
    {
      var go := pool[k];
      if go.id == selected.id {
        k := k + 1;
        continue;
      }
      var isReferencing := ScanCandidate(selected.id, go);
      if isReferencing {
        referencing := referencing + {go.id};
      }
      k := k + 1;
    }
    assert referencing == ReferencingObjects(sel, pool);
    forall id | true
      ensures id in referencing <==>
        exists k :: 0 <= k < |pool| && pool[k].id == id && ReferencesSelected(selected.id, pool[k])
    {
      ReferencingObjectsSpec(selected, pool, id);
    }
  }

}
