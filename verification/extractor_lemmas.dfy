/**
 Properties of the two scans: what a Transform, a Renderer or MeshFilter, a throwing getter
 and an array field contribute, and a worked example.
 */
module ExtractorLemmas {
  import opened Wrappers
  import opened Scene
  import opened Extractor

  lemma {:induction false} ObjectValuesAppend(a: seq<Option<Component>>, b: seq<Option<Component>>)
    ensures ObjectValues(a + b) == ObjectValues(a) + ObjectValues(b)
    decreases |a|
  {
    if |a| > 0 {
      assert (a + b)[1..] == a[1..] + b;
      ObjectValuesAppend(a[1..], b);
    } else {
      assert a + b == b;
    }
  }

  lemma {:induction false} PropertiesValuesAppend(kind: Kind, a: seq<Property>, b: seq<Property>)
    ensures PropertiesValues(kind, a + b) == PropertiesValues(kind, a) + PropertiesValues(kind, b)
    decreases |a|
  {
    if |a| > 0 {
      assert (a + b)[1..] == a[1..] + b;
      PropertiesValuesAppend(kind, a[1..], b);
    } else {
      assert a + b == b;
    }
  }

  lemma ObjectValuesCons(c: Option<Component>, cs: seq<Option<Component>>)
    ensures ObjectValues([c] + cs) == (if Scanned(c) then ComponentValues(c.value) else []) + ObjectValues(cs)
  {
  }

  lemma ObjectValuesSingle(c: Option<Component>)
    ensures ObjectValues([c]) == if Scanned(c) then ComponentValues(c.value) else []
  {
  }

  lemma FieldsValuesCons(f: Field, fs: seq<Field>)
    ensures FieldsValues([f] + fs) == FieldValues(f) + FieldsValues(fs)
  {
  }

  lemma FieldsValuesSingle(f: Field)
    ensures FieldsValues([f]) == FieldValues(f)
  {
  }

  /** The incoming test of a candidate depends only on the values its scan reads. */
  lemma CandidateMatchesValues(selId: ObjId, go: GameObject)
    ensures CandidateMatches(selId, go) <==>
      exists v :: v in ObjectValues(go.components) && IsReferencingSelected(selId, v)
  {
    CandidateMatchesSpec(selId, go);
    forall v | true
      ensures v in ObjectValues(go.components) <==> ReadsAny(go.components, v)
    {
      ObjectValuesSpec(go.components, v);
    }
  }

  /**
   A Transform component contributes nothing to either scan, whatever slots it holds:
   inserting it anywhere in a component list leaves the values read unchanged.
   */
  lemma TransformContributesNothing(a: seq<Option<Component>>, t: Component, b: seq<Option<Component>>)
    requires t.kind == Transform
    ensures ObjectValues(a + [Some(t)] + b) == ObjectValues(a + b)
  {
    ObjectValuesAppend(a + [Some(t)], b);
    ObjectValuesAppend(a, [Some(t)]);
    ObjectValuesAppend(a, b);
    assert ObjectValues([Some(t)]) == [];
  }

  /** Hence a Transform changes neither the outgoing set of a selection nor the incoming test of a candidate. */
  lemma TransformIgnoredBySets(id: ObjId, a: seq<Option<Component>>, t: Component, b: seq<Option<Component>>, selId: ObjId)
    requires t.kind == Transform
    ensures ReferencedObjects(Some(GameObject(id, a + [Some(t)] + b))) == ReferencedObjects(Some(GameObject(id, a + b)))
    ensures CandidateMatches(selId, GameObject(id, a + [Some(t)] + b)) == CandidateMatches(selId, GameObject(id, a + b))
  {
    TransformContributesNothing(a, t, b);
    TransformContributesNothing(a, t, b);
    CandidateMatchesValues(selId, GameObject(id, a + [Some(t)] + b));
    CandidateMatchesValues(selId, GameObject(id, a + b));
  }

  lemma {:induction false} PropertiesNeverReadOn(kind: Kind, ps: seq<Property>)
    requires kind == Renderer || kind == MeshFilter
    ensures PropertiesValues(kind, ps) == []
    decreases |ps|
  {
    if |ps| > 0 {
      PropertiesNeverReadOn(kind, ps[1..]);
    }
  }

  /**
   On a Renderer or MeshFilter no property is read, by either scan: the component
   contributes its fields only, whatever properties it exposes.
   */
  lemma RendererPropertiesIgnored(c: Component, ps: seq<Property>)
    requires c.kind == Renderer || c.kind == MeshFilter
    ensures ComponentValues(c.(properties := ps)) == FieldsValues(c.fields)
  {
    PropertiesNeverReadOn(c.kind, ps);
  }

  /**
   A getter that throws yields nothing and the scan goes on with the next property:
   the values read are those of the properties before it followed by those after it.
   */
  lemma ThrowingGetterSkipped(kind: Kind, a: seq<Property>, canRead: bool, b: seq<Property>)
    ensures PropertiesValues(kind, a + [ObjectProperty(canRead, Throws)] + b)
         == PropertiesValues(kind, a) + PropertiesValues(kind, b)
  {
    PropertiesValuesAppend(kind, a + [ObjectProperty(canRead, Throws)], b);
    PropertiesValuesAppend(kind, a, [ObjectProperty(canRead, Throws)]);
  }

  /**
   The outgoing array arm adds nothing: a selection whose only slot is an array field
   references no GameObject, whatever kind its component has.
   */
  lemma ArrayArmAddsNothing(s: ObjId, kind: Kind)
    ensures ReferencedObjects(Some(GameObject(s, [Some(Component(kind, [ArrayField], []))]))) == {}
  {
    ObjectValuesSingle(Some(Component(kind, [ArrayField], [])));
    FieldsValuesSingle(ArrayField);
  }

  /**
   A one-dimensional array of GameObjects passes the enumerable test, so it is found in both
   directions: when `s` holds `x` in such a field, `x` is in the outgoing set of `s`, and when
   `x` is selected, `s` is in its incoming set.
   */
  lemma ObjectArrayFoundBothWays(s: ObjId, x: ObjId)
    requires s != x
    ensures x in ReferencedObjects(Some(ArrayHolder(s, x)))
    ensures s in ReferencingObjects(Some(GameObject(x, [])), [ArrayHolder(s, x)])
  {
    var c := ArrayHolder(s, x).components[0].value;
    FieldsValuesSingle(c.fields[0]);
    ObjectValuesSingle(Some(c));
    assert ObjectValues(ArrayHolder(s, x).components) == [Some(GameObjectRef(x))];
    assert Some(GameObjectRef(x)) in ObjectValues(ArrayHolder(s, x).components);
    assert IsReferencingSelected(x, Some(GameObjectRef(x)));
    CandidateMatchesValues(x, ArrayHolder(s, x));
    assert CandidateMatches(x, [ArrayHolder(s, x)][0]);
  }

  /** A GameObject `s` whose one component holds `x` in a `GameObject[]` field. */
  function ArrayHolder(s: ObjId, x: ObjId): GameObject
  {
    GameObject(s, [Some(Component(Other, [EnumerableField(Some([Some(GameObjectRef(x))]))], []))])
  }

  /**
   The Transform test is on the exact type, so a RectTransform is scanned: a readable property
   of it that returns a component of GameObject `p` (its parent, say) puts `p` in the
   outgoing set.
   */
  lemma RectTransformIsScanned(s: ObjId, p: ObjId)
    requires s != p
    ensures p in ReferencedObjects(Some(GameObject(s, [Some(RectWithParent(p))])))
  {
    var c := RectWithParent(p);
    assert PropertiesValues(RectTransform, c.properties) == [Some(ComponentRef(p))] by {
      assert c.properties[1..] == [];
    }
    ObjectValuesSingle(Some(c));
    assert Some(ComponentRef(p)) in ObjectValues([Some(c)]);
  }

  /** A RectTransform whose one readable Object property returns a component of `p`. */
  function RectWithParent(p: ObjId): Component
  {
    Component(RectTransform, [], [ObjectProperty(true, Returns(Some(ComponentRef(p))))])
  }

  /**
   The selection A (id 1) holds B (2) in a single field and the list [C (3), a component of D (4)]
   in an enumerable field, next to its Transform; candidate E (5) holds A in a single field.
   Then A references exactly {B, C, D} (ScenarioOutgoing) and is referenced exactly by {E}
   (ScenarioIncoming).
   */
  lemma ScenarioOutgoing()
    ensures ReferencedObjects(Some(ScenarioA())) == {2, 3, 4}
  {
    var a := ScenarioA();
    var t := a.components[0].value;
    var c := a.components[1].value;
    FieldsValuesSingle(c.fields[2]);
    FieldsValuesCons(c.fields[1], c.fields[2..]);
    FieldsValuesCons(c.fields[0], c.fields[1..]);
    assert c.fields == [c.fields[0]] + c.fields[1..];
    assert c.fields[1..] == [c.fields[1]] + c.fields[2..];
    assert c.fields[2..] == [c.fields[2]];
    ObjectValuesSingle(Some(c));
    ObjectValuesCons(Some(t), [Some(c)]);
    assert a.components == [Some(t)] + [Some(c)];
    var vs := [Some(GameObjectRef(2)), Some(GameObjectRef(3)), Some(ComponentRef(4))];
    assert ObjectValues(a.components) == vs;
    assert vs[0] in vs && vs[1] in vs && vs[2] in vs;
  }

  lemma ScenarioIncoming()
    ensures ReferencingObjects(Some(ScenarioA()), ScenarioPool()) == {5}
  {
    var pool := ScenarioPool();
    var e := pool[4];
    var ce := e.components[0].value;
    FieldsValuesSingle(ce.fields[0]);
    ObjectValuesSingle(Some(ce));
    assert e.components == [Some(ce)];
    assert ObjectValues(e.components) == [Some(GameObjectRef(1))];
    assert Some(GameObjectRef(1)) in ObjectValues(e.components);
    assert IsReferencingSelected(1, Some(GameObjectRef(1)));
    CandidateMatchesValues(1, e);
    assert CandidateMatches(1, e);
    forall k | 1 <= k < 4
      ensures !CandidateMatches(1, pool[k])
    {
      assert ObjectValues(pool[k].components) == [];
      CandidateMatchesValues(1, pool[k]);
    }
    var q := ReferencingObjects(Some(ScenarioA()), pool);
    assert 5 in q;
  }

  function ScenarioA(): GameObject
  {
    GameObject(1, [
      Some(Component(Transform, [ObjectField(Some(ComponentRef(9)))], [])),
      Some(Component(Other, [
        ObjectField(Some(GameObjectRef(2))),
        PlainField,
        EnumerableField(Some([Some(GameObjectRef(3)), Some(ComponentRef(4))]))], []))])
  }

  function ScenarioPool(): seq<GameObject>
  {
    [ScenarioA(), GameObject(2, [Some(BareTransform())]), GameObject(3, [Some(BareTransform())]), GameObject(4, [Some(BareTransform())]),
     GameObject(5, [Some(Component(Other, [ObjectField(Some(GameObjectRef(1)))], [PlainProperty]))])]
  }

  /** A Transform with no slots of its own. */
  function BareTransform(): Component
  {
    Component(Transform, [], [])
  }

}
