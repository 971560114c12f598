/**
 The object graph the visualizer inspects. Unity discovers the reference-typed slots of a
 component by reflection at run time; here every component declares them, in the order
 reflection would enumerate them, with the shape of the slot as its tag.
 */
module Scene {
  import opened Wrappers

  /** The instance id of a Unity object; it is also its identity. */
  type ObjId = int

  /** A non-null value of a slot whose type derives from `UnityEngine.Object`. */
  datatype Ref =
    | GameObjectRef(id: ObjId)     // a GameObject
    | ComponentRef(owner: ObjId)   // a Component; `owner` is the id of its `gameObject`
    | AssetRef                     // any other Object: a material, a mesh, a texture, ...

  /**
   The component types the scans distinguish. The Transform test is on the exact type, so
   a RectTransform (a subclass of Transform) is not excluded by it. Renderer and MeshFilter
   are checked with `is`, so `Renderer` stands for every renderer subclass too.
   */
  datatype Kind = Transform | RectTransform | Renderer | MeshFilter | Other

  /** The outcome of calling a property getter. */
  datatype Getter = Returns(value: Option<Ref>) | Throws

  /**
   An instance field, tagged with the first of the three type tests it passes:
   assignable to Object, to `IEnumerable<Object>`, or an array of an Object type.
   Arrays of reference types are covariant in C#, so a `GameObject[]` field already passes the
   enumerable test and is an `EnumerableField`. Only a multi-dimensional array such as
   `GameObject[,]` fails that test and passes the array test; it is an `ArrayField`, and its
   value is never read (see `Extractor.FieldValues`). A field of any other type is a `PlainField`.
   */
  datatype Field =
    | ObjectField(value: Option<Ref>)
    | EnumerableField(items: Option<seq<Option<Ref>>>)
    | ArrayField
    | PlainField

  /** An instance property: one whose type is assignable to Object, or any other. */
  datatype Property =
    | ObjectProperty(canRead: bool, getter: Getter)
    | PlainProperty

  datatype Component = Component(kind: Kind, fields: seq<Field>, properties: seq<Property>)

  /** A GameObject with its components; a missing script component is `None`. */
  datatype GameObject = GameObject(id: ObjId, components: seq<Option<Component>>)

  /**
   The GameObject a value stands for: the object itself, or the owner of a component.
   Null values and other assets stand for no GameObject.
   */
  function Owner(v: Option<Ref>): Option<ObjId>
  {
    match v
    case None => None
    case Some(GameObjectRef(id)) => Some(id)
    case Some(ComponentRef(owner)) => Some(owner)
    case Some(AssetRef) => None
  }

}
