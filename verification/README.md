# Hierarchy reference visualizer — a Dafny model

The visualizer is a Unity editor extension. While a prefab is open for editing, it works from the selected GameObject. It finds the GameObjects the selection's components point at (the *referenced* set). It finds the active GameObjects under the prefab root whose components point at the selection or at one of its components (the *referencing* set). It then draws curves over the Hierarchy window: a blue curve from the selected row to each referenced object's row, and a red curve from each referencing object's row to the selected row.

This project models the two parts of `HierarachyReferenceVisualizer.cs` that carry logic:

- **Reference extraction** (`Extractor`, `ExtractorLemmas`). Unity reflection is replaced by declared slots.
  - A component (`Scene.Component`) has a kind: Transform, RectTransform, Renderer, MeshFilter or Other.
  - It has a list of fields. Each field is tagged with the first type test it passes: `ObjectField`, `EnumerableField`, `ArrayField` or `PlainField`.
  - It has a list of properties. A property is either an Object-typed property, with a `canRead` flag and a getter that returns a value or throws, or a `PlainProperty` of any other type.
  - A value is `None` when it is null, `GameObjectRef(id)`, `ComponentRef(ownerId)` or `AssetRef`.
  - The outgoing set is a fold of `AddReferencedObject` over the values the outgoing scan reads.
  - The incoming scan of one candidate is a method. Its loops keep the source's early exits, and it is proved equal to an existential predicate.
  - Both sets are proved equal to slot-by-slot statements: which component, which field or property, and which value.
- **Overlay state and curve geometry** (`Geometry`, `Visualizer`).
  - The static fields of the visualizer form a `State` record.
  - A selection change and a row report are transition functions on that record.
  - A repaint yields one `Curve` (from-rect, to-rect, colour) per related object.
  - `BezierOf` gives each curve's start point, end point and tangent handles.

Some behaviour is modelled as the code has it:

- The Transform test compares the exact type (`GetType()==typeof(Transform)`). A RectTransform is therefore scanned like any other component (`ExtractorLemmas.RectTransformIsScanned`). Renderer and MeshFilter are checked with `is`, so their subclasses are covered.
- The incoming field scan has no array arm (lines 88-105), while the outgoing scan has one (lines 50-55). The missing arm makes no difference. In C#, a one-dimensional array of an Object type, such as `GameObject[]`, is covariant and already passes the `IEnumerable<Object>` test at lines 45 and 95, so both scans find it (`ExtractorLemmas.ObjectArrayFoundBothWays`). The only fields that reach line 50 are multi-dimensional arrays such as `GameObject[,]`. For those, the `as Object[]` cast at line 51 is null, so the arm adds nothing (`ExtractorLemmas.ArrayArmAddsNothing`). Such a field is an `ArrayField` with no payload, and both scans therefore read the same values.
- The incoming scan reads properties as well as fields (lines 108-121), under the same Renderer/MeshFilter and throwing-getter rules as the outgoing scan.
- Outside a prefab stage, a selection change returns before touching anything (line 25). The old selection and both sets stay as they were; they are not cleared.
- `UpdateReferences` is only reached from inside a prefab stage, so the candidate pool always comes from line 75. `GetComponentsInChildren<Transform>()` is called there without `includeInactive`, so the pool holds only the *active* GameObjects under the prefab root. An inactive object that references the selection is never in the referencing set. The pool is an input sequence. It contains the selection only when the selection is one of those active objects, and line 81 skips the selection when it is there.
- Row rectangles are never removed from `itemRects`. A selection change resets neither `itemRects` nor `selectedRect`. A row that has scrolled out of view keeps its last rectangle, and curves are drawn to that rectangle rather than to the panel edge.
- A curve starts 15 units right of the source row's *left* edge (`xMin+15`, line 190), not at its right edge.

## Model

| member | source | states |
|---|---|---|
| `Extractor.ScanCandidate` | HierarachyReferenceVisualizer.cs:82-123 | the short-circuiting loop nest returns true exactly when some scanned component has a field, enumerable item or consulted property pointing at the selection; the `break`s change no answer |
| `Extractor.UpdateReferences` | HierarachyReferenceVisualizer.cs:30-126 | both sets start empty and stay empty for a null selection; otherwise the referenced set holds exactly the GameObjects the selection refers to, and the referencing set exactly the pool members, other than the selection, that refer to it |
| `Extractor.AddReferenced` | HierarachyReferenceVisualizer.cs:136-142 | repeated AddReferencedObject adds, to what was there, exactly the owning GameObjects of the values other than the selection; nulls and non-GameObject, non-Component values add nothing |
| `Extractor.IsReferencingSelected` | HierarachyReferenceVisualizer.cs:128-134 | a value references the selection exactly when its owning GameObject is the selection, the same normalisation the outgoing scan uses |
| `Extractor.ObjectValuesSpec` | HierarachyReferenceVisualizer.cs:37-68 | the values a scan reads are exactly those some non-missing, non-Transform component holds in a consulted field or property |
| `Extractor.ComponentMatchesSpec` | HierarachyReferenceVisualizer.cs:86-121 | a component matches the selection exactly when one of the values the incoming scan reads from it has the selection as owner |
| `Extractor.CandidateMatchesSpec` | HierarachyReferenceVisualizer.cs:84-123 | the per-candidate test holds exactly when some scanned component holds, in a consulted slot, a value owned by the selection |
| `Extractor.ReferencedObjectsSpec` | HierarachyReferenceVisualizer.cs:36-69 | an id is in the referenced set iff it is not the selection and some scanned component of the selection holds that GameObject or one of its components in a consulted slot |
| `Extractor.ReferencingObjectsSpec` | HierarachyReferenceVisualizer.cs:80-125 | an id is in the referencing set iff it is the id of a pool member other than the selection that holds the selection or one of its components in a consulted slot |
| `Extractor.SelectionExcluded` | HierarachyReferenceVisualizer.cs:136-142 | the selection is never in the referenced set (line 141) nor in the referencing set (line 81) |
| `ExtractorLemmas.TransformContributesNothing` | HierarachyReferenceVisualizer.cs:39 | inserting a Transform component, with any slots, anywhere in a component list leaves the values read unchanged |
| `ExtractorLemmas.TransformIgnoredBySets` | HierarachyReferenceVisualizer.cs:83-85 | a Transform component changes neither the referenced set of a selection nor the incoming test of a candidate |
| `ExtractorLemmas.PropertiesNeverReadOn` | HierarachyReferenceVisualizer.cs:63 | on a Renderer or MeshFilter, no property yields a value |
| `ExtractorLemmas.RendererPropertiesIgnored` | HierarachyReferenceVisualizer.cs:59-68 | a Renderer or MeshFilter contributes its fields only, to either scan, whatever properties it exposes |
| `ExtractorLemmas.ThrowingGetterSkipped` | HierarachyReferenceVisualizer.cs:109-121 | a throwing getter yields nothing and the scan goes on: the values read are those of the properties before it followed by those after it |
| `ExtractorLemmas.ArrayArmAddsNothing` | HierarachyReferenceVisualizer.cs:50-55 | a field that reaches the array arm (a multi-dimensional array, whose `as Object[]` cast is null) adds nothing: a selection holding only such a field references no GameObject |
| `ExtractorLemmas.ObjectArrayFoundBothWays` | HierarachyReferenceVisualizer.cs:95-104 | a `GameObject[]` field passes the enumerable test, so the object it holds is in the holder's referenced set and the holder is in that object's referencing set |
| `ExtractorLemmas.ScenarioOutgoing` | HierarachyReferenceVisualizer.cs:36-69 | a selection with a Transform, a field holding B and a list holding C and a component of D references exactly {B, C, D} |
| `ExtractorLemmas.ScenarioIncoming` | HierarachyReferenceVisualizer.cs:80-125 | in a pool where only E holds the selection in a field, the referencing set is exactly {E} |
| `ExtractorLemmas.RectTransformIsScanned` | HierarachyReferenceVisualizer.cs:39 | the Transform test is on the exact type, so a RectTransform's readable property returning a component of another GameObject puts that GameObject in the referenced set |
| `Geometry.EdgeRect` | HierarachyReferenceVisualizer.cs:179-186 | the stand-in rectangle keeps the selected row's x, width and height and lies on the panel's top edge (incoming) or with its bottom on the panel's bottom edge (outgoing) |
| `Geometry.BezierOf` | HierarachyReferenceVisualizer.cs:188-196 | the curve starts 15 right of the source's left edge and ends on the destination's left edge, both at mid-height (inside the rectangle when its height is non-negative), with horizontal handles of length 50 pointing right out of the start and left into the end |
| `Visualizer.OnSelectionChanged` | HierarachyReferenceVisualizer.cs:23-28 | outside a prefab stage the state is unchanged; inside one the active object becomes the selection and the sets are consistent with it; row rectangles are kept either way |
| `Visualizer.LineToObject` | HierarachyReferenceVisualizer.cs:165-177 | an outgoing curve is blue and runs from the selected row, an incoming one is red and runs to it; the other end is the target's recorded row, or the edge rectangle when there is none |
| `Visualizer.DrawCurves` | HierarachyReferenceVisualizer.cs:156-163 | nothing while the selected rectangle is zero; otherwise exactly one curve per referenced object and one per referencing object |
| `Visualizer.OnRowReport` | HierarachyReferenceVisualizer.cs:144-154 | ignored outside a prefab stage, without a selection or for a non-GameObject row; otherwise only the reported row's entry changes, the selected rectangle changes only for the selection's row, and a repaint draws from the updated state |
| `Visualizer.InitialValid` | HierarachyReferenceVisualizer.cs:11-15 | the start-up state has no selection and empty sets |
| `Visualizer.EventsPreserveValid` | HierarachyReferenceVisualizer.cs:23-34 | after either event the sets are empty without a selection and never contain the selection |
| `Visualizer.SelectionChangeRebuildsSets` | HierarachyReferenceVisualizer.cs:30-34 | in a prefab stage, after a selection change the sets are determined by the new selection and pool alone, so nothing stale survives |
| `Visualizer.ReportedRowAnchorsCurves` | HierarachyReferenceVisualizer.cs:151-153 | on a repaint, the curve to a just-reported referenced row ends at that row's left edge and mid-height, and the curve from a just-reported referencing row starts 15 in from its left edge at mid-height |
| `Visualizer.OffscreenTargetsUsePanelEdge` | HierarachyReferenceVisualizer.cs:171-186 | a related object with no recorded row is joined at the panel edge, aligned with the selected row: half a row above the bottom edge for outgoing, half a row below the top edge for incoming |
| `Visualizer.NoCurvesBeforeSelectedRow` | HierarachyReferenceVisualizer.cs:158 | while the selected rectangle is zero, a report of any other row draws nothing |
| `Visualizer.TransformOnlySelection` | HierarachyReferenceVisualizer.cs:38-39 | a selection with only a Transform, among objects that have only Transforms or missing scripts, gets empty referenced and referencing sets, and a curve pass draws nothing |

## Left out

- Reflection (`GetFields`, `GetProperties`, `IsAssignableFrom`, `GetValue`): each component declares its slots, and the type tests become the slot's tag.
- Unity's overloaded null test for destroyed objects: null and destroyed values are both `None`.
- The static constructor's event subscriptions, `Selection.activeGameObject`, `PrefabStageUtility`, `GetComponentsInChildren` and `EditorUtility.InstanceIDToObject`: these host services are parameters. The prefab-stage flag is a boolean, the active object and the candidate pool are inputs, and the row's resolution to a GameObject is the `isGameObject` flag.
- The scene-root branch at line 78: `UpdateReferences` runs only inside a prefab stage, so that branch is never taken.
- `GetHierarchyWindowRect` (lines 198-204): the window search over all editor windows, with its screen fallback, is host lookup. The panel rectangle is a parameter.
- Drawing itself (`Handles.BeginGUI`, `Handles.DrawBezier`, `Handles.color`) and `Event.current`: the curve pass returns the curves, and "is a repaint" is a boolean.
- Single-precision float rounding of `Rect` and `Vector2` arithmetic: coordinates are exact reals.
- `Visualizer.DrawCurves`: returns one curve per target in a map. It does not model the order in which the curves are drawn: hash-set order within a colour, and blue before red.
- Property getters are pure values (`Getter` returns a value or throws). Their side effects are not modelled. Both scans call every readable Object-typed getter on components other than Renderer and MeshFilter, and some built-in getters instantiate assets. The Renderer/MeshFilter exclusion exists to avoid exactly that. A getter that changes slots scanned later is not modelled either.
- The `includeInactive` choice at line 75: the pool is given as an input, so which objects the host enumerates is the caller's business.
- Exceptions thrown while reading a field: the source does not catch them, and the model gives every field a value.
