/**
 The editor-wide state of the visualizer and its two event handlers: a selection change,
 which recomputes the reference sets, and a hierarchy row report, which records the row's
 rectangle and, on a repaint, yields the curves to draw.
 */
module Visualizer {
  import opened Wrappers
  import opened Scene
  import opened Extractor
  import ExtractorLemmas
  import opened Geometry

  /**
   The static fields of the visualizer: the selection, the two reference sets, the last
   rectangle reported for each row, and the last rectangle reported for the selected row.
   */
  datatype State = State(
    selected: Option<GameObject>,
    referenced: set<ObjId>,
    referencing: set<ObjId>,
    itemRects: map<ObjId, Rect>,
    selectedRect: Rect)

  /** The state at editor start-up. */
  const Initial: State := State(None, {}, {}, map[], Zero)

  /** The reference sets fit the selection: empty without one, and never holding it. */
  predicate Valid(st: State)
  {
    && (st.selected.None? ==> st.referenced == {} && st.referencing == {})
    && (st.selected.Some? ==> st.selected.value.id !in st.referenced && st.selected.value.id !in st.referencing)
  }

  /**
   OnSelectionChanged: outside a prefab stage nothing happens. Inside one, the active
   GameObject becomes the selection and both sets are rebuilt from it and from `pool`, the
   active GameObjects under the prefab root; the row rectangles are left as they were.
   */
  function OnSelectionChanged(st: State, inPrefabStage: bool, active: Option<GameObject>, pool: seq<GameObject>): (r: State)
    ensures !inPrefabStage ==> r == st
    ensures inPrefabStage ==> r.selected == active && Valid(r)
    ensures r.itemRects == st.itemRects && r.selectedRect == st.selectedRect
  {
    if !inPrefabStage then st
    else st.(selected := active, referenced := ReferencedObjects(active), referencing := ReferencingObjects(active, pool))
  }

  /** One curve per related object, keyed by that object; the drawing order is not modelled. */
  datatype CurvePass = CurvePass(outgoing: map<ObjId, Curve>, incoming: map<ObjId, Curve>)

  const NoCurves: CurvePass := CurvePass(map[], map[])

  /**
   DrawLineToObject: a blue curve from the selected row to the target's row, or a red one
   from the target's row to the selected row. A target without a recorded row is drawn
   against the edge rectangle instead.
   */
  function LineToObject(st: State, t: ObjId, panel: Rect, isReferencing: bool): (c: Curve)
    ensures isReferencing ==> c.to == st.selectedRect && c.color == Red
    ensures !isReferencing ==> c.from == st.selectedRect && c.color == Blue
    ensures var far := if isReferencing then c.from else c.to;
      && (t in st.itemRects ==> far == st.itemRects[t])
      && (t !in st.itemRects ==> far == EdgeRect(st.selectedRect, panel, isReferencing))
  {
    var target := if t in st.itemRects then st.itemRects[t] else EdgeRect(st.selectedRect, panel, isReferencing);
    if isReferencing then Curve(target, st.selectedRect, Red) else Curve(st.selectedRect, target, Blue)
  }

  /**
   DrawCurves: nothing while the selected row has no rectangle; otherwise one outgoing curve
   per referenced object and one incoming curve per referencing object.
   */
  function DrawCurves(st: State, panel: Rect): (p: CurvePass)
    ensures st.selectedRect == Zero ==> p == NoCurves
    ensures st.selectedRect != Zero ==> p.outgoing.Keys == st.referenced && p.incoming.Keys == st.referencing
    ensures forall t :: t in p.outgoing ==> p.outgoing[t] == LineToObject(st, t, panel, false)
    ensures forall t :: t in p.incoming ==> p.incoming[t] == LineToObject(st, t, panel, true)
  {
    if st.selectedRect == Zero then NoCurves
    else CurvePass(
      map t | t in st.referenced :: LineToObject(st, t, panel, false),
      map t | t in st.referencing :: LineToObject(st, t, panel, true))
  }

  /** What the host reports for one hierarchy row. */
  datatype RowEvent = RowEvent(instanceId: ObjId, isGameObject: bool, rect: Rect, isRepaint: bool)

  /** The state after an event and the curves it draws. */
  datatype Frame = Frame(state: State, curves: CurvePass)

  /**
   OnHierarchyWindowItemOnGUI: ignored outside a prefab stage, without a selection, or for a
   row that is not a GameObject. Otherwise the row's rectangle is recorded, also as the
   selected rectangle when the row is the selection's, and a repaint draws the curves from
   the updated state.
   */
  function OnRowReport(st: State, inPrefabStage: bool, ev: RowEvent, panel: Rect): (f: Frame)
    ensures !inPrefabStage || st.selected.None? || !ev.isGameObject ==> f == Frame(st, NoCurves)
    ensures inPrefabStage && st.selected.Some? && ev.isGameObject ==>
      && f.state.itemRects.Keys == st.itemRects.Keys + {ev.instanceId}
      && f.state.itemRects[ev.instanceId] == ev.rect
      && (forall k :: k in st.itemRects && k != ev.instanceId ==> f.state.itemRects[k] == st.itemRects[k])
      && (ev.instanceId == st.selected.value.id ==> f.state.selectedRect == ev.rect)
      && (ev.instanceId != st.selected.value.id ==> f.state.selectedRect == st.selectedRect)
      && f.state.selected == st.selected && f.state.referenced == st.referenced && f.state.referencing == st.referencing
      && f.curves == (if ev.isRepaint then DrawCurves(f.state, panel) else NoCurves)
  {
    if !inPrefabStage || st.selected.None? || !ev.isGameObject then Frame(st, NoCurves)
    else
      var rects := st.itemRects[ev.instanceId := ev.rect];
      var selectedRect := if ev.instanceId == st.selected.value.id then ev.rect else st.selectedRect;
      var st' := st.(itemRects := rects, selectedRect := selectedRect);
      Frame(st', if ev.isRepaint then DrawCurves(st', panel) else NoCurves)
  }

  // ---------------------------------------------------------------------------------------
  // Properties across events

  lemma InitialValid()
    ensures Valid(Initial)
  {
  }

  /** Both handlers keep the reference sets consistent with the selection. */
  lemma EventsPreserveValid(st: State, inPrefabStage: bool, active: Option<GameObject>, pool: seq<GameObject>, ev: RowEvent, panel: Rect)
    requires Valid(st)
    ensures Valid(OnSelectionChanged(st, inPrefabStage, active, pool))
    ensures Valid(OnRowReport(st, inPrefabStage, ev, panel).state)
  {
  }

  /**
   A recomputation keeps nothing of the sets it replaces: in a prefab stage, after a
   selection change the outgoing set holds exactly the objects the new selection refers to
   and the incoming set exactly the candidates referring to it, whatever the state before.
   */
  lemma SelectionChangeRebuildsSets(st: State, active: Option<GameObject>, pool: seq<GameObject>, id: ObjId)
    ensures var r := OnSelectionChanged(st, true, active, pool);
      && (id in r.referenced <==> active.Some? && RefersTo(active.value, id))
      && (id in r.referencing <==>
            active.Some? && exists k :: 0 <= k < |pool| && pool[k].id == id && ReferencesSelected(active.value.id, pool[k]))
  {
    if active.Some? {
      ReferencedObjectsSpec(active.value, id);
      ReferencingObjectsSpec(active.value, pool, id);
    }
  }

  /**
   A row reported by the host on a repaint is where the curves to it are drawn: the outgoing
   curve to a referenced object whose row was just reported ends on that row's left edge at
   mid-height, and the incoming curve from a referencing object starts inset from its left edge.
   */
  lemma ReportedRowAnchorsCurves(st: State, ev: RowEvent, panel: Rect)
    requires Valid(st) && st.selected.Some? && st.selectedRect != Zero
    requires ev.isGameObject && ev.isRepaint
    ensures var f := OnRowReport(st, true, ev, panel);
      && (ev.instanceId in st.referenced ==>
            ev.instanceId in f.curves.outgoing
            && BezierOf(f.curves.outgoing[ev.instanceId]).end == Point(ev.rect.x, ev.rect.y + ev.rect.height / 2.0))
      && (ev.instanceId in st.referencing ==>
            ev.instanceId in f.curves.incoming
            && BezierOf(f.curves.incoming[ev.instanceId]).start == Point(ev.rect.x + StartInset, ev.rect.y + ev.rect.height / 2.0))
  {
  }

  /**
   An object whose row has never been reported is drawn against the panel's edge: the
   outgoing curve ends half a row above the bottom edge, the incoming curve starts half a row
   below the top edge, both aligned with the selected row.
   */
  lemma OffscreenTargetsUsePanelEdge(st: State, panel: Rect, t: ObjId)
    requires st.selectedRect != Zero && t !in st.itemRects
    ensures var p := DrawCurves(st, panel);
      && (t in st.referenced ==>
            BezierOf(p.outgoing[t]).end == Point(st.selectedRect.x, panel.YMax() - st.selectedRect.height / 2.0))
      && (t in st.referencing ==>
            BezierOf(p.incoming[t]).start == Point(st.selectedRect.x + StartInset, panel.YMin() + st.selectedRect.height / 2.0))
  {
  }

  /**
   While the selected row has no rectangle, a report of any other row draws nothing, even on
   a repaint.
   */
  lemma NoCurvesBeforeSelectedRow(st: State, inPrefabStage: bool, ev: RowEvent, panel: Rect)
    requires st.selectedRect == Zero
    requires st.selected.Some? ==> ev.instanceId != st.selected.value.id
    ensures OnRowReport(st, inPrefabStage, ev, panel).curves == NoCurves
  {
  }

  /**
   A selection whose only component is its Transform references nothing; a pool whose
   objects have nothing but Transforms (or missing scripts) does not reference it; and so a
   curve pass draws nothing for it.
   */
  lemma TransformOnlySelection(st: State, id: ObjId, t: Component, pool: seq<GameObject>, panel: Rect)
    requires t.kind == Transform
    requires forall k, i :: 0 <= k < |pool| && 0 <= i < |pool[k].components| ==>
      pool[k].components[i].None? || pool[k].components[i].value.kind == Transform
    ensures var r := OnSelectionChanged(st, true, Some(GameObject(id, [Some(t)])), pool);
      && r.referenced == {}
      && r.referencing == {}
      && DrawCurves(r, panel) == NoCurves
  {
    ExtractorLemmas.ObjectValuesSingle(Some(t));
  }

}
