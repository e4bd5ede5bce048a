/**
 * The editor's session state (script.js lines 36-46 and 157-262): the
 * history stack of edit snapshots and its index, the operations that push,
 * load, undo and redo, the mask-list operations that change the current
 * snapshot in place before pushing, the wiring of the tone-curve widget
 * into the history, the canvas tool handlers, and what `render` composes
 * for the current snapshot.
 *
 * A snapshot's tone-curve points are the curve widget's live point list,
 * held by reference (line 205): the `curve` field of an entry is a
 * `PointList` object. The first render takes the live widget out of the
 * page (lines 76, 209, 269), so once there is history no edit reaches
 * that list through the widget.
 */
module History {
  import opened Wrappers
  import opened Bytes
  import opened EditParams
  import opened ToneCurves
  import opened Masks
  import opened Compositor
  import Crop

  /** One history entry: `{ globalEdits, masks, activeMaskId, actionName }`. */
  datatype Entry = Entry(global: Adjustments, curve: PointList, masks: seq<Mask>,
                         activeMaskId: Option<string>, actionName: string)

  /** `historyStack` with `historyIndex`. */
  datatype Timeline = Timeline(stack: seq<Entry>, index: int)

  /** The index points into the stack, and is -1 exactly when the stack is empty. */
  predicate Bounded(t: Timeline)
  {
    -1 <= t.index < |t.stack| && (t.index == -1 <==> t.stack == [])
  }

  /**
   * `historyStack.slice(0, historyIndex + 1)`, then `push(e)` and
   * `historyIndex++` (line 208): everything up to the index is kept in
   * order, everything after it is dropped, and the index lands on e.
   */
  function Pushed(t: Timeline, e: Entry): (r: Timeline)
    requires Bounded(t)
    ensures Bounded(r) && r.index == |r.stack| - 1 && r.index == t.index + 1
    ensures r.stack[..r.index] == t.stack[..t.index + 1] && r.stack[r.index] == e
  {
    Timeline(t.stack[..t.index + 1] + [e], t.index + 1)
  }

  /** `loadState(i)` (lines 211-213): moves the index to i when i names an entry. */
  function Loaded(t: Timeline, i: int): (r: Timeline)
    ensures r.stack == t.stack
    ensures r.index == (if 0 <= i < |t.stack| then i else t.index)
  {
    if i < 0 || i >= |t.stack| then t else t.(index := i)
  }

  /** `undo` (line 230). */
  function Undone(t: Timeline): Timeline
  {
    if t.index > 0 then Loaded(t, t.index - 1) else t
  }

  /** `redo` (line 231). */
  function Redone(t: Timeline): Timeline
  {
    if t.index < |t.stack| - 1 then Loaded(t, t.index + 1) else t
  }

  /** Loading, undoing and redoing keep the stack and keep the index in range. */
  lemma {:induction false} MovesStayBounded(t: Timeline, i: int)
    requires Bounded(t)
    ensures Bounded(Loaded(t, i)) && Bounded(Undone(t)) && Bounded(Redone(t))
    ensures Undone(t).stack == t.stack && Redone(t).stack == t.stack
    ensures t.index >= 0 ==> Undone(t).index >= 0 && Redone(t).index >= 0
  {
  }

  /** Undo steps back exactly when there is an earlier entry, redo forward when there is a later one. */
  lemma UndoRedoSteps(t: Timeline)
    requires Bounded(t)
    ensures Undone(t).index == (if t.index > 0 then t.index - 1 else t.index)
    ensures Redone(t).index == (if t.index < |t.stack| - 1 then t.index + 1 else t.index)
  {
  }

  /** Redo undoes an undo, and undo undoes a redo. */
  lemma UndoRedoInverse(t: Timeline)
    requires Bounded(t)
    ensures t.index > 0 ==> Redone(Undone(t)) == t
    ensures t.index < |t.stack| - 1 && t.index >= 0 ==> Undone(Redone(t)) == t
  {
  }

  /** A push leaves nothing to redo, and undo after it returns to the entry that was current. */
  lemma {:induction false} PushThenUndoRedo(t: Timeline, e: Entry)
    requires Bounded(t)
    ensures Redone(Pushed(t, e)) == Pushed(t, e)
    ensures t.index >= 0 ==>
      Undone(Pushed(t, e)).index == t.index && Undone(Pushed(t, e)).stack[t.index] == t.stack[t.index]
  {
    var r := Pushed(t, e);
    if t.index >= 0 {
      assert r.stack[t.index] == r.stack[..r.index][t.index];
    }
  }

  /** Replaces the current entry: the in-place changes to `historyStack[historyIndex]`. */
  function Amended(t: Timeline, e: Entry): (r: Timeline)
    requires 0 <= t.index < |t.stack|
    ensures r.index == t.index && |r.stack| == |t.stack| && r.stack[r.index] == e
    ensures forall k :: 0 <= k < |t.stack| && k != t.index ==> r.stack[k] == t.stack[k]
  {
    t.(stack := t.stack[t.index := e])
  }

  /**
   * What `pushHistory` starts from (line 196): the current entry, or with
   * an empty history the default edits, no masks and no active mask. The
   * curve field of the default is never read, because line 205 replaces it.
   */
  function Source(t: Timeline, live: PointList): Entry
    requires Bounded(t)
  {
    if t.index > -1 then t.stack[t.index] else Entry(Zero, live, [], None, "")
  }

  /** Position of the first mask with this id: `masks.find(m => m.id === id)`. */
  function FindMask(masks: seq<Mask>, id: string): (r: Option<nat>)
    ensures r.Some? ==> r.value < |masks| && masks[r.value].id == id
    ensures r.Some? ==> forall k :: 0 <= k < r.value ==> masks[k].id != id
    ensures r.None? ==> forall k :: 0 <= k < |masks| ==> masks[k].id != id
  {
    if masks == [] then None
    else if masks[0].id == id then Some(0)
    else match FindMask(masks[1..], id)
      case None => None
      case Some(k) => Some(k + 1)
  }

  /**
   * The mask panel's read-back (line 202): when an active id is set and a
   * mask with that id exists, the first such mask takes the panel's slider
   * values; every other mask is copied as it was.
   */
  function PanelInto(masks: seq<Mask>, active: Option<string>, sliders: map<Field, real>): (r: seq<Mask>)
  {
    if active.None? then masks
    else match FindMask(masks, active.value)
      case None => masks
      case Some(k) => masks[k := masks[k].(edits := Overlay(masks[k].edits, sliders))]
  }

  /** The read-back changes at most the edits of the first mask carrying the active id. */
  lemma PanelIntoSpec(masks: seq<Mask>, active: Option<string>, sliders: map<Field, real>)
    ensures var r := PanelInto(masks, active, sliders);
      && |r| == |masks|
      && (forall k :: 0 <= k < |r| ==> r[k].id == masks[k].id && r[k].name == masks[k].name && r[k].shape == masks[k].shape)
      && (forall k :: 0 <= k < |r| && (active.None? || FindMask(masks, active.value) != Some(k)) ==> r[k] == masks[k])
      && (active.Some? && FindMask(masks, active.value).Some? ==>
            var k := FindMask(masks, active.value).value;
            r[k].edits == Overlay(masks[k].edits, sliders))
  {
  }

  /**
   * The entry `pushHistory` appends (lines 197-206): a copy of the source
   * entry with the global sliders and the active mask's sliders read back,
   * the curve widget's live point list, and the action name.
   */
  function Snapshot(src: Entry, globalSliders: map<Field, real>, maskSliders: map<Field, real>,
                    live: PointList, name: string): (r: Entry)
    ensures r.curve == live && r.actionName == name && r.activeMaskId == src.activeMaskId
  {
    Entry(Overlay(src.global, globalSliders), live, PanelInto(src.masks, src.activeMaskId, maskSliders),
          src.activeMaskId, name)
  }

  /**
   * A snapshot keeps the source's mask list (same ids, names, shapes, in
   * order); without an active mask the masks are copied unchanged, and each
   * global parameter is the slider's value when a slider exists for it.
   */
  lemma SnapshotKeeps(src: Entry, globalSliders: map<Field, real>, maskSliders: map<Field, real>,
                      live: PointList, name: string, f: Field)
    ensures var r := Snapshot(src, globalSliders, maskSliders, live, name);
      && |r.masks| == |src.masks|
      && (forall k :: 0 <= k < |r.masks| ==> r.masks[k].id == src.masks[k].id && r.masks[k].shape == src.masks[k].shape)
      && (src.activeMaskId.None? ==> r.masks == src.masks)
      && Get(r.global, f) == (if f in globalSliders then globalSliders[f] else Get(src.global, f))
  {
    PanelIntoSpec(src.masks, src.activeMaskId, maskSliders);
    OverlayGet(src.global, globalSliders, f);
  }

  /** `state.masks.filter(m => m.id !== id)`. */
  function Removed(masks: seq<Mask>, id: string): seq<Mask>
  {
    if masks == [] then []
    else if masks[0].id == id then Removed(masks[1..], id)
    else [masks[0]] + Removed(masks[1..], id)
  }

  /** The filter drops exactly the masks with that id and keeps the rest. */
  lemma {:induction false} RemovedSpec(masks: seq<Mask>, id: string)
    ensures |Removed(masks, id)| <= |masks|
    ensures forall m :: m in Removed(masks, id) <==> m in masks && m.id != id
  {
    if masks != [] {
      RemovedSpec(masks[1..], id);
      assert masks == [masks[0]] + masks[1..];
    }
  }

  /** `deleteActiveMask` on the current entry (line 236): drop the active mask and clear the selection. */
  function WithoutActive(e: Entry): Entry
    requires e.activeMaskId.Some?
  {
    e.(masks := Removed(e.masks, e.activeMaskId.value), activeMaskId := None)
  }

  /** Lines 234 and 241: append a new mask to the current entry and make it the active one. */
  function WithMask(e: Entry, m: Mask): (r: Entry)
    ensures r.masks == e.masks + [m] && r.activeMaskId == Some(m.id)
  {
    e.(masks := e.masks + [m], activeMaskId := Some(m.id))
  }

  /** The id `'mask_' + Date.now()`, for the clock reading given as text. */
  function MaskId(stamp: string): string
  {
    "mask_" + stamp
  }

  /** The drag recorded by the radial tool: `radialMaskParams`. */
  datatype RadialDrag = RadialDrag(startX: real, startY: real, endX: real, endY: real)

  /**
   * The radial commit of line 241: centre at the drag's start, radii the
   * distances to its end; a drag shorter than 5 in either direction makes
   * no mask. The new mask starts from the default edits.
   */
  function RadialMask(d: RadialDrag, stamp: string): (r: Option<Mask>)
    ensures r.Some? <==> Crop.Abs(d.endX - d.startX) >= 5.0 && Crop.Abs(d.endY - d.startY) >= 5.0
    ensures r.Some? ==> r.value == Mask(MaskId(stamp), "Radial Gradient",
                                        Radial(d.startX, d.startY, Crop.Abs(d.endX - d.startX), Crop.Abs(d.endY - d.startY)),
                                        Zero)
  {
    var rx := Crop.Abs(d.endX - d.startX);
    var ry := Crop.Abs(d.endY - d.startY);
    if rx < 5.0 || ry < 5.0 then None
    else Some(Mask(MaskId(stamp), "Radial Gradient", Radial(d.startX, d.startY, rx, ry), Zero))
  }

  /**
   * Change the current entry in place to e, then push: the history after
   * `deleteActiveMask`, a mask commit, a mask selection's edit or the
   * tone curve's `onChange`.
   */
  function AmendAndPush(t: Timeline, e: Entry, globalSliders: map<Field, real>, maskSliders: map<Field, real>,
                        live: PointList, name: string): (r: Timeline)
    requires Bounded(t) && t.index >= 0
    ensures Bounded(r) && r.index == t.index + 1
  {
    Pushed(Amended(t, e), Snapshot(e, globalSliders, maskSliders, live, name))
  }

  /**
   * The entry left behind is the changed one: undo after such an operation
   * lands on the entry as changed, not on the entry as it was before.
   */
  lemma {:induction false} UndoKeepsAmendment(t: Timeline, e: Entry, globalSliders: map<Field, real>,
                                              maskSliders: map<Field, real>, live: PointList, name: string)
    requires Bounded(t) && t.index >= 0
    ensures var u := Undone(AmendAndPush(t, e, globalSliders, maskSliders, live, name));
      u.index == t.index && u.stack[u.index] == e
  {
    var a := Amended(t, e);
    PushThenUndoRedo(a, Snapshot(e, globalSliders, maskSliders, live, name));
  }

  /** After deleting the active mask, undo cannot bring it back: no mask with its id is left in either entry. */
  lemma {:induction false} DeletedMaskStaysDeleted(t: Timeline, globalSliders: map<Field, real>,
                                                   maskSliders: map<Field, real>, live: PointList)
    requires Bounded(t) && t.index >= 0 && t.stack[t.index].activeMaskId.Some?
    ensures var id := t.stack[t.index].activeMaskId.value;
      var r := AmendAndPush(t, WithoutActive(t.stack[t.index]), globalSliders, maskSliders, live, "Delete Mask");
      && (forall m :: m in r.stack[r.index].masks ==> m.id != id)
      && (forall m :: m in Undone(r).stack[Undone(r).index].masks ==> m.id != id)
  {
    var e := t.stack[t.index];
    var id := e.activeMaskId.value;
    var w := WithoutActive(e);
    RemovedSpec(e.masks, id);
    UndoKeepsAmendment(t, w, globalSliders, maskSliders, live, "Delete Mask");
    PanelIntoSpec(w.masks, w.activeMaskId, maskSliders);
  }

  /**
   * The push after a mask is added reads the mask panel into the newly
   * selected mask (line 202): the pushed entry holds the new mask with the
   * panel's values laid over its defaults, while the entry left behind,
   * which undo returns to, holds it with its defaults. This needs the id
   * to be new; with a clash the first mask carrying it takes the values.
   */
  lemma {:induction false} NewMaskTakesPanel(t: Timeline, m: Mask, globalSliders: map<Field, real>,
                                             maskSliders: map<Field, real>, live: PointList, name: string)
    requires Bounded(t) && t.index >= 0
    requires FindMask(t.stack[t.index].masks, m.id).None?
    ensures var r := AmendAndPush(t, WithMask(t.stack[t.index], m), globalSliders, maskSliders, live, name);
      && r.stack[r.index].masks == t.stack[t.index].masks + [m.(edits := Overlay(m.edits, maskSliders))]
      && r.stack[r.index - 1].masks == t.stack[t.index].masks + [m]
  {
    var before := t.stack[t.index].masks;
    var e := WithMask(t.stack[t.index], m);
    var found := FindMask(e.masks, m.id);
    assert e.masks[|before|] == m;
    assert found == Some(|before|);
    PushThenUndoRedo(Amended(t, e), Snapshot(e, globalSliders, maskSliders, live, name));
  }

  /**
   * The tone curve's `onChange` (lines 158-161): the current entry is
   * pointed at the live list and a snapshot pushed, so the entry left
   * behind and the new one share the list, and so does the entry undo
   * returns to.
   */
  lemma {:induction false} CurveChangeShared(t: Timeline, globalSliders: map<Field, real>,
                                             maskSliders: map<Field, real>, live: PointList)
    requires Bounded(t) && t.index >= 0
    ensures var r := AmendAndPush(t, t.stack[t.index].(curve := live), globalSliders, maskSliders, live, "Adjust Tone Curve");
      && r.stack[r.index].curve == live
      && r.stack[r.index - 1].curve == live
      && Undone(r).stack[Undone(r).index].curve == live
  {
    var e := t.stack[t.index].(curve := live);
    UndoKeepsAmendment(t, e, globalSliders, maskSliders, live, "Adjust Tone Curve");
  }

  /** `currentTool`: none, the radial-mask tool or the crop tool. */
  datatype Tool = NoTool | RadialTool | CropTool

  /** The editor page: the module-level variables of script.js that the handlers update. */
  class Editor {
    /** `originalImage` and `originalImageData` are set (after `commitTransform`). */
    var hasImage: bool
    var stack: seq<Entry>
    var index: int
    /** `toneCurve`, created once when the page starts (line 157). */
    const curve: ToneCurve
    var tool: Tool
    var isDragging: bool
    var dragHandle: Option<Crop.Handle>
    var radial: RadialDrag
    var crop: Crop.CropBox
    /** `canvas.style.cursor`. */
    var cursor: string
    /**
     * The live widget's canvas and reset button are still in the page. The
     * first render takes them out for good: `applyEditsToData` builds a
     * temporary `ToneCurve` on the same container (line 269), whose `init`
     * empties it (line 76).
     */
    var curveMounted: bool

    function State(): Timeline
      reads this
    {
      Timeline(stack, index)
    }

    /** The point lists the entries hold. */
    ghost function Lists(): set<PointList>
      reads this
    {
      set k | 0 <= k < |stack| :: stack[k].curve
    }

    /**
     * The index is in range, a drag needs an image, the curve widget is
     * well formed and every list an entry holds has at least two points.
     */
    ghost predicate Sound()
      reads this, curve, curve.points, curve.points.items, Lists()
    {
      && Bounded(State())
      && (isDragging ==> hasImage)
      && curve.Valid()
      && forall k :: 0 <= k < |stack| ==> |stack[k].curve.items| >= 2
    }

    /**
     * Between handlers, there is history exactly when an image is loaded,
     * and by then the live curve widget has been taken out of the page.
     */
    ghost predicate Valid()
      reads this, curve, curve.points, curve.points.items, Lists()
    {
      Sound() && (hasImage <==> stack != []) && (hasImage ==> !curveMounted)
    }

    /** The page at start-up: no image, an empty history, the default curve. */
    constructor ()
      ensures Valid() && !hasImage && State() == Timeline([], -1)
      ensures tool == NoTool && !isDragging && dragHandle == None && curveMounted
      ensures Coords(curve.points.items) == DefaultPoints
    {
      hasImage := false;
      stack := [];
      index := -1;
      curve := new ToneCurve();
      tool := NoTool;
      isDragging := false;
      dragHandle := None;
      radial := RadialDrag(0.0, 0.0, 0.0, 0.0);
      crop := new Crop.CropBox(0.0, 0.0, 0.0, 0.0);
      cursor := "default";
      curveMounted := true;
    }

    /**
     * `pushHistory(actionName)` (lines 194-210) with the slider values it
     * reads from the page: nothing happens without an image; otherwise a
     * snapshot of the current entry is appended after it, and the render
     * that follows (line 209) unmounts the live curve widget.
     */
    method PushHistory(name: string, globalSliders: map<Field, real>, maskSliders: map<Field, real>)
      requires Sound()
      modifies this`stack, this`index, this`curveMounted
      ensures Sound() && (old(Valid()) || hasImage ==> Valid())
      ensures !hasImage ==> State() == old(State()) && curveMounted == old(curveMounted)
      ensures hasImage ==> !curveMounted
      ensures hasImage ==> State() == Pushed(old(State()), Snapshot(old(Source(State(), curve.points)), globalSliders, maskSliders, curve.points, name))
    {
      if !hasImage {
        return;
      }
      var current := Source(State(), curve.points);
      var next := Snapshot(current, globalSliders, maskSliders, curve.points, name);
      stack := stack[..index + 1] + [next];
      index := index + 1;
      curveMounted := false;
    }

    /**
     * `loadState(i)` (lines 211-229): for an index naming an entry, moves
     * there and hands the entry's points to the curve widget, which sorts
     * a copy of them; any other index changes nothing.
     */
    method LoadState(i: int)
      requires Valid()
      modifies this`index, curve
      ensures Valid()
      ensures State() == Loaded(old(State()), i)
      ensures 0 <= i < |stack| ==> fresh(curve.points) && Coords(curve.points.items) == SortPts(Coords(stack[i].curve.items))
      ensures !(0 <= i < |stack|) ==> unchanged(curve)
    {
      if i < 0 || i >= |stack| {
        return;
      }
      index := i;
      ghost var lists := Lists();
      var pts := Coords(stack[i].curve.items);
      curve.SetPoints(pts);
      assert Lists() == lists;
      assert Coords(stack[i].curve.items) == pts;
    }

    /** `undo` (line 230). */
    method Undo()
      requires Valid()
      modifies this`index, curve
      ensures Valid()
      ensures State() == Undone(old(State()))
    {
      if index > 0 {
        LoadState(index - 1);
      }
    }

    /** `redo` (line 231). */
    method Redo()
      requires Valid()
      modifies this`index, curve
      ensures Valid()
      ensures State() == Redone(old(State()))
    {
      if index < |stack| - 1 {
        LoadState(index + 1);
      }
    }

    /**
     * The history part of `commitTransform` (lines 167-172), run when an
     * image is loaded, cropped, rotated or flipped: the history is cleared
     * and a single entry with the default edits and the current sliders
     * is pushed.
     */
    method CommitTransform(name: string, globalSliders: map<Field, real>, maskSliders: map<Field, real>)
      requires Valid()
      modifies this`hasImage, this`stack, this`index, this`tool, this`curveMounted
      ensures Valid() && hasImage && tool == NoTool && !curveMounted
      ensures State() == Timeline([Entry(Overlay(Zero, globalSliders), curve.points, [], None, name)], 0)
    {
      hasImage := true;
      stack := [];
      index := -1;
      tool := NoTool;
      PushHistory(name, globalSliders, maskSliders);
    }

    /** Replace the current entry, then push a snapshot of it. */
    method AmendThenPush(e: Entry, name: string, globalSliders: map<Field, real>, maskSliders: map<Field, real>)
      requires Valid() && hasImage && |e.curve.items| >= 2
      modifies this`stack, this`index, this`curveMounted
      ensures Valid()
      ensures State() == AmendAndPush(old(State()), e, globalSliders, maskSliders, curve.points, name)
    {
      stack := stack[index := e];
      PushHistory(name, globalSliders, maskSliders);
    }

    /**
     * `deleteActiveMask` (line 236): with a mask selected, the current
     * entry loses it in place and a snapshot is pushed. With no entry at
     * all the handler fails on the missing entry and nothing changes.
     */
    method DeleteActiveMask(globalSliders: map<Field, real>, maskSliders: map<Field, real>)
      requires Valid()
      modifies this`stack, this`index, this`curveMounted
      ensures Valid()
      ensures old(index) < 0 || old(stack[index].activeMaskId).None? ==> State() == old(State())
      ensures old(index) >= 0 && old(stack[index].activeMaskId).Some? ==>
        State() == AmendAndPush(old(State()), WithoutActive(old(stack[index])), globalSliders, maskSliders, curve.points, "Delete Mask")
    {
      if index < 0 {
        return;
      }
      var current := stack[index];
      if current.activeMaskId.None? {
        return;
      }
      AmendThenPush(WithoutActive(current), "Delete Mask", globalSliders, maskSliders);
    }

    /**
     * `createSubjectMask` after segmentation (line 234): the coverage bytes
     * become an `ai` mask appended to the current entry in place and
     * selected, and a snapshot is pushed. Without a model or an image
     * nothing happens.
     */
    method AddSubjectMask(modelLoaded: bool, coverage: seq<byte>, stamp: string,
                          globalSliders: map<Field, real>, maskSliders: map<Field, real>)
      requires Valid()
      modifies this`stack, this`index, this`curveMounted
      ensures Valid()
      ensures !hasImage || !modelLoaded ==> State() == old(State())
      ensures hasImage && modelLoaded ==>
        State() == AmendAndPush(old(State()), WithMask(old(stack[index]), Mask(MaskId(stamp), "Subject 1", Ai(coverage), Zero)),
                                globalSliders, maskSliders, curve.points, "Select Subject")
    {
      if !hasImage || !modelLoaded {
        return;
      }
      var m := Mask(MaskId(stamp), "Subject 1", Ai(coverage), Zero);
      AmendThenPush(WithMask(stack[index], m), "Select Subject", globalSliders, maskSliders);
    }

    /**
     * A click on a mask in the list (line 311): the current entry's active
     * id is set in place and the current index reloaded, so no entry is
     * pushed and the curve widget is handed a sorted copy of the points.
     */
    method SelectMask(k: nat)
      requires Valid() && index >= 0 && k < |stack[index].masks|
      modifies this`stack, this`index, curve
      ensures Valid()
      ensures State() == Amended(old(State()), old(stack[index]).(activeMaskId := Some(old(stack[index].masks[k].id))))
      ensures fresh(curve.points) && Coords(curve.points.items) == SortPts(Coords(stack[index].curve.items))
    {
      var current := stack[index];
      stack := stack[index := current.(activeMaskId := Some(current.masks[k].id))];
      LoadState(index);
    }

    /**
     * The tone curve's `onChange` callback (lines 157-162). Only the live
     * widget calls it, and only while that widget is in the page, that is
     * before any image: it then returns at line 158.
     */
    method CurveChanged(globalSliders: map<Field, real>, maskSliders: map<Field, real>)
      requires Valid()
      modifies this`stack, this`index, this`curveMounted
      ensures Valid()
      ensures !hasImage ==> State() == old(State()) && curveMounted == old(curveMounted)
      ensures hasImage ==>
        State() == AmendAndPush(old(State()), old(stack[index]).(curve := curve.points),
                                globalSliders, maskSliders, curve.points, "Adjust Tone Curve")
    {
      if !hasImage {
        return;
      }
      AmendThenPush(stack[index].(curve := curve.points), "Adjust Tone Curve", globalSliders, maskSliders);
    }

    /**
     * A mouse-down on the live curve widget (lines 107-115). Once the widget
     * is out of the page no event reaches it. While it is in, there is no
     * image, so a ctrl-click that deletes a point reaches `onChange`, which
     * pushes nothing: the history never changes.
     */
    method CurveMouseDown(x: int, y: int, ctrl: bool, globalSliders: map<Field, real>, maskSliders: map<Field, real>)
      returns (deleted: bool)
      requires Valid()
      modifies this`stack, this`index, this`curveMounted, curve, curve.points
      ensures Valid() && State() == old(State())
      ensures !old(curveMounted) ==> !deleted && unchanged(curve) && unchanged(curve.points)
      ensures deleted ==> fresh(curve.points) && |curve.points.items| == old(|curve.points.items|) - 1
    {
      if !curveMounted {
        return false;
      }
      deleted := ClickCurve(x, y, ctrl);
      if deleted {
        ghost var list, items := curve.points, curve.points.items;
        CurveChanged(globalSliders, maskSliders);
        assert curve.points == list && list.items == items;
      }
    }

    /**
     * The widget's own handling of the mouse-down: the live list may grow,
     * or be replaced by a shorter one, and every entry's list keeps at
     * least two points.
     */
    method ClickCurve(x: int, y: int, ctrl: bool) returns (deleted: bool)
      requires Valid()
      modifies curve, curve.points
      ensures Valid() && State() == old(State())
      ensures deleted ==> fresh(curve.points) && |curve.points.items| == old(|curve.points.items|) - 1
    {
      ghost var live, n := curve.points, |curve.points.items|;
      deleted := curve.OnMouseDown(x, y, ctrl);
      assert |live.items| >= n by {
        if !deleted { assert |Coords(live.items)| == |live.items|; }
      }
      forall k | 0 <= k < |stack| ensures |stack[k].curve.items| >= 2 {
        if stack[k].curve != live {
          assert stack[k].curve.items == old(stack[k].curve.items);
        }
      }
    }

    /**
     * A drag on the live curve widget (lines 116-121): while it is in the
     * page, points move in place; nothing is pushed.
     */
    method CurveMouseMove(x: int, y: int)
      requires Valid()
      modifies curve.points, curve.dragging
      ensures Valid()
      ensures State() == old(State())
      ensures !curveMounted ==> unchanged(curve.points) && (curve.dragging != null ==> unchanged(curve.dragging))
    {
      if !curveMounted {
        return;
      }
      curve.OnMouseMove(x, y);
    }

    /**
     * Releasing the live curve widget's button (line 122): ending a drag
     * reaches `onChange`, which pushes nothing before an image exists.
     */
    method CurveMouseUp(globalSliders: map<Field, real>, maskSliders: map<Field, real>) returns (released: bool)
      requires Valid()
      modifies this`stack, this`index, this`curveMounted, curve
      ensures Valid() && State() == old(State())
      ensures !old(curveMounted) ==> !released && unchanged(curve)
    {
      if !curveMounted {
        return false;
      }
      released := curve.OnMouseUp();
      if released {
        CurveChanged(globalSliders, maskSliders);
      }
    }

    /**
     * The live curve widget's reset button (line 75): default points, then
     * `onChange`; out of the page, the button cannot be pressed.
     */
    method CurveReset(globalSliders: map<Field, real>, maskSliders: map<Field, real>)
      requires Valid()
      modifies this`stack, this`index, this`curveMounted, curve
      ensures Valid() && State() == old(State())
      ensures old(curveMounted) ==> Coords(curve.points.items) == DefaultPoints
      ensures !old(curveMounted) ==> unchanged(curve)
    {
      if !curveMounted {
        return;
      }
      var _ := curve.Reset();
      CurveChanged(globalSliders, maskSliders);
    }

    /** `startRadialMaskTool` (line 235). */
    method StartRadialTool()
      modifies this`tool
      ensures tool == (if hasImage then RadialTool else old(tool))
    {
      if hasImage {
        tool := RadialTool;
      }
    }

    /** `startCropTool` (line 173): a crop box covering the whole canvas. */
    method StartCropTool(width: real, height: real)
      modifies this`tool, this`crop
      ensures !hasImage ==> tool == old(tool) && crop == old(crop)
      ensures hasImage ==> tool == CropTool && fresh(crop) && crop.Value() == Crop.Box(0.0, 0.0, width, height)
    {
      if hasImage {
        tool := CropTool;
        crop := new Crop.CropBox(0.0, 0.0, width, height);
      }
    }

    /** `cancelCrop` (line 179). */
    method CancelCrop()
      modifies this`tool
      ensures tool == NoTool
    {
      tool := NoTool;
    }

    /**
     * `onCanvasMouseDown` (line 239) at canvas point (x, y): starts a drag;
     * the crop tool picks the handle under the pointer, or `move`, and its
     * cursor; the radial tool records the start point.
     */
    method OnCanvasMouseDown(x: real, y: real, handleSize: real)
      requires Valid()
      modifies this`isDragging, this`dragHandle, this`cursor, this`radial
      ensures Valid()
      ensures !hasImage ==> isDragging == old(isDragging) && dragHandle == old(dragHandle) && radial == old(radial)
      ensures hasImage ==> isDragging
      ensures hasImage && tool == CropTool ==>
        var hit := Crop.FirstGrab(crop.Value(), Crop.Handles, x, y, handleSize);
        dragHandle == Some(if hit.Some? then hit.value else Crop.Move) && cursor == Crop.Cursor(dragHandle.value)
      ensures hasImage && tool == RadialTool ==> radial == RadialDrag(x, y, x, y)
      ensures tool != CropTool ==> dragHandle == old(dragHandle)
    {
      if !hasImage {
        return;
      }
      var held, shown, drag := dragHandle, cursor, radial;
      if tool == CropTool {
        var hit := crop.HandleAt(x, y, handleSize);
        var handle := if hit.Some? then hit.value else Crop.Move;
        held, shown := Some(handle), Crop.Cursor(handle);
      } else if tool == RadialTool {
        drag := RadialDrag(x, y, x, y);
      }
      BeginDrag(held, shown, drag);
    }

    /** The assignments that start a drag, which keep the session well formed once an image is loaded. */
    method BeginDrag(held: Option<Crop.Handle>, shown: string, drag: RadialDrag)
      requires Valid() && hasImage
      modifies this`isDragging, this`dragHandle, this`cursor, this`radial
      ensures Valid()
      ensures isDragging && dragHandle == held && cursor == shown && radial == drag
    {
      isDragging, dragHandle, cursor, radial := true, held, shown, drag;
    }

    /**
     * `onCanvasMouseMove` (line 240): during a drag, the crop tool resizes
     * or moves the box by the held handle and the radial tool records the
     * end point.
     */
    method OnCanvasMouseMove(x: real, y: real)
      requires Valid()
      modifies this`radial, crop
      ensures Valid()
      ensures isDragging && tool == CropTool && dragHandle.Some? ==>
        crop.Value() == Crop.Dragged(old(crop.Value()), dragHandle.value, x, y) && radial == old(radial)
      ensures isDragging && tool == RadialTool ==> radial == old(radial).(endX := x, endY := y) && unchanged(crop)
      ensures !isDragging || tool == NoTool ==> radial == old(radial) && unchanged(crop)
    {
      if !isDragging || !hasImage {
        return;
      }
      if tool == CropTool && dragHandle.Some? {
        crop.Update(dragHandle.value, x, y);
      } else if tool == RadialTool {
        radial := radial.(endX := x, endY := y);
      }
    }

    /**
     * `onCanvasMouseUp` (line 241), also run on `mouseout`: ends a drag.
     * With the radial tool, a drag of at least 5 in both directions appends
     * a radial mask to the current entry in place, selects it and pushes a
     * snapshot; a shorter one is discarded. Either way the tool is put down.
     */
    method OnCanvasMouseUp(stamp: string, globalSliders: map<Field, real>, maskSliders: map<Field, real>)
      requires Valid()
      modifies this`isDragging, this`cursor, this`tool, this`radial, this`stack, this`index, this`curveMounted
      ensures Valid()
      ensures !old(isDragging) ==> State() == old(State()) && tool == old(tool) && isDragging == old(isDragging)
      ensures old(isDragging) ==> !isDragging && cursor == "default"
      ensures old(isDragging) && old(tool) != RadialTool ==> State() == old(State()) && tool == old(tool)
      ensures old(isDragging) && old(tool) == RadialTool ==>
        && tool == NoTool
        && match RadialMask(old(radial), stamp)
           case None => State() == old(State())
           case Some(m) =>
             State() == AmendAndPush(old(State()), WithMask(old(stack[index]), m), globalSliders, maskSliders,
                                     curve.points, "Add Radial Mask")
    {
      if !isDragging {
        return;
      }
      if tool != RadialTool {
        EndDrag(tool, radial);
        return;
      }
      var made := RadialMask(radial, stamp);
      if made.None? {
        EndDrag(NoTool, radial);
        return;
      }
      var current := stack[index];
      EndDrag(NoTool, RadialDrag(0.0, 0.0, 0.0, 0.0));
      AmendThenPush(WithMask(current, made.value), "Add Radial Mask", globalSliders, maskSliders);
    }

    /** The assignments that end a drag; the history is left alone. */
    method EndDrag(next: Tool, drag: RadialDrag)
      requires Valid()
      modifies this`isDragging, this`cursor, this`tool, this`radial
      ensures Valid()
      ensures !isDragging && cursor == "default" && tool == next && radial == drag
    {
      isDragging, cursor, tool, radial := false, "default", next, drag;
    }

    /**
     * The compositing of `render` (lines 245-258): with an image, the base
     * image edited by the current entry's global edits and live curve
     * points, then by each of its masks; without one, nothing.
     */
    method Render(base: seq<byte>, w: nat, h: nat, sqrt: real -> real, m: ColourMaths) returns (img: array?<byte>)
      requires Valid() && |base| == w * h * 4
      ensures img == null <==> !hasImage
      ensures img != null ==>
        fresh(img) && img[..] == Composite(base, w, h, stack[index].global, Coords(stack[index].curve.items),
                                           stack[index].masks, sqrt, m)
    {
      if !hasImage {
        return null;
      }
      var e := stack[index];
      img := RenderPasses(base, w, h, e.global, Coords(e.curve.items), e.masks, sqrt, m);
    }
  }
}
