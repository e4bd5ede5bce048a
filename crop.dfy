/**
 * Crop-box geometry (script.js lines 323-325): which handle of the crop
 * box lies under the pointer, the cursor shown for a handle, and how a
 * drag on a handle moves or resizes the box.
 */
module Crop {
  import opened Wrappers

  /** The eight handles in the order `getCropHandleAt` lists them, and `move` for the body. */
  datatype Handle = TL | TR | BL | BR | T | B | L | R | Move

  /** A crop rectangle in canvas coordinates. */
  datatype Box = Box(x: real, y: real, w: real, h: real)

  /** `const min = 20`: neither side of the box is left shorter than this. */
  const MinSize: real := 20.0

  /** The handle table of line 323, in its insertion order. */
  const Handles: seq<Handle> := [TL, TR, BL, BR, T, B, L, R]

  function Abs(v: real): real { if v < 0.0 then -v else v }

  /** Where handle h sits on box b: corners, then edge midpoints. */
  function Anchor(b: Box, h: Handle): (real, real)
  {
    match h
    case TL => (b.x, b.y)
    case TR => (b.x + b.w, b.y)
    case BL => (b.x, b.y + b.h)
    case BR => (b.x + b.w, b.y + b.h)
    case T => (b.x + b.w / 2.0, b.y)
    case B => (b.x + b.w / 2.0, b.y + b.h)
    case L => (b.x, b.y + b.h / 2.0)
    case R => (b.x + b.w, b.y + b.h / 2.0)
    case Move => (b.x + b.w / 2.0, b.y + b.h / 2.0)
  }

  /** The pointer is strictly closer than `size` to handle h in both directions. */
  predicate Grabs(b: Box, h: Handle, px: real, py: real, size: real)
  {
    var (ax, ay) := Anchor(b, h);
    Abs(px - ax) < size && Abs(py - ay) < size
  }

  /** The first handle of hs under the pointer, if any. */
  function FirstGrab(b: Box, hs: seq<Handle>, px: real, py: real, size: real): Option<Handle>
  {
    if hs == [] then None
    else if Grabs(b, hs[0], px, py, size) then Some(hs[0])
    else FirstGrab(b, hs[1..], px, py, size)
  }

  /**
   * The scan finds a handle of the list exactly when one is under the
   * pointer, and then the earliest such one.
   */
  lemma {:induction false} FirstGrabSpec(b: Box, hs: seq<Handle>, px: real, py: real, size: real)
    ensures var r := FirstGrab(b, hs, px, py, size);
      && (r.Some? ==> exists k :: 0 <= k < |hs| && hs[k] == r.value
                                  && Grabs(b, r.value, px, py, size)
                                  && forall j :: 0 <= j < k ==> !Grabs(b, hs[j], px, py, size))
      && (r.None? <==> forall j :: 0 <= j < |hs| ==> !Grabs(b, hs[j], px, py, size))
  {
    if hs != [] {
      FirstGrabSpec(b, hs[1..], px, py, size);
      var r := FirstGrab(b, hs[1..], px, py, size);
      if !Grabs(b, hs[0], px, py, size) && r.Some? {
        var k :| 0 <= k < |hs[1..]| && hs[1..][k] == r.value
                 && Grabs(b, r.value, px, py, size)
                 && forall j :: 0 <= j < k ==> !Grabs(b, hs[1..][j], px, py, size);
        assert hs[k + 1] == r.value;
        forall j | 0 <= j < k + 1 ensures !Grabs(b, hs[j], px, py, size) {
          if j > 0 { assert hs[j] == hs[1..][j - 1]; }
        }
      }
      if !Grabs(b, hs[0], px, py, size) && r.None? {
        forall j | 0 <= j < |hs| ensures !Grabs(b, hs[j], px, py, size) {
          if j > 0 { assert hs[j] == hs[1..][j - 1]; }
        }
      }
    }
  }

  /** The hit test never answers `move`: the body of the box is the caller's fallback. */
  lemma HandleNeverMove(b: Box, px: real, py: real, size: real)
    ensures FirstGrab(b, Handles, px, py, size) != Some(Move)
  {
    FirstGrabSpec(b, Handles, px, py, size);
  }

  /** A corner wins over the edge midpoints: the corners come first in the table. */
  lemma CornersFirst(b: Box, px: real, py: real, size: real)
    requires Grabs(b, TL, px, py, size)
    ensures FirstGrab(b, Handles, px, py, size) == Some(TL)
  {
  }

  /**
   * The switch of `updateCropBox` (line 325) before the minimum is applied:
   * a corner or edge handle moves its own sides to the pointer and keeps
   * the opposite ones, and `move` shifts the box so that its centre lands
   * on the pointer.
   */
  function Resized(b: Box, h: Handle, x: real, y: real): Box
  {
    match h
    case TL => Box(x, y, b.w + (b.x - x), b.h + (b.y - y))
    case TR => Box(b.x, y, x - b.x, b.h + (b.y - y))
    case BL => Box(x, b.y, b.w + (b.x - x), y - b.y)
    case BR => Box(b.x, b.y, x - b.x, y - b.y)
    case T => Box(b.x, y, b.w, b.h + (b.y - y))
    case B => Box(b.x, b.y, b.w, y - b.y)
    case L => Box(x, b.y, b.w + (b.x - x), b.h)
    case R => Box(b.x, b.y, x - b.x, b.h)
    case Move => Box(b.x + (x - (b.x + b.w / 2.0)), b.y + (y - (b.y + b.h / 2.0)), b.w, b.h)
  }

  /** The two floors at the end of `updateCropBox`; x and y are never adjusted. */
  function Floored(b: Box): Box
  {
    Box(b.x, b.y, if b.w < MinSize then MinSize else b.w, if b.h < MinSize then MinSize else b.h)
  }

  /** The box after one drag step on handle h to pointer (x, y). */
  function Dragged(b: Box, h: Handle, x: real, y: real): (r: Box)
    ensures r.w >= MinSize && r.h >= MinSize
  {
    Floored(Resized(b, h, x, y))
  }

  function Max(a: real, b: real): real { if a >= b then a else b }

  /**
   * Dragging a left or top side puts that side on the pointer, and the
   * opposite side stays put until the box would be narrower than the
   * minimum; past that point the floor pushes the opposite side out ahead of
   * the pointer, so the box slides instead of stopping.
   */
  lemma NearSideSlides(b: Box, h: Handle, x: real, y: real)
    ensures var r := Dragged(b, h, x, y);
      (h == TL || h == BL || h == L ==>
         r.x == x && r.x + r.w == Max(b.x + b.w, x + MinSize))
      && (h == TL || h == TR || h == T ==>
         r.y == y && r.y + r.h == Max(b.y + b.h, y + MinSize))
  {
  }

  /**
   * Dragging a right or bottom side keeps the opposite side where it was and
   * puts the dragged side on the pointer, but never closer than the minimum
   * to the opposite side.
   */
  lemma FarSideStops(b: Box, h: Handle, x: real, y: real)
    ensures var r := Dragged(b, h, x, y);
      (h == TR || h == BR || h == R ==>
         r.x == b.x && r.x + r.w == Max(x, b.x + MinSize))
      && (h == BL || h == BR || h == B ==>
         r.y == b.y && r.y + r.h == Max(y, b.y + MinSize))
  {
  }

  /** `move` recentres the box on the pointer without touching a size that is already legal. */
  lemma MoveRecentres(b: Box, x: real, y: real)
    requires b.w >= MinSize && b.h >= MinSize
    ensures var r := Dragged(b, Move, x, y);
      r.w == b.w && r.h == b.h && Anchor(r, Move) == (x, y)
  {
  }

  /**
   * A corner drag that leaves both sides at least the minimum keeps the
   * opposite corner where it was and brings the dragged corner to the pointer.
   */
  lemma CornerDragAnchorsOpposite(b: Box, h: Handle, x: real, y: real)
    requires h == TL || h == TR || h == BL || h == BR
    requires Resized(b, h, x, y).w >= MinSize && Resized(b, h, x, y).h >= MinSize
    ensures Anchor(Dragged(b, h, x, y), Opposite(h)) == Anchor(b, Opposite(h))
    ensures Anchor(Dragged(b, h, x, y), h) == (x, y)
  {
  }

  /** The handle across the box from h; `move` is its own. */
  function Opposite(h: Handle): Handle
  {
    match h
    case TL => BR
    case BR => TL
    case TR => BL
    case BL => TR
    case T => B
    case B => T
    case L => R
    case R => L
    case Move => Move
  }

  /** `getCursorForCropHandle` (line 324). */
  function Cursor(h: Handle): string
  {
    if h == TL || h == BR then "nwse-resize"
    else if h == TR || h == BL then "nesw-resize"
    else if h == T || h == B then "ns-resize"
    else if h == L || h == R then "ew-resize"
    else "move"
  }

  /**
   * The cursor names the axis a handle resizes along, which opposite
   * handles share, and only the body shows the move cursor.
   */
  lemma CursorByAxis(h: Handle)
    ensures Cursor(Opposite(h)) == Cursor(h)
    ensures Cursor(h) == "move" <==> h == Move
    ensures Cursor(h) == "ns-resize" <==> h == T || h == B
    ensures Cursor(h) == "ew-resize" <==> h == L || h == R
  {
  }

  /** `cropBox`, whose fields `updateCropBox` assigns one by one. */
  class CropBox {
    var x: real
    var y: real
    var w: real
    var h: real

    function Value(): Box
      reads this
    {
      Box(x, y, w, h)
    }

    /** `cropBox = { x, y, w, h }` (line 173 builds the full-canvas one). */
    constructor (x: real, y: real, w: real, h: real)
      ensures Value() == Box(x, y, w, h)
    {
      this.x := x;
      this.y := y;
      this.w := w;
      this.h := h;
    }

    /** `updateCropBox(x, y)` (line 325) for the handle being dragged. */
    method Update(handle: Handle, px: real, py: real)
      modifies this
      ensures Value() == Dragged(old(Value()), handle, px, py)
    {
      var ox, oy, ow, oh := x, y, w, h;
      match handle {
        case TL => x := px; y := py; w := w + (ox - px); h := h + (oy - py);
        case TR => y := py; w := px - ox; h := h + (oy - py);
        case BL => x := px; w := w + (ox - px); h := py - oy;
        case BR => w := px - ox; h := py - oy;
        case T => y := py; h := h + (oy - py);
        case B => h := py - oy;
        case L => x := px; w := w + (ox - px);
        case R => w := px - ox;
        case Move => x := x + (px - (ox + ow / 2.0)); y := y + (py - (oy + oh / 2.0));
      }
      if w < MinSize {
        w := MinSize;
      }
      if h < MinSize {
        h := MinSize;
      }
    }

    /**
     * `getCropHandleAt(x, y)` (line 323): scans the handle table in order
     * and answers the first handle within `size` of the pointer in both
     * directions. `size` is ten screen pixels in canvas units, which the
     * page derives from the canvas's on-screen width.
     */
    method HandleAt(px: real, py: real, size: real) returns (r: Option<Handle>)
      ensures r == FirstGrab(Value(), Handles, px, py, size)
    {
      var b := Value();
      var k := 0;
      while k < |Handles|
        invariant 0 <= k <= |Handles|
        invariant FirstGrab(b, Handles, px, py, size) == FirstGrab(b, Handles[k..], px, py, size)
      {
        var (ax, ay) := Anchor(b, Handles[k]);
        if Abs(px - ax) < size && Abs(py - ay) < size {
          return Some(Handles[k]);
        }
        assert Handles[k..][1..] == Handles[k + 1..];
        k := k + 1;
      }
      r := None;
    }
  }
}
