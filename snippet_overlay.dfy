/**
 * The snippet overlay's selection state machine
 * (snippet-overlay-renderer.js:6-10, 32-115). Coordinates are integers
 * relative to the origin of the virtual screen; the canvas drawing of the
 * mousemove handler is not modelled, only the rectangle it shows.
 */
module SnippetOverlay {
  import opened Strings

  /** A selection rectangle: top-left corner and size. */
  datatype Bounds = Bounds(x: int, y: int, width: nat, height: nat)

  /** The smallest selection the overlay captures is 6 by 6. */
  const MinimumSize: nat := 5

  function Min(a: int, b: int): int
  {
    if a <= b then a else b
  }

  function Abs(v: int): nat
  {
    if v < 0 then -v else v
  }

  /**
   * The bounds of a drag from (startX, startY) to (endX, endY), whatever the
   * direction: the smallest rectangle with both points as corners.
   */
  function NormalizeBounds(startX: int, startY: int, endX: int, endY: int): (b: Bounds)
    ensures b.x <= startX && b.x <= endX && b.y <= startY && b.y <= endY
    ensures (b.x == startX && b.x + b.width == endX) || (b.x == endX && b.x + b.width == startX)
    ensures (b.y == startY && b.y + b.height == endY) || (b.y == endY && b.y + b.height == startY)
  {
    Bounds(Min(startX, endX), Min(startY, endY), Abs(endX - startX), Abs(endY - startY))
  }

  /** Dragging either way between two points, or between the other two corners, selects the same rectangle. */
  lemma NormalizeBoundsSymmetric(startX: int, startY: int, endX: int, endY: int)
    ensures NormalizeBounds(startX, startY, endX, endY) == NormalizeBounds(endX, endY, startX, startY)
    ensures NormalizeBounds(startX, startY, endX, endY) == NormalizeBounds(startX, endY, endX, startY)
  {
  }

  /** Normalising a normalised rectangle's corners gives it back. */
  lemma NormalizeBoundsIdempotent(b: Bounds)
    ensures NormalizeBounds(b.x, b.y, b.x + b.width, b.y + b.height) == b
  {
  }

  /** What a handler asks the main process to do. */
  datatype OverlayAction = NoAction | CaptureRegion(bounds: Bounds) | CloseOverlay

  /** The size gate of mouseup: capture a large enough selection, otherwise close. */
  function ReleaseAction(b: Bounds): (a: OverlayAction)
    ensures a.CaptureRegion? <==> b.width > MinimumSize && b.height > MinimumSize
    ensures a.CaptureRegion? ==> a.bounds == b
    ensures !a.CaptureRegion? ==> a == CloseOverlay
  {
    if b.width > MinimumSize && b.height > MinimumSize then CaptureRegion(b) else CloseOverlay
  }

  /** The keydown handler: Escape closes the overlay in every state, other keys do nothing. */
  function OnKeyDown(key: string): (a: OverlayAction)
    ensures a == CloseOverlay <==> key == "Escape"
    ensures a == CloseOverlay || a == NoAction
  {
    if key == "Escape" then CloseOverlay else NoAction
  }

  /** The overlay's module-level state and the origin of its display. */
  class Overlay {
    var startX: int
    var startY: int
    var isDrawing: bool
    var overlayReady: bool
    const originX: int
    const originY: int

    /** The state when the display information has arrived. */
    constructor (originX: int, originY: int)
      ensures this.originX == originX && this.originY == originY
      ensures startX == 0 && startY == 0 && !isDrawing && !overlayReady
    {
      this.originX := originX;
      this.originY := originY;
      startX := 0;
      startY := 0;
      isDrawing := false;
      overlayReady := false;
    }

    /** The delayed timer that arms the overlay. */
    method MarkReady()
      modifies this
      ensures overlayReady
      ensures startX == old(startX) && startY == old(startY) && isDrawing == old(isDrawing)
    {
      overlayReady := true;
    }

    /**
     * mousedown: ignored until the overlay is ready; then a selection starts
     * at the pointer, in coordinates relative to the display's origin.
     */
    method MouseDown(screenX: int, screenY: int)
      modifies this
      ensures !old(overlayReady) ==> unchanged(this)
      ensures old(overlayReady) ==>
                && isDrawing && overlayReady
                && startX == screenX - originX && startY == screenY - originY
    {
      if !overlayReady {
        return;
      }
      isDrawing := true;
      startX := screenX - originX;
      startY := screenY - originY;
    }

    /**
     * mousemove: changes no selection state; while drawing it shows the
     * rectangle from the start point to the pointer, otherwise nothing.
     */
    method MouseMove(screenX: int, screenY: int) returns (preview: Option<Bounds>)
      ensures preview.Some? <==> isDrawing
      ensures preview.Some? ==> preview.value == NormalizeBounds(startX, startY, screenX - originX, screenY - originY)
    {
      if !isDrawing {
        return None;
      }
      var currentX := screenX - originX;
      var currentY := screenY - originY;
      preview := Some(NormalizeBounds(startX, startY, currentX, currentY));
    }

    /**
     * mouseup: does nothing unless a selection is being drawn; otherwise it
     * ends the selection, then captures the normalised rectangle or closes
     * the overlay when the rectangle is too small.
     */
    method MouseUp(screenX: int, screenY: int) returns (action: OverlayAction)
      modifies this
      ensures !old(isDrawing) ==> action == NoAction && unchanged(this)
      ensures old(isDrawing) ==>
                && !isDrawing
                && startX == old(startX) && startY == old(startY) && overlayReady == old(overlayReady)
                && action == ReleaseAction(NormalizeBounds(startX, startY, screenX - originX, screenY - originY))
    {
      if !isDrawing {
        return NoAction;
      }
      isDrawing := false;
      var endX := screenX - originX;
      var endY := screenY - originY;
      var bounds := NormalizeBounds(startX, startY, endX, endY);
      action := ReleaseAction(bounds);
    }
  }

  /**
   * A whole selection: once the overlay is ready, pressing at one point and
   * releasing at another captures the rectangle between them exactly when it
   * is more than 5 pixels wide and high, whichever way the drag went.
   */
  method Select(overlay: Overlay, downX: int, downY: int, upX: int, upY: int) returns (action: OverlayAction)
    requires overlay.overlayReady
    modifies overlay
    ensures !overlay.isDrawing
    ensures action.CaptureRegion? <==> Abs(upX - downX) > MinimumSize && Abs(upY - downY) > MinimumSize
    ensures action.CaptureRegion? ==>
              action.bounds == NormalizeBounds(downX - overlay.originX, downY - overlay.originY,
                                               upX - overlay.originX, upY - overlay.originY)
    ensures !action.CaptureRegion? ==> action == CloseOverlay
  {
    overlay.MouseDown(downX, downY);
    action := overlay.MouseUp(upX, upY);
  }
}
