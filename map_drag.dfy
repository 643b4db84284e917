/**
 * Drag-to-pan on the 3-D concept map (src/pages/MapPage.js:227-250, 356):
 * pressing on the canvas starts a drag that remembers where the press was
 * relative to the camera offset; moving while dragging moves the camera
 * offset with the pointer; releasing ends the drag. Pointer coordinates are
 * whole pixels.
 */
module MapDrag {
  import opened Wrappers

  /** The offset `[x / 100, -y / 100, 0]` applied to the scene group. */
  function GroupPosition(cameraX: int, cameraY: int): (p: (real, real, real))
    ensures p.0 * 100.0 == cameraX as real && p.1 * -100.0 == cameraY as real && p.2 == 0.0
  {
    (cameraX as real / 100.0, -(cameraY as real) / 100.0, 0.0)
  }

  /** The scene offset determines the camera offset: equal offsets come only from equal cameras. */
  lemma GroupPositionInjective(x1: int, y1: int, x2: int, y2: int)
    requires GroupPosition(x1, y1) == GroupPosition(x2, y2)
    ensures x1 == x2 && y1 == y2
  {
    var p := GroupPosition(x1, y1);
    assert x1 as real == p.0 * 100.0 == x2 as real;
    assert y1 as real == p.1 * -100.0 == y2 as real;
  }

  class DragPan {
    var isDragging: bool
    var dragStartX: int
    var dragStartY: int
    var cameraX: int
    var cameraY: int
    /** `currentMouseEvent`: the last pointer position seen by a move. */
    var lastPointer: Option<(int, int)>

    constructor()
      ensures !isDragging && dragStartX == 0 && dragStartY == 0 && cameraX == 0 && cameraY == 0
      ensures lastPointer.None?
    {
      isDragging := false;
      dragStartX, dragStartY := 0, 0;
      cameraX, cameraY := 0, 0;
      lastPointer := None;
    }

    /** handleMouseDown: only a press on the canvas element itself starts a drag. */
    method MouseDown(targetIsCanvas: bool, clientX: int, clientY: int)
      modifies this
      ensures targetIsCanvas ==>
                isDragging && dragStartX == clientX - cameraX && dragStartY == clientY - cameraY
      ensures !targetIsCanvas ==>
                isDragging == old(isDragging) && dragStartX == old(dragStartX) && dragStartY == old(dragStartY)
      ensures cameraX == old(cameraX) && cameraY == old(cameraY) && lastPointer == old(lastPointer)
    {
      if targetIsCanvas {
        isDragging := true;
        dragStartX := clientX - cameraX;
        dragStartY := clientY - cameraY;
      }
    }

    /** handleMouseMove: always records the pointer; pans only while dragging. */
    method MouseMove(clientX: int, clientY: int)
      modifies this
      ensures lastPointer == Some((clientX, clientY))
      ensures old(isDragging) ==> cameraX == clientX - dragStartX && cameraY == clientY - dragStartY
      ensures !old(isDragging) ==> cameraX == old(cameraX) && cameraY == old(cameraY)
      ensures isDragging == old(isDragging) && dragStartX == old(dragStartX) && dragStartY == old(dragStartY)
    {
      lastPointer := Some((clientX, clientY));
      if isDragging {
        cameraX := clientX - dragStartX;
        cameraY := clientY - dragStartY;
      }
    }

    /** handleMouseUp: ends any drag. */
    method MouseUp()
      modifies this
      ensures !isDragging
      ensures dragStartX == old(dragStartX) && dragStartY == old(dragStartY)
      ensures cameraX == old(cameraX) && cameraY == old(cameraY) && lastPointer == old(lastPointer)
    {
      isDragging := false;
    }

    /**
     * A press on the canvas followed by a move back to the press point leaves
     * the camera where it was, and a move of (dx, dy) from the press point
     * pans the camera by exactly (dx, dy).
     */
    method PressAndMove(clientX: int, clientY: int, dx: int, dy: int)
      modifies this
      ensures isDragging
      ensures cameraX == old(cameraX) + dx && cameraY == old(cameraY) + dy
      ensures lastPointer == Some((clientX + dx, clientY + dy))
    {
      MouseDown(true, clientX, clientY);
      MouseMove(clientX + dx, clientY + dy);
    }
  }
}
