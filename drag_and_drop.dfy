/**
 The drag state machine behind mouse and touch dragging of labels: whether a
 drag is under way, which label is carried, and the last touch position.
 */
module DragAndDrop {
  import opened Wrappers

  /** What `onDrop` receives when a touch drag ends: the label and the touch position. */
  datatype DropEvent = DropEvent(item: string, x: real, y: real)

  /**
   The `onDrop` call a touch end makes: one exactly when a drag is under way,
   the carried label is non-empty (a JavaScript truthiness test, so the empty
   string does not fire) and a callback was given; it carries that label and
   the stored position.
   */
  function TouchEndDrop(isDragging: bool, item: Option<string>, x: real, y: real, hasCallback: bool): (r: Option<DropEvent>)
    ensures r.Some? <==> isDragging && hasCallback && item.Some? && item.value != ""
    ensures r.Some? ==> r.value.item == item.value && r.value.x == x && r.value.y == y
  {
    if isDragging && item.Some? && item.value != "" && hasCallback then Some(DropEvent(item.value, x, y)) else None
  }

  /** The `dragState` record and the transitions `useDragAndDrop` offers on it. */
  class DragController {
    var isDragging: bool
    var draggedItem: Option<string>
    var offsetX: real
    var offsetY: real

    /**
     A drag carries an item exactly while it is under way, and an idle
     controller has its offset at the origin.
     */
    ghost predicate Valid()
      reads this
    {
      && (isDragging <==> draggedItem.Some?)
      && (!isDragging ==> offsetX == 0.0 && offsetY == 0.0)
    }

    /** The idle state: not dragging, no item, offset at the origin. */
    predicate Idle()
      reads this
    {
      !isDragging && draggedItem == None && offsetX == 0.0 && offsetY == 0.0
    }

    /** The initial state of the hook. */
    constructor ()
      ensures Valid() && Idle()
    {
      isDragging := false;
      draggedItem := None;
      offsetX := 0.0;
      offsetY := 0.0;
    }

    /** `handleDragStart(item)`: a mouse drag of `item` starts, offset at the origin. */
    method HandleDragStart(item: string)
      modifies this
      ensures Valid()
      ensures isDragging && draggedItem == Some(item)
      ensures offsetX == 0.0 && offsetY == 0.0
    {
      isDragging := true;
      draggedItem := Some(item);
      offsetX := 0.0;
      offsetY := 0.0;
    }

    /** `handleDragEnd`: whatever the state, return to idle. */
    method HandleDragEnd()
      modifies this
      ensures Valid() && Idle()
    {
      isDragging := false;
      draggedItem := None;
      offsetX := 0.0;
      offsetY := 0.0;
    }

    /** `handleTouchStart(item, touch)`: a touch drag of `item` starts at the touch position. */
    method HandleTouchStart(item: string, touchX: real, touchY: real)
      modifies this
      ensures Valid()
      ensures isDragging && draggedItem == Some(item)
      ensures offsetX == touchX && offsetY == touchY
    {
      isDragging := true;
      draggedItem := Some(item);
      offsetX := touchX;
      offsetY := touchY;
    }

    /**
     `handleTouchMove(touch)`: while dragging, only the offset follows the
     touch; an idle controller is left unchanged.
     */
    method HandleTouchMove(touchX: real, touchY: real)
      requires Valid()
      modifies this
      ensures Valid()
      ensures isDragging == old(isDragging) && draggedItem == old(draggedItem)
      ensures old(isDragging) ==> offsetX == touchX && offsetY == touchY
      ensures !old(isDragging) ==> offsetX == old(offsetX) && offsetY == old(offsetY)
    {
      if isDragging {
        offsetX := touchX;
        offsetY := touchY;
      }
    }

    /**
     `handleTouchEnd(onDrop)`: report the drop when one is due (see
     `TouchEndDrop`), then return to idle in every case.
     */
    method HandleTouchEnd(hasCallback: bool) returns (drop: Option<DropEvent>)
      requires Valid()
      modifies this
      ensures drop == TouchEndDrop(old(isDragging), old(draggedItem), old(offsetX), old(offsetY), hasCallback)
      ensures Valid() && Idle()
    {
      if isDragging && draggedItem.Some? && draggedItem.value != "" && hasCallback {
        drop := Some(DropEvent(draggedItem.value, offsetX, offsetY));
      } else {
        drop := None;
      }
      isDragging := false;
      draggedItem := None;
      offsetX := 0.0;
      offsetY := 0.0;
    }
  }

  /**
   A whole touch gesture on a fresh controller: touching a label, moving to
   (x, y) and lifting the finger delivers that label at (x, y) when a callback
   is given and the label is non-empty, and leaves the controller idle.
   */
  method TouchGesture(item: string, startX: real, startY: real, x: real, y: real, hasCallback: bool)
    returns (drop: Option<DropEvent>, idle: bool)
    ensures drop.Some? <==> hasCallback && item != ""
    ensures drop.Some? ==> drop.value == DropEvent(item, x, y)
    ensures idle
  {
    var controller := new DragController();
    controller.HandleTouchStart(item, startX, startY);
    controller.HandleTouchMove(x, y);
    drop := controller.HandleTouchEnd(hasCallback);
    idle := controller.Idle();
  }
}
