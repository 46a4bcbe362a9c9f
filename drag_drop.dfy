/** The drag-session hook (src/hooks/useDragDrop.ts): one field, the index of the card
    being dragged or none, with a setter, a clearer and two queries. */
module DragDrop {
  import opened GridTypes

  class DragState {
    var dragIndex: Option<int>

    /** `useState<number | null>(null)`: no drag at first. */
    constructor ()
      ensures dragIndex == None && !HasDragIndex()
    {
      dragIndex := None;
    }

    /** `isDragging(index)`: the card at `index` is the one being dragged. */
    predicate IsDragging(index: int)
      reads this
    {
      dragIndex == Some(index)
    }

    /** `hasDragIndex`: some drag is in progress. */
    predicate HasDragIndex()
      reads this
    {
      dragIndex != None
    }

    /** After a drag starts at `index`, exactly that card is being dragged. */
    method HandleDragStart(index: int)
      modifies this
      ensures dragIndex == Some(index) && HasDragIndex()
      ensures forall j :: IsDragging(j) <==> j == index
    {
      dragIndex := Some(index);
    }

    /** After a reset no card is being dragged. */
    method ResetDrag()
      modifies this
      ensures dragIndex == None && !HasDragIndex()
      ensures forall j :: !IsDragging(j)
    {
      dragIndex := None;
    }
  }

  /** A drag is in progress exactly when some card is being dragged, and then only one. */
  lemma DraggingIsOneCard(d: DragState)
    ensures d.HasDragIndex() <==> exists j :: d.IsDragging(j)
    ensures forall i, j :: d.IsDragging(i) && d.IsDragging(j) ==> i == j
  {
    if d.HasDragIndex() {
      assert d.IsDragging(d.dragIndex.value);
    }
  }
}
