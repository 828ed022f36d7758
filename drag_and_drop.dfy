/**
 * The drag-and-drop hook: the state of a drag over a grid of items, and the reordering a drop
 * makes. `Array.prototype.splice` is written out with its treatment of out-of-range starts.
 */
module DragAndDrop {
  import opened Wrappers

  /** Where `splice(start, ..)` acts in a list of length `len`: a negative start counts from the end, and both are clamped. */
  function SpliceStart(start: int, len: nat): (k: nat)
    ensures k <= len
    ensures 0 <= start <= len ==> k == start
    ensures start > len ==> k == len
  {
    if start < 0 then (if len + start < 0 then 0 else len + start)
    else if start > len then len
    else start
  }

  /** `s.splice(start, 1)`: the list without the element at the normalised start, if there is one. */
  function Remove<T>(s: seq<T>, start: int): (r: seq<T>)
    ensures SpliceStart(start, |s|) < |s| ==> |r| == |s| - 1
    ensures SpliceStart(start, |s|) == |s| ==> r == s
  {
    var k := SpliceStart(start, |s|);
    if k < |s| then s[..k] + s[k + 1..] else s
  }

  /** `s.splice(start, 0, x)`: x inserted before the element at the normalised start. */
  function InsertAt<T>(s: seq<T>, start: int, x: T): (r: seq<T>)
    ensures |r| == |s| + 1
    ensures r[SpliceStart(start, |s|)] == x
  {
    var k := SpliceStart(start, |s|);
    s[..k] + [x] + s[k..]
  }

  /** The list a drop hands to `onReorder`: the dragged element taken out and put back in at the drop index. */
  function Move<T>(items: seq<T>, from: nat, to: int): seq<T>
    requires from < |items|
  {
    InsertAt(Remove(items, from), to, items[from])
  }

  /** The position the dragged element ends up at: the drop index, clamped as `splice` clamps it. */
  function Landing(n: nat, to: int): nat
    requires n > 0
  {
    SpliceStart(to, n - 1)
  }

  /** A move is a permutation: same length, same elements with the same multiplicities. */
  lemma {:induction false} MovePermutation<T>(items: seq<T>, from: nat, to: int)
    requires from < |items|
    ensures |Move(items, from, to)| == |items|
    ensures multiset(Move(items, from, to)) == multiset(items)
  {
    var rest := Remove(items, from);
    var k := SpliceStart(to, |rest|);
    assert items == items[..from] + [items[from]] + items[from + 1..];
    assert rest == items[..from] + items[from + 1..];
    assert rest == rest[..k] + rest[k..];
    calc {
      multiset(Move(items, from, to));
      multiset(rest[..k] + [items[from]] + rest[k..]);
      multiset(rest[..k]) + multiset{items[from]} + multiset(rest[k..]);
      multiset(rest) + multiset{items[from]};
      multiset(items[..from]) + multiset(items[from + 1..]) + multiset{items[from]};
      multiset(items);
    }
  }

  /**
   * The dragged element sits at the (clamped) drop index, and taking it out again leaves the other
   * elements exactly as they were, in their original relative order.
   */
  lemma {:induction false} MoveLanding<T>(items: seq<T>, from: nat, to: int)
    requires from < |items|
    ensures Landing(|items|, to) < |items|
    ensures Move(items, from, to)[Landing(|items|, to)] == items[from]
    ensures Remove(Move(items, from, to), Landing(|items|, to)) == Remove(items, from)
    ensures 0 <= to < |items| ==> Move(items, from, to)[to] == items[from]
  {
    var rest := Remove(items, from);
    var k := SpliceStart(to, |rest|);
    var moved := Move(items, from, to);
    assert moved == rest[..k] + [items[from]] + rest[k..];
    assert moved[..k] == rest[..k];
    assert moved[k + 1..] == rest[k..];
    assert rest == rest[..k] + rest[k..];
  }

  /** Dropping where the element already is hands the list back unchanged. */
  lemma {:induction false} MoveInPlace<T>(items: seq<T>, from: nat, to: int)
    requires from < |items| && Landing(|items|, to) == from
    ensures Move(items, from, to) == items
  {
    var rest := Remove(items, from);
    assert rest[..from] == items[..from];
    assert rest[from..] == items[from + 1..];
    assert items == items[..from] + [items[from]] + items[from + 1..];
  }

  /** What is being dragged: the item's id and the index it was rendered at. */
  datatype DragItem = DragItem(id: string, index: nat)

  class DragState {
    var draggedItem: Option<DragItem>
    var dragOverIndex: Option<int>
    /** Enter events minus leave events since the last reset; nested targets fire both. */
    var dragCounter: int

    constructor ()
      ensures draggedItem == None && dragOverIndex == None && dragCounter == 0
    {
      draggedItem := None;
      dragOverIndex := None;
      dragCounter := 0;
    }

    /** `handleDragStart`: remember the item and its index. */
    method DragStart(id: string, index: nat)
      modifies this
      ensures draggedItem == Some(DragItem(id, index))
      ensures dragOverIndex == old(dragOverIndex) && dragCounter == old(dragCounter)
    {
      draggedItem := Some(DragItem(id, index));
    }

    /** `handleDragEnd`: everything back to the idle state. */
    method DragEnd()
      modifies this
      ensures draggedItem == None && dragOverIndex == None && dragCounter == 0
    {
      draggedItem := None;
      dragOverIndex := None;
      dragCounter := 0;
    }

    /** `handleDragOver`: highlight a slot, only while dragging and only a slot other than the item's own. */
    method DragOver(index: int)
      modifies this
      ensures draggedItem == old(draggedItem) && dragCounter == old(dragCounter)
      ensures dragOverIndex == if old(draggedItem).Some? && old(draggedItem).value.index != index
                               then Some(index) else old(dragOverIndex)
    {
      if draggedItem.Some? && draggedItem.value.index != index {
        dragOverIndex := Some(index);
      }
    }

    /** `handleDragEnter`: count the entry and highlight the slot. */
    method DragEnter(index: int)
      modifies this
      ensures dragCounter == old(dragCounter) + 1
      ensures dragOverIndex == Some(index) && draggedItem == old(draggedItem)
    {
      dragCounter := dragCounter + 1;
      dragOverIndex := Some(index);
    }

    /** `handleDragLeave`: count the exit; the highlight goes only when the count is back to zero. */
    method DragLeave()
      modifies this
      ensures dragCounter == old(dragCounter) - 1
      ensures dragOverIndex == if dragCounter == 0 then None else old(dragOverIndex)
      ensures draggedItem == old(draggedItem)
    {
      dragCounter := dragCounter - 1;
      if dragCounter == 0 {
        dragOverIndex := None;
      }
    }

    /**
     * `handleDrop`: with nothing dragged, or a drop on the item's own index, only the drag state is
     * cleared (the counter is left as is) and `onReorder` is not called; otherwise the list given to
     * `onReorder` is a spliced copy of `items`, and the whole state is reset. The dragged index must
     * still be an index of `items`.
     */
    method Drop<T>(items: seq<T>, dropIndex: int) returns (reordered: Option<seq<T>>)
      requires draggedItem.Some? && draggedItem.value.index != dropIndex ==> draggedItem.value.index < |items|
      modifies this
      ensures draggedItem == None && dragOverIndex == None
      ensures reordered.None? <==> old(draggedItem).None? || old(draggedItem).value.index == dropIndex
      ensures reordered.None? ==> dragCounter == old(dragCounter)
      ensures reordered.Some? ==> reordered.value == Move(items, old(draggedItem).value.index, dropIndex)
                                  && dragCounter == 0
    {
      if draggedItem.None? || draggedItem.value.index == dropIndex {
        draggedItem := None;
        dragOverIndex := None;
        return None;
      }
      var from := draggedItem.value.index;
      var newItems := items;
      var draggedItemData := newItems[from];
      newItems := Remove(newItems, from);
      newItems := InsertAt(newItems, dropIndex, draggedItemData);
      reordered := Some(newItems);
      draggedItem := None;
      dragOverIndex := None;
      dragCounter := 0;
    }
  }
}
