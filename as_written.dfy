/** Two list mutators exactly as TitanAdapter.java writes them, on values, with
    the inputs on which they go wrong. The adapter class uses the corrected
    forms (Titan.TitanAdapter.RemoveAt and Titan.TitanAdapter.Update). */
module AsWritten {
  import opened Wrappers
  import JavaList
  import SlotLayout
  import opened Titan

  /** The list after a call and the notifications it sent. */
  datatype Step<T> = Step(data: Option<seq<T>>, events: seq<Event>)

  /** remove(int) as written: its guard 0 <= index <= size lets index ==
      size through to List.remove, which throws. */
  function RemoveAtAsWritten<T>(data: Option<seq<T>>, f: SlotLayout.Flags, index: int): (r: Outcome<Step<T>>)
    ensures r.IndexOutOfBounds? <==> data.Some? && index == |data.value|
    ensures r.Returned? && r.value.events != [] ==>
              data.Some? && 0 <= index < |data.value|
              && r.value.events == [Removed(SlotLayout.SlotOf(f, index))]
              && SlotLayout.IsItemSlot(f, |data.value|, SlotLayout.SlotOf(f, index), index)
    ensures data.Some? && 0 <= index < |data.value| ==>
              && r.Returned? && r.value.data.Some?
              && JavaList.RemoveAt(data.value, index) == Returned(r.value.data.value)
              && r.value.events == [Removed(SlotLayout.SlotOf(f, index))]
    ensures !(data.Some? && 0 <= index <= |data.value|) ==> r == Returned(Step(data, []))
  {
    if data.Some? && 0 <= index && |data.value| >= index then
      match JavaList.RemoveAt(data.value, index)
      case IndexOutOfBounds => IndexOutOfBounds
      case Returned(s) =>
        SlotLayout.ItemSlotOf(f, |data.value|, index);
        Returned(Step(Some(s), [Removed(SlotLayout.SlotOf(f, index))]))
    else Returned(Step(data, []))
  }

  /** The input that shows it: any non-null list, index == size. */
  lemma RemoveAtAsWrittenThrowsAtSize<T>(s: seq<T>, f: SlotLayout.Flags)
    ensures RemoveAtAsWritten(Some(s), f, |s|) == IndexOutOfBounds
    ensures !SlotLayout.IsItemSlot(f, |s|, SlotLayout.SlotOf(f, |s|), |s|)
  {
    SlotLayout.ItemSlotIff(f, |s|, SlotLayout.SlotOf(f, |s|), |s|);
  }

  /** update(T) as written: notifyItemChanged(indexOf + h) runs whether or
      not the item was found. */
  function UpdateAsWritten<T, K(==)>(data: Option<seq<T>>, f: SlotLayout.Flags, item: Option<T>,
                                     key: T -> K): (r: Step<T>)
    ensures r.events == [] <==> item.None? || data.None?
    ensures item.None? || data.None? ==> r == Step(data, [])
    ensures r.data.Some? <==> data.Some?
    ensures data.Some? ==> |r.data.value| == |data.value|
    ensures item.Some? && data.Some? ==>
              var i := JavaList.IndexOf(data.value, item.value, key);
              && r.events == [Changed(SlotLayout.SlotOf(f, i))]
              && (i != -1 ==> JavaList.Set(data.value, i, item.value) == Returned(r.data.value))
              && (i == -1 ==> r.data == data)
  {
    if item.Some? && data.Some? then
      var startIndex := JavaList.IndexOf(data.value, item.value, key);
      var s := if startIndex != -1 then data.value[startIndex := item.value] else data.value;
      Step(Some(s), [Changed(SlotLayout.SlotOf(f, startIndex))])
    else Step(data, [])
  }

  /** The input that shows it: an item equal to no element. The list is
      unchanged, yet a change is sent for slot h - 1, which shows no item:
      the header when there is one, slot -1 otherwise. */
  lemma UpdateAsWrittenNotifiesNonItem<T, K>(s: seq<T>, f: SlotLayout.Flags, x: T, key: T -> K)
    requires JavaList.IndexOf(s, x, key) == -1
    ensures UpdateAsWritten(Some(s), f, Some(x), key)
         == Step(Some(s), [Changed(SlotLayout.HeaderNum(f) - 1)])
    ensures var pos := SlotLayout.HeaderNum(f) - 1;
            0 <= pos < SlotLayout.ItemCount(f, |s|) ==> !SlotLayout.ItemViewType(f, |s|, pos).Item?
  {
    var pos := SlotLayout.HeaderNum(f) - 1;
    if 0 <= pos < SlotLayout.ItemCount(f, |s|) {
      if SlotLayout.PlaceholderShown(f, |s|) {
        SlotLayout.PlaceholderModeSlots(f, |s|, pos);
      } else {
        SlotLayout.NormalModeSlots(f, |s|, pos);
      }
    }
  }
}
