/** The adapter object: the backing list, the decoration fields, and the
    operations that change them. Each change the RecyclerView is told about
    is appended to a ghost log of notifications, in slot coordinates. */
module Titan {
  import opened Wrappers
  import JavaList
  import SlotLayout
  import opened Placeholder

  /** The RecyclerView notifications: notifyDataSetChanged,
      notifyItemInserted, notifyItemRangeInserted, notifyItemRemoved and
      notifyItemChanged. */
  datatype Event =
    | Reset
    | Inserted(pos: int)
    | RangeInserted(pos: int, count: int)
    | Removed(pos: int)
    | Changed(pos: int)

  /** Every field of the adapter except the list. */
  datatype Decorations = Decorations(
    hasHeader: bool,
    hasFooter: bool,
    hasMore: bool,
    emptyViewEnabled: bool,
    headViewEmpty: bool,
    footViewEmpty: bool,
    headerView: Option<ViewId>,
    footerView: Option<ViewId>,
    emptyView: Option<ViewId>,
    defaultView: Option<ViewId>,
    badNetView: Option<ViewId>,
    emptyHolderView: Option<ViewId>,
    customLoadMoreView: Option<ViewId>,
    loadMoreResId: int)

  /** T is the item type; items are equal in Java's sense when `key` gives
      them the same value. */
  class TitanAdapter<T, K(==)> {
    const key: T -> K

    var data: Option<seq<T>>

    var hasHeader: bool
    var hasFooter: bool
    var hasMore: bool
    var emptyViewEnabled: bool
    var headViewEmpty: bool
    var footViewEmpty: bool

    var headerView: Option<ViewId>
    var footerView: Option<ViewId>
    var emptyView: Option<ViewId>
    var defaultView: Option<ViewId>
    var badNetView: Option<ViewId>
    var emptyHolderView: Option<ViewId>
    var customLoadMoreView: Option<ViewId>
    var loadMoreResId: int

    /** The notifications sent so far, oldest first. */
    ghost var log: seq<Event>

    function Decor(): Decorations
      reads this
    {
      Decorations(hasHeader, hasFooter, hasMore, emptyViewEnabled, headViewEmpty, footViewEmpty,
                  headerView, footerView, emptyView, defaultView, badNetView, emptyHolderView,
                  customLoadMoreView, loadMoreResId)
    }

    /** The flags the slot arithmetic reads. */
    function Snapshot(): SlotLayout.Flags
      reads this
    {
      SlotLayout.Flags(hasHeader, hasFooter, hasMore, emptyViewEnabled, headViewEmpty, footViewEmpty)
    }

    /** getAdapterItemCount: a null list counts as empty. */
    function AdapterItemCount(): (r: nat)
      reads this
      ensures r == 0 <==> data.None? || data.value == []
      ensures data.Some? ==> r == |data.value|
    {
      if data.Some? then |data.value| else 0
    }

    /** getItem: the element at a backing position; null when the list is
        null or the position is past the end; a negative position reaches
        List.get and throws. */
    function GetItem(position: int): (r: Outcome<Option<T>>)
      reads this
      ensures r.IndexOutOfBounds? <==> data.Some? && position < 0
      ensures r == Returned(None) <==> data.None? || position >= |data.value|
      ensures r.Returned? && r.value.Some? ==>
                0 <= position < |data.value| && r.value.value == data.value[position]
    {
      if data.Some? && position <= |data.value| - 1 then
        if 0 <= position then Returned(Some(data.value[position])) else IndexOutOfBounds
      else Returned(None)
    }

    /** Slot pos of the current layout shows backing index i. */
    ghost predicate ShowsItem(pos: int, i: int)
      reads this
    {
      SlotLayout.IsItemSlot(Snapshot(), AdapterItemCount(), pos, i)
    }

    /** Every backing index of the current list is shown at SlotOf. */
    lemma ShowsItemAt(i: int)
      requires 0 <= i < AdapterItemCount()
      ensures ShowsItem(SlotOf(i), i)
    {
      SlotLayout.ItemSlotOf(Snapshot(), AdapterItemCount(), i);
    }

    /** The slot a notification about backing index i names. */
    function SlotOf(i: int): int
      reads this
    {
      SlotLayout.SlotOf(Snapshot(), i)
    }

    constructor (key: T -> K)
      ensures this.key == key
      ensures data.None? && log == []
      ensures Decor() == Decorations(false, false, false, false, false, false,
                                     None, None, None, None, None, None, None, 0)
    {
      this.key := key;
      data := None;
      hasHeader, hasFooter, hasMore := false, false, false;
      emptyViewEnabled, headViewEmpty, footViewEmpty := false, false, false;
      headerView, footerView, emptyView, defaultView := None, None, None, None;
      badNetView, emptyHolderView, customLoadMoreView := None, None, None;
      loadMoreResId := 0;
      log := [];
    }

    // ---------------------------------------------------------------
    // Decorations

    method SetHeaderView(view: Option<ViewId>)
      modifies this
      ensures Decor() == old(Decor()).(hasHeader := true, headerView := view)
      ensures data == old(data) && log == old(log)
    {
      headerView := view;
      hasHeader := true;
    }

    method RemoveHeaderView()
      modifies this
      ensures Decor() == old(Decor()).(hasHeader := false, headerView := None)
      ensures data == old(data) && log == old(log) + [Reset]
    {
      headerView := None;
      hasHeader := false;
      log := log + [Reset];
    }

    /** Both setFooterView overloads; the orientation only picks layout
        parameters. */
    method SetFooterView(view: ViewId)
      modifies this
      ensures Decor() == old(Decor()).(hasFooter := true, footerView := Some(view))
      ensures data == old(data) && log == old(log)
    {
      footerView := Some(view);
      hasFooter := true;
    }

    method RemoveFooterView()
      modifies this
      ensures Decor() == old(Decor()).(hasFooter := false, footerView := None)
      ensures data == old(data) && log == old(log) + [Reset]
    {
      footerView := None;
      hasFooter := false;
      log := log + [Reset];
    }

    method SetHasMore(more: bool)
      modifies this
      ensures Decor() == old(Decor()).(hasMore := more)
      ensures data == old(data) && log == old(log) + [Reset]
    {
      hasMore := more;
      log := log + [Reset];
    }

    /** setCustomLoadMoreView(View): a custom view replaces any resource id. */
    method SetCustomLoadMoreView(view: Option<ViewId>)
      modifies this
      ensures Decor() == old(Decor()).(loadMoreResId := 0, customLoadMoreView := view)
      ensures data == old(data) && log == old(log)
    {
      loadMoreResId := 0;
      customLoadMoreView := view;
    }

    /** setCustomLoadMoreView(int): a resource id replaces any custom view. */
    method SetCustomLoadMoreResource(resourceId: int)
      modifies this
      ensures Decor() == old(Decor()).(customLoadMoreView := None, loadMoreResId := resourceId)
      ensures data == old(data) && log == old(log)
    {
      customLoadMoreView := None;
      loadMoreResId := resourceId;
    }

    // ---------------------------------------------------------------
    // Placeholder views

    method InitEmptyHolderView()
      modifies this
      ensures Decor() == old(Decor()).(emptyHolderView :=
                SelectHolder(defaultView, emptyView, badNetView, old(emptyHolderView)))
      ensures data == old(data) && log == old(log)
    {
      if defaultView.Some? {
        emptyHolderView := defaultView;
      } else if emptyView.Some? {
        emptyHolderView := emptyView;
      } else if badNetView.Some? {
        emptyHolderView := badNetView;
      }
    }

    method InitEmptyParams(isHeadViewEmpty: bool, isFootViewEmpty: bool)
      modifies this
      ensures Decor() == old(Decor()).(
                headViewEmpty := isHeadViewEmpty, footViewEmpty := isFootViewEmpty,
                emptyViewEnabled := true,
                emptyHolderView := SelectHolder(defaultView, emptyView, badNetView, old(emptyHolderView)))
      ensures data == old(data) && log == old(log)
    {
      headViewEmpty := isHeadViewEmpty;
      footViewEmpty := isFootViewEmpty;
      emptyViewEnabled := true;
      InitEmptyHolderView();
    }

    method SetEmptyView(isHeadViewEmpty: bool, isFootViewEmpty: bool, view: Option<ViewId>)
      modifies this
      ensures Decor() == old(Decor()).(
                emptyView := view,
                headViewEmpty := isHeadViewEmpty, footViewEmpty := isFootViewEmpty,
                emptyViewEnabled := true,
                emptyHolderView := SelectHolder(old(defaultView), view, old(badNetView), old(emptyHolderView)))
      ensures data == old(data) && log == old(log)
    {
      emptyView := view;
      InitEmptyParams(isHeadViewEmpty, isFootViewEmpty);
    }

    /** setEmptyView(View): hides header and footer beside the placeholder. */
    method SetEmptyViewHidingDecorations(view: Option<ViewId>)
      modifies this
      ensures Decor() == old(Decor()).(
                emptyView := view, headViewEmpty := true, footViewEmpty := true,
                emptyViewEnabled := true,
                emptyHolderView := SelectHolder(old(defaultView), view, old(badNetView), old(emptyHolderView)))
      ensures data == old(data) && log == old(log)
    {
      SetEmptyView(true, true, view);
    }

    method ShowEmptyView()
      modifies this
      ensures Decor() == old(Decor()).(emptyHolderView := old(emptyView))
      ensures data == old(data) && log == old(log) + [Reset]
    {
      emptyHolderView := emptyView;
      log := log + [Reset];
    }

    method SetDefaultView(isHeadViewEmpty: bool, isFootViewEmpty: bool, view: Option<ViewId>)
      modifies this
      ensures Decor() == old(Decor()).(
                defaultView := view,
                headViewEmpty := isHeadViewEmpty, footViewEmpty := isFootViewEmpty,
                emptyViewEnabled := true,
                emptyHolderView := SelectHolder(view, old(emptyView), old(badNetView), old(emptyHolderView)))
      ensures data == old(data) && log == old(log)
    {
      defaultView := view;
      InitEmptyParams(isHeadViewEmpty, isFootViewEmpty);
    }

    /** setDefaultView(View): hides header and footer beside the placeholder. */
    method SetDefaultViewHidingDecorations(view: Option<ViewId>)
      modifies this
      ensures Decor() == old(Decor()).(
                defaultView := view, headViewEmpty := true, footViewEmpty := true,
                emptyViewEnabled := true,
                emptyHolderView := SelectHolder(view, old(emptyView), old(badNetView), old(emptyHolderView)))
      ensures data == old(data) && log == old(log)
    {
      SetDefaultView(true, true, view);
    }

    method ShowDefaultView()
      modifies this
      ensures Decor() == old(Decor()).(emptyHolderView := old(defaultView))
      ensures data == old(data) && log == old(log) + [Reset]
    {
      emptyHolderView := defaultView;
      log := log + [Reset];
    }

    method SetBadNetView(isHeadViewEmpty: bool, isFootViewEmpty: bool, view: Option<ViewId>)
      modifies this
      ensures Decor() == old(Decor()).(
                badNetView := view,
                headViewEmpty := isHeadViewEmpty, footViewEmpty := isFootViewEmpty,
                emptyViewEnabled := true,
                emptyHolderView := SelectHolder(old(defaultView), old(emptyView), view, old(emptyHolderView)))
      ensures data == old(data) && log == old(log)
    {
      badNetView := view;
      InitEmptyParams(isHeadViewEmpty, isFootViewEmpty);
    }

    /** setBadNetView(View): hides header and footer beside the placeholder. */
    method SetBadNetViewHidingDecorations(view: Option<ViewId>)
      modifies this
      ensures Decor() == old(Decor()).(
                badNetView := view, headViewEmpty := true, footViewEmpty := true,
                emptyViewEnabled := true,
                emptyHolderView := SelectHolder(old(defaultView), old(emptyView), view, old(emptyHolderView)))
      ensures data == old(data) && log == old(log)
    {
      SetBadNetView(true, true, view);
    }

    method ShowBadNetView()
      modifies this
      ensures Decor() == old(Decor()).(emptyHolderView := old(badNetView))
      ensures data == old(data) && log == old(log) + [Reset]
    {
      emptyHolderView := badNetView;
      log := log + [Reset];
    }

    // ---------------------------------------------------------------
    // The list

    /** setData: adopts the list (possibly null) and redraws everything. */
    method SetData(items: Option<seq<T>>)
      modifies this
      ensures Decor() == old(Decor())
      ensures data == items && log == old(log) + [Reset]
    {
      data := items;
      log := log + [Reset];
    }

    /** clearData: empties a non-null list; a null list is left alone. */
    method ClearData()
      modifies this
      ensures Decor() == old(Decor())
      ensures old(data).Some? ==> data == Some([]) && log == old(log) + [Reset]
      ensures old(data).None? ==> data == old(data) && log == old(log)
    {
      if data.Some? {
        data := Some([]);
        log := log + [Reset];
      }
    }

    /** addDataEnd(T): appends a non-null item to a non-null list. */
    method AddDataEnd(item: Option<T>)
      modifies this
      ensures Decor() == old(Decor())
      ensures item.Some? && old(data).Some? ==>
                var n := |old(data).value|;
                && data == Some(old(data).value + [item.value])
                && log == old(log) + [Inserted(SlotOf(n))]
                && ShowsItem(SlotOf(n), n)
      ensures item.Some? && old(data).Some? && old(data).value != [] ==>
                SlotLayout.ItemCount(Snapshot(), AdapterItemCount())
                == SlotLayout.ItemCount(Snapshot(), old(AdapterItemCount())) + 1
      ensures item.None? || old(data).None? ==> data == old(data) && log == old(log)
    {
      if item.Some? && data.Some? {
        var startIndex := |data.value|;
        data := Some(data.value + [item.value]);
        log := log + [Inserted(startIndex + SlotLayout.HeaderNum(Snapshot()))];
        ShowsItemAt(startIndex);
        if startIndex > 0 {
          SlotLayout.ItemCountShift(Snapshot(), startIndex, 1);
        }
      }
    }

    /** addData(T, int): inserts a non-null item before position index,
        for 0 <= index <= size. */
    method AddData(item: Option<T>, index: int)
      modifies this
      ensures Decor() == old(Decor())
      ensures item.Some? && old(data).Some? && 0 <= index <= |old(data).value| ==>
                && data.Some?
                && JavaList.Insert(old(data).value, index, item.value) == Returned(data.value)
                && log == old(log) + [Inserted(SlotOf(index))]
                && ShowsItem(SlotOf(index), index)
      ensures !(item.Some? && old(data).Some? && 0 <= index <= |old(data).value|) ==>
                data == old(data) && log == old(log)
    {
      if item.Some? && data.Some? && 0 <= index && AdapterItemCount() >= index {
        var inserted := JavaList.Insert(data.value, index, item.value);
        data := Some(inserted.value);
        log := log + [Inserted(index + SlotLayout.HeaderNum(Snapshot()))];
        ShowsItemAt(index);
      }
    }

    /** addDataTop(T): inserts a non-null item at the front. */
    method AddDataTop(item: Option<T>)
      modifies this
      ensures Decor() == old(Decor())
      ensures item.Some? && old(data).Some? ==>
                && data == Some([item.value] + old(data).value)
                && log == old(log) + [Inserted(SlotOf(0))]
                && ShowsItem(SlotOf(0), 0)
      ensures item.None? || old(data).None? ==> data == old(data) && log == old(log)
    {
      if item.Some? && data.Some? {
        data := Some([item.value] + data.value);
        log := log + [Inserted(SlotLayout.HeaderNum(Snapshot()))];
        ShowsItemAt(0);
      }
    }

    /** addDataEnd(List): adopts the argument when the list is null;
        otherwise appends a non-null, non-empty list that is not the
        adapter's own (aliased says the argument is the very same list). */
    method AddDataEndAll(items: Option<seq<T>>, aliased: bool)
      requires aliased ==> items == data
      modifies this
      ensures Decor() == old(Decor())
      ensures old(data).None? ==> data == items && log == old(log) + [Reset]
      ensures old(data).Some? && items.Some? && |items.value| > 0 && !aliased ==>
                var n := |old(data).value|;
                && data == Some(old(data).value + items.value)
                && log == old(log) + [RangeInserted(SlotOf(n), |items.value|)]
                && forall i :: n <= i < n + |items.value| ==> ShowsItem(SlotOf(i), i)
      ensures old(data).Some? && (items.None? || |items.value| == 0 || aliased) ==>
                data == old(data) && log == old(log)
    {
      if data.None? {
        SetData(items);
      } else if items.Some? && |items.value| > 0 && !aliased {
        var startIndex := |data.value|;
        data := Some(data.value + items.value);
        log := log + [RangeInserted(startIndex + SlotLayout.HeaderNum(Snapshot()), |items.value|)];
        forall i | startIndex <= i < startIndex + |items.value| ensures ShowsItem(SlotOf(i), i) {
          ShowsItemAt(i);
        }
      }
    }

    /** addDataTop(List): as AddDataEndAll, but prepends. */
    method AddDataTopAll(items: Option<seq<T>>, aliased: bool)
      requires aliased ==> items == data
      modifies this
      ensures Decor() == old(Decor())
      ensures old(data).None? ==> data == items && log == old(log) + [Reset]
      ensures old(data).Some? && items.Some? && |items.value| > 0 && !aliased ==>
                && data == Some(items.value + old(data).value)
                && log == old(log) + [RangeInserted(SlotOf(0), |items.value|)]
                && forall i :: 0 <= i < |items.value| ==> ShowsItem(SlotOf(i), i)
      ensures old(data).Some? && (items.None? || |items.value| == 0 || aliased) ==>
                data == old(data) && log == old(log)
    {
      if data.None? {
        SetData(items);
      } else if items.Some? && 0 < |items.value| && !aliased {
        data := Some(items.value + data.value);
        log := log + [RangeInserted(SlotLayout.HeaderNum(Snapshot()), |items.value|)];
        forall i | 0 <= i < |items.value| ensures ShowsItem(SlotOf(i), i) {
          ShowsItemAt(i);
        }
      }
    }

    /** remove(T): drops the first element equal to a non-null item; an
        absent item changes nothing. The notified slot is the one that
        showed the element before the removal (same flags, old size). */
    method RemoveItem(item: Option<T>)
      modifies this
      ensures Decor() == old(Decor())
      ensures item.Some? && old(data).Some? && JavaList.Contains(old(data).value, item.value, key) ==>
                var i := JavaList.IndexOf(old(data).value, item.value, key);
                && data == Some(old(data).value[..i] + old(data).value[i + 1..])
                && log == old(log) + [Removed(SlotOf(i))]
                && SlotLayout.IsItemSlot(Snapshot(), |old(data).value|, SlotOf(i), i)
      ensures !(item.Some? && old(data).Some? && JavaList.Contains(old(data).value, item.value, key)) ==>
                data == old(data) && log == old(log)
    {
      if item.Some? && data.Some? {
        if JavaList.Contains(data.value, item.value, key) {
          var startIndex := JavaList.IndexOf(data.value, item.value, key);
          ShowsItemAt(startIndex);
          var remaining := JavaList.RemoveFirst(data.value, item.value, key);
          data := Some(remaining);
          if startIndex != -1 {
            log := log + [Removed(startIndex + SlotLayout.HeaderNum(Snapshot()))];
          }
        }
      }
    }

    /** remove(int), with the guard 0 <= index < size. Its guard as written
        also admits index == size (see AsWritten). Here the list call never
        throws, and the notified slot showed the removed element. */
    method RemoveAt(index: int)
      modifies this
      ensures Decor() == old(Decor())
      ensures old(data).Some? && 0 <= index < |old(data).value| ==>
                && data.Some?
                && JavaList.RemoveAt(old(data).value, index) == Returned(data.value)
                && log == old(log) + [Removed(SlotOf(index))]
                && SlotLayout.IsItemSlot(Snapshot(), |old(data).value|, SlotOf(index), index)
      ensures !(old(data).Some? && 0 <= index < |old(data).value|) ==>
                data == old(data) && log == old(log)
    {
      if data.Some? && 0 <= index && AdapterItemCount() > index {
        ShowsItemAt(index);
        var removed := JavaList.RemoveAt(data.value, index);
        data := Some(removed.value);
        log := log + [Removed(index + SlotLayout.HeaderNum(Snapshot()))];
      }
    }

    /** update(T), notifying only when the item is found; as written it
        also notifies when it is not (see AsWritten). The element equal to
        the item is replaced by it. */
    method Update(item: Option<T>)
      modifies this
      ensures Decor() == old(Decor())
      ensures item.Some? && old(data).Some? && JavaList.Contains(old(data).value, item.value, key) ==>
                var i := JavaList.IndexOf(old(data).value, item.value, key);
                && data.Some?
                && JavaList.Set(old(data).value, i, item.value) == Returned(data.value)
                && log == old(log) + [Changed(SlotOf(i))]
                && ShowsItem(SlotOf(i), i)
      ensures !(item.Some? && old(data).Some? && JavaList.Contains(old(data).value, item.value, key)) ==>
                data == old(data) && log == old(log)
    {
      if item.Some? && data.Some? {
        var startIndex := JavaList.IndexOf(data.value, item.value, key);
        if startIndex != -1 {
          data := Some(JavaList.Set(data.value, startIndex, item.value).value);
          log := log + [Changed(startIndex + SlotLayout.HeaderNum(Snapshot()))];
          ShowsItemAt(startIndex);
        }
      }
    }

    /** update(int, T): replaces position index with a non-null item. */
    method UpdateAt(index: int, item: Option<T>)
      modifies this
      ensures Decor() == old(Decor())
      ensures old(data).Some? && 0 <= index < |old(data).value| && item.Some? ==>
                && data.Some?
                && JavaList.Set(old(data).value, index, item.value) == Returned(data.value)
                && log == old(log) + [Changed(SlotOf(index))]
                && ShowsItem(SlotOf(index), index)
      ensures !(old(data).Some? && 0 <= index < |old(data).value| && item.Some?) ==>
                data == old(data) && log == old(log)
    {
      if data.Some? && index >= 0 && index < |data.value| && item.Some? {
        data := Some(JavaList.Set(data.value, index, item.value).value);
        log := log + [Changed(index + SlotLayout.HeaderNum(Snapshot()))];
        ShowsItemAt(index);
      }
    }
  }
}
