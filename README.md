# TitanAdapter in Dafny

A model of `TitanAdapter`, the RecyclerView adapter of the Titan library.
The adapter shows a backing list of items with three optional decorations around it:
a header slot before the items, a footer slot after them, and a "load more" slot between the items and the footer.
When the list is empty and the empty view is enabled, the whole list is replaced by one placeholder slot.
The model covers four parts of the adapter:

- the slot arithmetic: how many slots the adapter reports, what each slot shows, and the stable ids;
- how the placeholder view is chosen among the empty, default and bad-network views;
- the setters that toggle decorations;
- the list mutators, together with the change notification each one sends to the RecyclerView.

Modules:

- `Wrappers` defines `Option` and `Outcome`.
  - `Option` stands for a Java reference that may be null.
  - `Outcome` is a value or an `IndexOutOfBoundsException`.
- `JavaList` models the `java.util.List` operations the adapter calls as pure functions on `seq`: `indexOf`, `contains`, `add(int, E)`, `remove(int)`, `remove(Object)` and `set`.
  - `equals` is a key function `T -> K`: two elements are equal when their keys are.
- `SlotLayout` holds the slot arithmetic as pure functions of a snapshot of the six flags the adapter reads (`Flags`) and of the backing size `n`.
  - `Layout(f, n)` is an independent reference definition: the sequence of slot kinds, header first and footer last.
  - `ItemCount` and `ItemViewType` follow the Java code branch by branch. The lemmas prove that they agree with `Layout`.
- `Placeholder` models the priority rule that picks the placeholder view.
- `Titan` defines the class `TitanAdapter`. Its fields are those of the Java class.
  - Each method updates the fields in place.
  - Each notification (`notifyDataSetChanged`, `notifyItemInserted`, `notifyItemRangeInserted`, `notifyItemRemoved`, `notifyItemChanged`) is appended to a ghost log of `Event`s, in slot coordinates.
  - `remove(int)` and `update(T)` are modelled with their corrected behaviour (see "## Findings").
- `AsWritten` models, on values, `remove(int)` and `update(T)` exactly as the code is written, with lemmas that exhibit their defects.

Three behaviours of the code are worth knowing:

- `remove(int)` with `index == size` passes the guard and throws. `AsWritten.RemoveAtAsWritten` follows the code; the class's `RemoveAt` uses the corrected guard (see "## Findings").
- The first insertion into an empty, non-null list sends `notifyItemInserted`, not a full reset.
- `SlotLayout.BackingIndex` is plain subtraction of the header offset, with no range check, as in the code.

## Model

| member | source | states |
|---|---|---|
| JavaList.IndexOf | titan/src/main/java/com/youzan/titan/TitanAdapter.java:520 | the result is -1 exactly when no element equals the item; otherwise it is a valid index of an equal element, and no earlier element is equal |
| JavaList.Insert | titan/src/main/java/com/youzan/titan/TitanAdapter.java:482 | throws unless 0 <= i <= size; otherwise the new list is one longer, keeps the prefix, holds x at i and shifts the rest up by one |
| JavaList.RemoveAt | titan/src/main/java/com/youzan/titan/TitanAdapter.java:533 | throws unless 0 <= i < size; otherwise the element at i is dropped and the others keep their order |
| JavaList.Set | titan/src/main/java/com/youzan/titan/TitanAdapter.java:543 | throws unless 0 <= i < size; otherwise only position i changes, and it holds x |
| JavaList.Contains | titan/src/main/java/com/youzan/titan/TitanAdapter.java:519 | contains holds exactly when some element is equal to the item |
| JavaList.RemoveFirst | titan/src/main/java/com/youzan/titan/TitanAdapter.java:521 | remove(Object) leaves the list unchanged when no element is equal, and otherwise drops exactly the first equal element |
| SlotLayout.HeaderNum | titan/src/main/java/com/youzan/titan/TitanAdapter.java:445-451 | the header offset is at most 1, and it is 1 exactly when a header is set |
| SlotLayout.ItemCount | titan/src/main/java/com/youzan/titan/TitanAdapter.java:156-180 | getItemCount in placeholder mode is 1 plus the header and footer kept beside the placeholder; otherwise it is header offset + n + 1 for load-more when hasMore and n > 0 + 1 for a footer |
| SlotLayout.ItemViewType | titan/src/main/java/com/youzan/titan/TitanAdapter.java:194-230 | getItemViewType gives the placeholder type only in placeholder mode, the load-more type only when hasMore and n > 0, and the item type only outside placeholder mode, with backing index pos minus the header offset |
| SlotLayout.ItemCountIsLayoutLength | titan/src/main/java/com/youzan/titan/TitanAdapter.java:156-180 | getItemCount equals the length of the reference layout; in placeholder mode it counts the placeholder plus the decorations kept beside it, otherwise header + n + load-more (only when n > 0) + footer |
| SlotLayout.ItemViewTypeMatchesLayout | titan/src/main/java/com/youzan/titan/TitanAdapter.java:194-230 | for every slot below getItemCount, getItemViewType returns the kind the reference layout puts there |
| SlotLayout.NormalModeSlots | titan/src/main/java/com/youzan/titan/TitanAdapter.java:211-229 | outside placeholder mode: the header is exactly slot 0 when set; the footer is exactly the last slot when set; load-more is exactly the slot before the footer when hasMore and n > 0; the items fill the slots h..h+n-1 in order; no slot is the placeholder |
| SlotLayout.PlaceholderModeSlots | titan/src/main/java/com/youzan/titan/TitanAdapter.java:199-209 | in placeholder mode exactly one slot is the placeholder, right after the header when the header is kept; the header and footer appear only when they are not hidden; no item and no load-more slot appear |
| SlotLayout.ItemSlotIff | titan/src/main/java/com/youzan/titan/TitanAdapter.java:229 | a slot shows backing element i exactly when 0 <= i < n and the slot is i + header offset, and then the item hooks receive i |
| SlotLayout.ItemSlotOf | titan/src/main/java/com/youzan/titan/TitanAdapter.java:151 | every backing element is shown at its index plus the header offset |
| SlotLayout.BackingIndexRoundTrip | titan/src/main/java/com/youzan/titan/TitanAdapter.java:187 | converting a backing index to a slot and back gives the index again, in both directions |
| SlotLayout.ItemCountShift | titan/src/main/java/com/youzan/titan/TitanAdapter.java:156-180 | once the list is non-empty (or neither load-more nor the placeholder can appear), adding m elements adds exactly m slots |
| SlotLayout.ItemId | titan/src/main/java/com/youzan/titan/TitanAdapter.java:183-188 | as written: the last slot gets the sentinel -1 when hasMore (slot 0 excepted); every other slot delegates to getAdapterItemId of its backing index |
| SlotLayout.ItemIdOnItemSlots | titan/src/main/java/com/youzan/titan/TitanAdapter.java:183-188 | on every item slot getItemId returns the id of the element shown there: the sentinel never lands on an item |
| SlotLayout.ItemIdOnLoadMore | titan/src/main/java/com/youzan/titan/TitanAdapter.java:183-188 | with hasMore and n > 0: without a footer the load-more slot gets -1; with a footer the load-more slot gets getAdapterItemId(n), one past the list, and the footer gets -1 |
| SlotLayout.StableItemId | titan/src/main/java/com/youzan/titan/TitanAdapter.java:183-188 | corrected: the load-more slot gets -1; every other slot below getItemCount, items, header and footer alike, delegates to getAdapterItemId of its backing index, so each item slot gets the id of its element |
| SlotLayout.CustomsNum | titan/src/main/java/com/youzan/titan/TitanAdapter.java:458-469 | in placeholder mode getCustomsNum equals getItemCount; otherwise getCustomsNum + n equals getItemCount, plus one when hasMore is set on an empty list |
| SlotLayout.LoadMoreVisibility | titan/src/main/java/com/youzan/titan/TitanAdapter.java:122 | the load-more view is made visible (getItemCount > getCustomsNum and hasMore) exactly when the layout contains a load-more slot |
| Placeholder.SelectHolder | titan/src/main/java/com/youzan/titan/TitanAdapter.java:335-343 | the chosen view is the default view if set, else the empty view if set, else the bad-network view if set, else the current holder unchanged |
| Placeholder.SelectionForgetsOverride | titan/src/main/java/com/youzan/titan/TitanAdapter.java:328-343 | a later selection ignores whichever holder a show call had forced: it depends only on the three configured views when one of them is set |
| Titan.TitanAdapter.AdapterItemCount | titan/src/main/java/com/youzan/titan/TitanAdapter.java:82-84 | a null list counts as 0; otherwise the count is the list size |
| Titan.TitanAdapter.GetItem | titan/src/main/java/com/youzan/titan/TitanAdapter.java:190-192 | null when the list is null or the position is at or past the end; throws for a negative position on a non-null list; otherwise the element at that position |
| Titan.TitanAdapter.constructor | titan/src/main/java/com/youzan/titan/TitanAdapter.java:29-48 | a new adapter has a null list, no decorations, all flags off and an empty log |
| Titan.TitanAdapter.SetHeaderView | titan/src/main/java/com/youzan/titan/TitanAdapter.java:390-393 | sets the header view and the header flag; nothing else changes and no notification is sent |
| Titan.TitanAdapter.RemoveHeaderView | titan/src/main/java/com/youzan/titan/TitanAdapter.java:395-399 | clears the header view and flag, then sends one reset |
| Titan.TitanAdapter.SetFooterView | titan/src/main/java/com/youzan/titan/TitanAdapter.java:406-419 | sets the footer view and flag; no notification |
| Titan.TitanAdapter.RemoveFooterView | titan/src/main/java/com/youzan/titan/TitanAdapter.java:422-426 | clears the footer view and flag, then sends one reset |
| Titan.TitanAdapter.SetHasMore | titan/src/main/java/com/youzan/titan/TitanAdapter.java:428-431 | sets hasMore, then sends one reset |
| Titan.TitanAdapter.SetCustomLoadMoreView | titan/src/main/java/com/youzan/titan/TitanAdapter.java:375-378 | stores the custom load-more view and clears the resource id; nothing else changes |
| Titan.TitanAdapter.SetCustomLoadMoreResource | titan/src/main/java/com/youzan/titan/TitanAdapter.java:380-383 | stores the load-more layout resource and clears the custom view; nothing else changes |
| Titan.TitanAdapter.InitEmptyHolderView | titan/src/main/java/com/youzan/titan/TitanAdapter.java:335-343 | the holder becomes the view SelectHolder picks; nothing else changes |
| Titan.TitanAdapter.InitEmptyParams | titan/src/main/java/com/youzan/titan/TitanAdapter.java:328-333 | enables the placeholder, records both hide flags, and re-selects the holder by priority |
| Titan.TitanAdapter.SetEmptyView | titan/src/main/java/com/youzan/titan/TitanAdapter.java:240-243 | stores the empty view, records the caller's two hide flags, enables the placeholder and re-selects the holder |
| Titan.TitanAdapter.SetEmptyViewHidingDecorations | titan/src/main/java/com/youzan/titan/TitanAdapter.java:251-253 | the same, hiding both header and footer beside the placeholder |
| Titan.TitanAdapter.ShowEmptyView | titan/src/main/java/com/youzan/titan/TitanAdapter.java:259-262 | forces the holder to the empty view, even when it is null, and sends one reset |
| Titan.TitanAdapter.SetDefaultView | titan/src/main/java/com/youzan/titan/TitanAdapter.java:272-275 | stores the default view, records the caller's two hide flags, enables the placeholder and re-selects the holder |
| Titan.TitanAdapter.SetDefaultViewHidingDecorations | titan/src/main/java/com/youzan/titan/TitanAdapter.java:283-285 | the same, hiding both header and footer beside the placeholder |
| Titan.TitanAdapter.ShowDefaultView | titan/src/main/java/com/youzan/titan/TitanAdapter.java:291-294 | forces the holder to the default view and sends one reset |
| Titan.TitanAdapter.SetBadNetView | titan/src/main/java/com/youzan/titan/TitanAdapter.java:304-307 | stores the bad-network view, records the caller's two hide flags, enables the placeholder and re-selects the holder |
| Titan.TitanAdapter.SetBadNetViewHidingDecorations | titan/src/main/java/com/youzan/titan/TitanAdapter.java:315-317 | the same, hiding both header and footer beside the placeholder |
| Titan.TitanAdapter.ShowBadNetView | titan/src/main/java/com/youzan/titan/TitanAdapter.java:323-326 | forces the holder to the bad-network view and sends one reset |
| Titan.TitanAdapter.SetData | titan/src/main/java/com/youzan/titan/TitanAdapter.java:561-564 | replaces the list and sends one reset; the decorations are unchanged |
| Titan.TitanAdapter.ClearData | titan/src/main/java/com/youzan/titan/TitanAdapter.java:566-571 | a non-null list becomes empty and one reset is sent; a null list stays null and nothing is sent |
| Titan.TitanAdapter.AddDataEnd | titan/src/main/java/com/youzan/titan/TitanAdapter.java:471-478 | with a non-null item and list, the item is appended and the slot that now shows it is notified as inserted, and on a non-empty list getItemCount grows by exactly one; otherwise nothing changes |
| Titan.TitanAdapter.AddData | titan/src/main/java/com/youzan/titan/TitanAdapter.java:480-486 | with a non-null item, a non-null list and 0 <= position <= size, the item is inserted at position and its new slot notified; otherwise nothing changes |
| Titan.TitanAdapter.AddDataTop | titan/src/main/java/com/youzan/titan/TitanAdapter.java:509-515 | with a non-null item and list, the item is prepended and the slot of index 0, which now shows it, is notified; otherwise nothing changes |
| Titan.TitanAdapter.AddDataEndAll | titan/src/main/java/com/youzan/titan/TitanAdapter.java:488-497 | a null list adopts the argument (as setData, with one reset); a non-null, non-empty argument that is not the adapter's own list is appended, a range insert is sent from the slot of the old size counting the items added, and each added element is shown at its slot; otherwise nothing changes |
| Titan.TitanAdapter.AddDataTopAll | titan/src/main/java/com/youzan/titan/TitanAdapter.java:499-507 | a null list adopts the argument (as setData, with one reset); a non-null, non-empty argument that is not the adapter's own list is prepended, a range insert is sent from the header offset, and each added element is shown at its slot; otherwise nothing changes |
| Titan.TitanAdapter.RemoveItem | titan/src/main/java/com/youzan/titan/TitanAdapter.java:517-529 | removes the first element equal to a non-null item and notifies the slot that showed it; an absent item changes nothing |
| Titan.TitanAdapter.RemoveAt | titan/src/main/java/com/youzan/titan/TitanAdapter.java:531-537 | corrected guard: for a non-null list and 0 <= index < size, the element is removed and the slot that showed it is notified; any other index changes nothing and never throws |
| Titan.TitanAdapter.Update | titan/src/main/java/com/youzan/titan/TitanAdapter.java:539-547 | corrected: when an equal element exists it is replaced and the slot showing it is notified; otherwise nothing changes and nothing is sent |
| Titan.TitanAdapter.UpdateAt | titan/src/main/java/com/youzan/titan/TitanAdapter.java:549-555 | for a valid index and non-null item, only that position changes and the slot showing it is notified; otherwise nothing changes |
| AsWritten.RemoveAtAsWritten | titan/src/main/java/com/youzan/titan/TitanAdapter.java:531-537 | as written: throws exactly when the list is non-null and index == size; a valid index removes that element and notifies the slot that showed it; an index outside 0..size changes nothing and sends nothing |
| AsWritten.RemoveAtAsWrittenThrowsAtSize | titan/src/main/java/com/youzan/titan/TitanAdapter.java:532-533 | for every non-null list, remove(size) passes the guard and throws |
| AsWritten.UpdateAsWritten | titan/src/main/java/com/youzan/titan/TitanAdapter.java:539-547 | as written: with a non-null item and list, slot indexOf + header offset is notified whether or not the item is found; a found element is replaced by the item, and an absent item leaves the list unchanged; with a null item or list nothing is sent |
| AsWritten.UpdateAsWrittenNotifiesNonItem | titan/src/main/java/com/youzan/titan/TitanAdapter.java:541-545 | for an item equal to no element, the list is unchanged and slot header offset - 1 is notified; that slot, when it exists, shows no item |

## Left out

- View creation, inflation and binding (`onCreateViewHolder`, `onBindViewHolder`, `createHeaderViewHolder` and the rest) are left out: they build and mutate Android views. The one fact binding depends on, whether the load-more view is visible (line 122), is modelled as `SlotLayout.LoadMoreVisibility`.
- Binding fills the footer slot only when load-more is off (line 128); otherwise the footer is drawn with zero size. This is view state and is left out: the model's layout still counts the footer slot, as getItemCount does.
- Click dispatch and `setItemClickSupport` are left out: they are event plumbing with no state of the adapter.
- The subclass hooks are parameters or fixed choices:
  - `getAdapterItemId` is the parameter `idOf` of `ItemId` and `StableItemId`;
  - `getAttackItemViewType` is represented by `Kind.Item(index)`, which carries the backing index the hook receives.
- `filterData` is the identity in this class and is not applied.
- The `notify*` calls to RecyclerView are the ghost `log`. What RecyclerView then does with them is left out.
- The view-type integer constants become the datatype `Kind`. Their numeric values are not modelled.
- Reference aliasing of the list:
  - `setData` and the `addData*All` methods on a null list store the caller's `List` object itself. The model stores its contents, so later changes the caller makes through its own reference are not seen.
  - `AddDataEndAll` and `AddDataTopAll` take an `aliased` flag to model passing the adapter's own list back to it.
- The getters (`getData`, `getHeaderView` and the like) are plain field reads and are left out.
- Integer widths: slot counts and ids are unbounded integers. Java's 32-bit `int` and 64-bit `long` overflow cannot happen for list sizes and is not modelled.
- Elements of the list are never null in the model (`seq<T>`). Java `equals` is modelled as equality of a key function.
- Titan.TitanAdapter.SetFooterView: takes a non-null view, because setFooterView dereferences its argument (line 411) and a null argument would throw `NullPointerException`.
- The orientation-dependent layout parameters set in `setFooterView` are left out: they are Android view state.

## Findings

| source | as written | input that shows it | evidently intended | confidence | as-written member | corrected member |
|---|---|---|---|---|---|---|
| titan/src/main/java/com/youzan/titan/TitanAdapter.java:531-537 | the guard `getAdapterItemCount() >= index` admits `index == size`, and then `mData.remove(index)` throws | any non-null list with `index == size`, e.g. `remove(0)` on an empty list | guard `index < size`, making an out-of-range index a no-op | high; not executed | AsWritten.RemoveAtAsWritten, AsWritten.RemoveAtAsWrittenThrowsAtSize | Titan.TitanAdapter.RemoveAt |
| titan/src/main/java/com/youzan/titan/TitanAdapter.java:539-547 | `notifyItemChanged(startIndex + getCustomHeaderNum())` runs even when `indexOf` returned -1 | an item equal to no element: slot -1 is notified without a header, and the header slot 0 with one | notify only when the item was found | high; not executed | AsWritten.UpdateAsWritten, AsWritten.UpdateAsWrittenNotifiesNonItem | Titan.TitanAdapter.Update |
| titan/src/main/java/com/youzan/titan/TitanAdapter.java:183-188 | the sentinel id -1 goes to the last slot, which is the footer when a footer is set | a footer set, hasMore set, n >= 1 elements: the load-more slot asks getAdapterItemId(n), one past the list | the load-more slot gets -1; header and footer still delegate to the hook | medium; not executed | SlotLayout.ItemId, SlotLayout.ItemIdOnLoadMore | SlotLayout.StableItemId |
