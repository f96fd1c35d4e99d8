/** The slot arithmetic of the adapter: how the backing list and the
    decorations (header, load-more sentinel, footer, placeholder) are laid
    out as slots of the RecyclerView. Everything here is a function of a
    snapshot of the six decoration flags and of n, the adapter item count
    (getAdapterItemCount: the list size, 0 when the list is null). */
module SlotLayout {

  /** The six flags that shift every index. headViewEmpty / footViewEmpty
      hide the header / footer while the placeholder is shown. */
  datatype Flags = Flags(
    hasHeader: bool,
    hasFooter: bool,
    hasMore: bool,
    emptyViewEnabled: bool,
    headViewEmpty: bool,
    footViewEmpty: bool)

  /** The view type of a slot. Item carries the backing index pos - h that
      the item branch hands to the subclass hooks. */
  datatype Kind = Header | Footer | More | Empty | Item(index: int)

  function Bit(b: bool): (r: nat) {
    if b then 1 else 0
  }

  /** getCustomHeaderNum: how many slots precede the first item. */
  function HeaderNum(f: Flags): (r: nat)
    ensures r <= 1
    ensures r == 1 <==> f.hasHeader
  {
    if f.hasHeader then 1 else 0
  }

  /** The slot that shows backing index i (the offset added to every
      change notification). */
  function SlotOf(f: Flags, i: int): (r: int) {
    i + HeaderNum(f)
  }

  /** The backing index handed to the item hooks for slot pos. */
  function BackingIndex(f: Flags, pos: int): (r: int) {
    pos - HeaderNum(f)
  }

  /** The placeholder replaces the items when there are none and one of
      the placeholder views has been configured. */
  predicate PlaceholderShown(f: Flags, n: nat) {
    n == 0 && f.emptyViewEnabled
  }

  /** Header / footer shown beside the placeholder. */
  predicate HeaderBesidePlaceholder(f: Flags) {
    f.hasHeader && !f.headViewEmpty
  }

  predicate FooterBesidePlaceholder(f: Flags) {
    f.hasFooter && !f.footViewEmpty
  }

  function Opt(b: bool, k: Kind): (r: seq<Kind>) {
    if b then [k] else []
  }

  function ItemSlots(n: nat): (r: seq<Kind>) {
    seq(n, i => Item(i))
  }

  /** The intended layout, slot by slot: the reference the arithmetic
      below is proved against. */
  function Layout(f: Flags, n: nat): (r: seq<Kind>) {
    if PlaceholderShown(f, n) then
      Opt(HeaderBesidePlaceholder(f), Header) + [Empty] + Opt(FooterBesidePlaceholder(f), Footer)
    else
      Opt(f.hasHeader, Header) + ItemSlots(n) + Opt(f.hasMore && n > 0, More) + Opt(f.hasFooter, Footer)
  }

  /** The kind at each position of the normal layout: header, items,
      load-more, footer, in that order. */
  ghost function NormalKindAt(f: Flags, n: nat, pos: int): Kind {
    var h := HeaderNum(f);
    if pos < h then Header
    else if pos < h + n then Item(pos - h)
    else if pos == h + n && f.hasMore && n > 0 then More
    else Footer
  }

  /** The kind at each position of the placeholder layout. */
  ghost function PlaceholderKindAt(f: Flags, pos: int): Kind {
    if HeaderBesidePlaceholder(f) && pos == 0 then Header
    else if pos == Bit(HeaderBesidePlaceholder(f)) then Empty
    else Footer
  }

  lemma NormalLayoutIndex(f: Flags, n: nat, pos: int)
    requires !PlaceholderShown(f, n)
    requires 0 <= pos < ItemCount(f, n)
    ensures Layout(f, n)[pos] == NormalKindAt(f, n, pos)
  {
    ItemCountIsLayoutLength(f, n);
    var a, b, c, d := Opt(f.hasHeader, Header), ItemSlots(n), Opt(f.hasMore && n > 0, More), Opt(f.hasFooter, Footer);
    assert Layout(f, n) == ((a + b) + c) + d;
    if pos < |a| {
      assert (((a + b) + c) + d)[pos] == (a + b)[pos] == a[pos];
    } else if pos < |a| + |b| {
      assert (((a + b) + c) + d)[pos] == (a + b)[pos] == b[pos - |a|];
    } else if pos < |a| + |b| + |c| {
      assert (((a + b) + c) + d)[pos] == ((a + b) + c)[pos] == c[pos - |a| - |b|];
    } else {
      assert (((a + b) + c) + d)[pos] == d[pos - |a| - |b| - |c|];
    }
  }

  lemma PlaceholderLayoutIndex(f: Flags, n: nat, pos: int)
    requires PlaceholderShown(f, n)
    requires 0 <= pos < ItemCount(f, n)
    ensures Layout(f, n)[pos] == PlaceholderKindAt(f, pos)
  {
    ItemCountIsLayoutLength(f, n);
  }

  /** getItemCount, with its custom-slot counter: n plus the decoration
      slots, or the placeholder and the decorations kept beside it. */
  function ItemCount(f: Flags, n: nat): (r: nat)
    ensures PlaceholderShown(f, n) ==>
              r == 1 + Bit(HeaderBesidePlaceholder(f)) + Bit(FooterBesidePlaceholder(f))
    ensures !PlaceholderShown(f, n) ==>
              r == HeaderNum(f) + n + Bit(f.hasMore && n > 0) + Bit(f.hasFooter)
  {
    var customTypeCount := Bit(f.hasMore && 0 < n) + Bit(f.hasHeader) + Bit(f.hasFooter);
    var customTypeCount :=
      if n == 0 && f.emptyViewEnabled then
        1 + Bit(!f.footViewEmpty && f.hasFooter) + Bit(!f.headViewEmpty && f.hasHeader)
      else customTypeCount;
    n + customTypeCount
  }

  /** getItemViewType: the checks in getItemViewType's order (header before
      footer before load-more before item). */
  function ItemViewType(f: Flags, n: nat, pos: int): (r: Kind)
    ensures r == Empty ==> PlaceholderShown(f, n)
    ensures r == More ==> !PlaceholderShown(f, n) && f.hasMore && n > 0
    ensures r.Item? ==> !PlaceholderShown(f, n) && r.index == BackingIndex(f, pos)
  {
    var count := ItemCount(f, n);
    if f.emptyViewEnabled && n == 0 then
      if !f.headViewEmpty && f.hasHeader && pos == 0 then Header
      else if !f.footViewEmpty && f.hasFooter && pos == count - 1 then Footer
      else Empty
    else if f.hasHeader && pos == 0 then Header
    else if f.hasFooter && pos == count - 1 then Footer
    else if f.hasMore && n > 0 && ((!f.hasFooter && pos == count - 1) || (f.hasFooter && pos == count - 2)) then More
    else Item(BackingIndex(f, pos))
  }

  /** getItemCount is the length of the intended layout: outside
      placeholder mode n + h + f + (1 if load-more is on and n > 0), in
      placeholder mode 1 + the header and footer shown beside it. */
  lemma ItemCountIsLayoutLength(f: Flags, n: nat)
    ensures ItemCount(f, n) == |Layout(f, n)|
    ensures !PlaceholderShown(f, n) ==>
              ItemCount(f, n) == n + HeaderNum(f) + Bit(f.hasFooter) + Bit(f.hasMore && n > 0)
    ensures PlaceholderShown(f, n) ==>
              ItemCount(f, n) == 1 + Bit(HeaderBesidePlaceholder(f)) + Bit(FooterBesidePlaceholder(f))
  {
  }

  lemma NormalViewType(f: Flags, n: nat, pos: int)
    requires !PlaceholderShown(f, n)
    requires 0 <= pos < ItemCount(f, n)
    ensures ItemViewType(f, n, pos) == NormalKindAt(f, n, pos)
  {
    assert ItemCount(f, n) == HeaderNum(f) + n + Bit(f.hasMore && n > 0) + Bit(f.hasFooter);
  }

  lemma PlaceholderViewType(f: Flags, n: nat, pos: int)
    requires PlaceholderShown(f, n)
    requires 0 <= pos < ItemCount(f, n)
    ensures ItemViewType(f, n, pos) == PlaceholderKindAt(f, pos)
  {
    assert ItemCount(f, n) == 1 + Bit(HeaderBesidePlaceholder(f)) + Bit(FooterBesidePlaceholder(f));
  }

  /** The classification agrees with the intended layout on every slot. */
  lemma ItemViewTypeMatchesLayout(f: Flags, n: nat, pos: int)
    requires 0 <= pos < ItemCount(f, n)
    ensures ItemCount(f, n) == |Layout(f, n)|
    ensures ItemViewType(f, n, pos) == Layout(f, n)[pos]
  {
    ItemCountIsLayoutLength(f, n);
    if PlaceholderShown(f, n) {
      PlaceholderViewType(f, n, pos);
      PlaceholderLayoutIndex(f, n, pos);
    } else {
      NormalViewType(f, n, pos);
      NormalLayoutIndex(f, n, pos);
    }
  }

  /** Outside placeholder mode the slots are: the header exactly at 0, the
      footer exactly at the last slot, the load-more sentinel right after
      the items (last without a footer, second to last with one), and the
      items in [h, h + n) showing backing index pos - h. */
  lemma NormalModeSlots(f: Flags, n: nat, pos: int)
    requires !PlaceholderShown(f, n)
    requires 0 <= pos < ItemCount(f, n)
    ensures ItemViewType(f, n, pos) == Header <==> f.hasHeader && pos == 0
    ensures ItemViewType(f, n, pos) == Footer <==> f.hasFooter && pos == ItemCount(f, n) - 1
    ensures ItemViewType(f, n, pos) == More <==>
              f.hasMore && n > 0 && pos == ItemCount(f, n) - 1 - Bit(f.hasFooter)
    ensures ItemViewType(f, n, pos).Item? <==> HeaderNum(f) <= pos < HeaderNum(f) + n
    ensures ItemViewType(f, n, pos).Item? ==> ItemViewType(f, n, pos).index == BackingIndex(f, pos)
    ensures ItemViewType(f, n, pos) != Empty
  {
    NormalViewType(f, n, pos);
  }

  /** In placeholder mode exactly one slot is the placeholder, at 0 or at 1
      when a header is shown beside it; header and footer appear only when
      not suppressed; there is no load-more slot and no item slot. */
  lemma PlaceholderModeSlots(f: Flags, n: nat, pos: int)
    requires PlaceholderShown(f, n)
    requires 0 <= pos < ItemCount(f, n)
    ensures ItemViewType(f, n, pos) == Empty <==> pos == Bit(HeaderBesidePlaceholder(f))
    ensures ItemViewType(f, n, pos) == Header <==> HeaderBesidePlaceholder(f) && pos == 0
    ensures ItemViewType(f, n, pos) == Footer <==> FooterBesidePlaceholder(f) && pos == ItemCount(f, n) - 1
    ensures ItemViewType(f, n, pos) != More && !ItemViewType(f, n, pos).Item?
  {
    PlaceholderViewType(f, n, pos);
  }

  /** Slot pos shows backing index i. */
  predicate IsItemSlot(f: Flags, n: nat, pos: int, i: int) {
    0 <= pos < ItemCount(f, n) && ItemViewType(f, n, pos) == Item(i)
  }

  /** The item slots are in one-to-one correspondence with the backing
      indices [0, n), through SlotOf one way and BackingIndex the other. */
  lemma ItemSlotIff(f: Flags, n: nat, pos: int, i: int)
    ensures IsItemSlot(f, n, pos, i) <==> 0 <= i < n && pos == SlotOf(f, i)
    ensures IsItemSlot(f, n, pos, i) ==> BackingIndex(f, pos) == i
  {
    if 0 <= i < n && pos == SlotOf(f, i) {
      NormalModeSlots(f, n, pos);
    }
    if IsItemSlot(f, n, pos, i) {
      if PlaceholderShown(f, n) {
        PlaceholderModeSlots(f, n, pos);
      } else {
        NormalModeSlots(f, n, pos);
      }
    }
  }

  /** Backing index i of a list of n items is shown at SlotOf(f, i). */
  lemma ItemSlotOf(f: Flags, n: nat, i: int)
    requires 0 <= i < n
    ensures IsItemSlot(f, n, SlotOf(f, i), i)
  {
    ItemSlotIff(f, n, SlotOf(f, i), i);
  }

  /** SlotOf and BackingIndex undo each other. */
  lemma BackingIndexRoundTrip(f: Flags, i: int, pos: int)
    ensures BackingIndex(f, SlotOf(f, i)) == i
    ensures SlotOf(f, BackingIndex(f, pos)) == pos
  {
  }

  /** Adding m items to a non-empty list adds exactly m slots; from an
      empty list this holds only without load-more and without a
      placeholder. */
  lemma ItemCountShift(f: Flags, n: nat, m: nat)
    requires n > 0 || (!f.hasMore && !f.emptyViewEnabled)
    ensures ItemCount(f, n + m) == ItemCount(f, n) + m
  {
  }

  /** getItemId: -1 for the last slot when load-more is on (and the slot is
      not slot 0); otherwise the subclass hook getAdapterItemId (idOf) of
      pos - h. */
  function ItemId(f: Flags, n: nat, pos: int, idOf: int -> int): (r: int)
    ensures f.hasMore && pos != 0 && pos == ItemCount(f, n) - 1 ==> r == -1
    ensures !(f.hasMore && pos != 0 && pos == ItemCount(f, n) - 1) ==> r == idOf(BackingIndex(f, pos))
  {
    if f.hasMore && 0 != pos && ItemCount(f, n) - 1 == pos then -1
    else idOf(BackingIndex(f, pos))
  }

  /** Every item slot gets the id of the item it shows. */
  lemma ItemIdOnItemSlots(f: Flags, n: nat, pos: int, idOf: int -> int)
    requires 0 <= pos < ItemCount(f, n) && ItemViewType(f, n, pos).Item?
    ensures ItemId(f, n, pos, idOf) == idOf(ItemViewType(f, n, pos).index)
  {
    if PlaceholderShown(f, n) {
      PlaceholderModeSlots(f, n, pos);
    } else {
      NormalModeSlots(f, n, pos);
    }
  }

  /** The sentinel goes to the load-more slot only when there is no
      footer. With a footer the sentinel goes to the footer, and the
      load-more slot is given the id of backing index n, one past the
      last item. */
  lemma ItemIdOnLoadMore(f: Flags, n: nat, pos: int, idOf: int -> int)
    requires 0 <= pos < ItemCount(f, n) && ItemViewType(f, n, pos) == More
    ensures !f.hasFooter ==> ItemId(f, n, pos, idOf) == -1
    ensures f.hasFooter ==> ItemId(f, n, pos, idOf) == idOf(n)
    ensures f.hasFooter ==> ItemViewType(f, n, pos + 1) == Footer && ItemId(f, n, pos + 1, idOf) == -1
  {
    if PlaceholderShown(f, n) {
      PlaceholderModeSlots(f, n, pos);
    } else {
      NormalModeSlots(f, n, pos);
    }
  }

  /** The intended getItemId: the sentinel on the load-more slot itself
      (which follows the last item), the hook's id everywhere else. */
  function StableItemId(f: Flags, n: nat, pos: int, idOf: int -> int): (r: int)
    ensures 0 <= pos < ItemCount(f, n) && ItemViewType(f, n, pos) == More ==> r == -1
    ensures 0 <= pos < ItemCount(f, n) && ItemViewType(f, n, pos).Item? ==>
              r == idOf(ItemViewType(f, n, pos).index)
    ensures 0 <= pos < ItemCount(f, n) && ItemViewType(f, n, pos) != More ==>
              r == idOf(BackingIndex(f, pos))
  {
    if f.hasMore && n > 0 && pos == SlotOf(f, n) then -1
    else idOf(BackingIndex(f, pos))
  }

  /** getCustomsNum: the decoration count used to decide whether the
      load-more view is visible. It counts load-more even when the list is
      empty, so it exceeds the non-item slots by one in that case. */
  function CustomsNum(f: Flags, n: nat): (r: nat)
    ensures PlaceholderShown(f, n) ==> r == ItemCount(f, n)
    ensures !PlaceholderShown(f, n) ==> r + n == ItemCount(f, n) + Bit(f.hasMore && n == 0)
  {
    var customs := Bit(f.hasFooter) + Bit(f.hasHeader) + Bit(f.hasMore);
    if n == 0 && f.emptyViewEnabled then
      1 + Bit(f.hasFooter && !f.footViewEmpty) + Bit(f.hasHeader && !f.headViewEmpty)
    else customs
  }

  /** onBindViewHolder shows the load-more view when
      getItemCount() > getCustomsNum() and hasMore: exactly when the layout
      has a load-more slot. */
  lemma LoadMoreVisibility(f: Flags, n: nat)
    ensures (ItemCount(f, n) > CustomsNum(f, n) && f.hasMore) <==>
              exists pos :: 0 <= pos < ItemCount(f, n) && ItemViewType(f, n, pos) == More
  {
    if f.hasMore && n > 0 {
      var pos := SlotOf(f, n);
      NormalModeSlots(f, n, pos);
    } else {
      forall pos | 0 <= pos < ItemCount(f, n) ensures ItemViewType(f, n, pos) != More {
        if PlaceholderShown(f, n) {
          PlaceholderModeSlots(f, n, pos);
        } else {
          NormalModeSlots(f, n, pos);
        }
      }
    }
  }
}
