/** Which of the three placeholder views (default, empty, bad-net) is shown
    when the list is empty. */
module Placeholder {
  import opened Wrappers

  /** An Android View, known only by its identity. */
  datatype ViewId = ViewId(id: nat)

  /** initEmptyHolderView: the configured (non-null) view of highest
      priority, default before empty before bad-net; with none configured
      the current holder stays. */
  function SelectHolder(defaultView: Option<ViewId>, emptyView: Option<ViewId>,
                        badNetView: Option<ViewId>, current: Option<ViewId>): (r: Option<ViewId>)
    ensures r in {defaultView, emptyView, badNetView, current}
    ensures defaultView.Some? ==> r == defaultView
    ensures defaultView.None? && emptyView.Some? ==> r == emptyView
    ensures defaultView.None? && emptyView.None? && badNetView.Some? ==> r == badNetView
    ensures defaultView.None? && emptyView.None? && badNetView.None? ==> r == current
  {
    if defaultView.Some? then defaultView
    else if emptyView.Some? then emptyView
    else if badNetView.Some? then badNetView
    else current
  }

  /** Once any placeholder view is configured the choice no longer depends
      on the current holder: a later configuration call undoes an earlier
      show*View override. */
  lemma SelectionForgetsOverride(defaultView: Option<ViewId>, emptyView: Option<ViewId>,
                                 badNetView: Option<ViewId>, shown: Option<ViewId>, current: Option<ViewId>)
    requires defaultView.Some? || emptyView.Some? || badNetView.Some?
    ensures SelectHolder(defaultView, emptyView, badNetView, shown)
         == SelectHolder(defaultView, emptyView, badNetView, current)
    ensures SelectHolder(defaultView, emptyView, badNetView, current).Some?
  {
  }
}
