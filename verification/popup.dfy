/**
 * The popup's tab-list controller: the closure state of the page script
 * (the cached tabs, the search text, the selection index) together with what
 * it writes to the page (the rendered list and the count label) and the one
 * thing it asks of the host on activation (which tab, and that the popup
 * closes). Each host or user event is one method.
 */
module Popup {
  import opened Wrappers
  import opened Text
  import opened TabList

  /** The keys `handleKeyNavigation` distinguishes; every other key is `OtherKey`. */
  datatype Key = ArrowDown | ArrowUp | Enter | OtherKey

  class Controller {
    /** The cached tab collection, in host order. */
    var allTabs: seq<Tab>
    /** The raw text of the search field; it is lower-cased where it is used. */
    var query: string
    /** Index into the filtered view; -1 means nothing is selected. */
    var selectedIndex: int
    /** The text of the count label. */
    var countLabel: string
    /** The list items currently on the page, in order. */
    var entries: seq<Entry>
    /** Set once the popup has asked to close itself. */
    var popupClosed: bool
    /** The tab the popup asked the host to activate and focus, if any. */
    var activated: Option<Tab>

    /** The selection index never drops below "nothing selected". */
    ghost predicate Valid()
      reads this
    {
      selectedIndex >= -1
    }

    /** The filtered view for the current state. */
    function View(): seq<Tab>
      reads this
    {
      FilterTabs(allTabs, Lower(query))
    }

    /** The page before the host has answered the initial query. */
    constructor ()
      ensures Valid()
      ensures allTabs == [] && query == "" && selectedIndex == -1
      ensures entries == [] && countLabel == ""
      ensures !popupClosed && activated == None
    {
      allTabs := [];
      query := "";
      selectedIndex := -1;
      countLabel := "";
      entries := [];
      popupClosed := false;
      activated := None;
    }

    /**
     * `displayTabs(tabs)`: rebuilds the list item by item; the count label is
     * refreshed only when `tabs` is non-empty.
     */
    method DisplayTabs(tabs: seq<Tab>)
      modifies this`entries, this`countLabel
      ensures entries == Rendered(tabs, selectedIndex)
      ensures countLabel == if tabs == [] then old(countLabel) else TabCountLabel(allTabs, query)
    {
      if tabs == [] {
        entries := [NoTabsFound];
        return;
      }
      entries := [];
      var i := 0;
      while i < |tabs|
        invariant 0 <= i <= |tabs|
        invariant entries == Rendered(tabs, selectedIndex)[..i]
      {
        entries := entries + [Item(tabs[i], i, selectedIndex)];
        i := i + 1;
      }
      countLabel := TabCountLabel(allTabs, query);
    }

    /** `updateSelectedTab`: walks the items on the page and re-marks them. */
    method UpdateSelectedTab()
      modifies this`entries
      ensures entries == Marked(old(entries), selectedIndex)
    {
      ghost var before := entries;
      var i := 0;
      while i < |entries|
        invariant 0 <= i <= |entries| == |before|
        invariant entries[..i] == Marked(before, selectedIndex)[..i]
        invariant entries[i..] == before[i..]
      {
        entries := entries[i := entries[i].(selected := i == selectedIndex)];
        i := i + 1;
      }
    }

    /** `switchToTab`: asks the host to activate the tab, then closes the popup. */
    method SwitchToTab(tab: Tab)
      modifies this`activated, this`popupClosed
      ensures activated == Some(tab) && popupClosed
    {
      activated := Some(tab);
      popupClosed := true;
    }

    /**
     * The answer to the initial tab query: caches the host's list, selects the
     * first tab when there is one, and renders the whole list (unfiltered).
     */
    method Load(tabs: seq<Tab>)
      requires Valid()
      modifies this
      ensures Valid()
      ensures allTabs == tabs
      ensures selectedIndex == if tabs != [] then 0 else old(selectedIndex)
      ensures entries == Rendered(tabs, selectedIndex)
      ensures countLabel == if tabs == [] then old(countLabel) else TabCountLabel(tabs, query)
      ensures query == old(query) && popupClosed == old(popupClosed) && activated == old(activated)
    {
      allTabs := tabs;
      if |allTabs| > 0 {
        selectedIndex := 0;
      }
      DisplayTabs(allTabs);
    }

    /**
     * A keystroke in the search field: the new text replaces the query, the
     * selection goes to the first match or to none, and the view is rendered.
     */
    method Input(text: string)
      requires Valid()
      modifies this
      ensures Valid()
      ensures query == text && allTabs == old(allTabs)
      ensures selectedIndex == IndexForQuery(|View()|)
      ensures selectedIndex == -1 <==> View() == []
      ensures entries == Rendered(View(), selectedIndex)
      ensures countLabel == if View() == [] then old(countLabel) else TabCountLabel(allTabs, text)
      ensures popupClosed == old(popupClosed) && activated == old(activated)
    {
      query := text;
      var filtered := FilterTabs(allTabs, Lower(query));
      selectedIndex := if |filtered| > 0 then 0 else -1;
      DisplayTabs(filtered);
    }

    /** `mouseover` on the item at `index`; the placeholder has no handler. */
    method Hover(index: nat)
      requires Valid()
      modifies this
      ensures Valid()
      ensures if index < |old(entries)| && old(entries)[index].tab.Some?
              then selectedIndex == index && entries == Marked(old(entries), index)
              else selectedIndex == old(selectedIndex) && entries == old(entries)
      ensures allTabs == old(allTabs) && query == old(query) && countLabel == old(countLabel)
      ensures popupClosed == old(popupClosed) && activated == old(activated)
    {
      if index < |entries| && entries[index].tab.Some? {
        selectedIndex := index;
        UpdateSelectedTab();
      }
    }

    /** A click on the item at `index` activates its tab; the placeholder has no handler. */
    method Click(index: nat)
      modifies this
      ensures if index < |entries| && entries[index].tab.Some?
              then activated == entries[index].tab && popupClosed
              else activated == old(activated) && popupClosed == old(popupClosed)
      ensures allTabs == old(allTabs) && query == old(query) && selectedIndex == old(selectedIndex)
      ensures entries == old(entries) && countLabel == old(countLabel)
    {
      if index < |entries| && entries[index].tab.Some? {
        SwitchToTab(entries[index].tab.value);
      }
    }

    /**
     * `handleKeyNavigation`: ArrowDown and ArrowUp move the selection within
     * the view and re-mark the items; Enter activates the selected tab when
     * the index lies inside the view; any other key does nothing.
     */
    method KeyDown(key: Key)
      requires Valid()
      modifies this
      ensures Valid()
      ensures key == ArrowDown ==>
        selectedIndex == ArrowDownIndex(old(selectedIndex), |View()|)
        && entries == Marked(old(entries), selectedIndex)
      ensures key == ArrowUp ==>
        selectedIndex == ArrowUpIndex(old(selectedIndex))
        && entries == Marked(old(entries), selectedIndex)
      ensures key == Enter || key == OtherKey ==>
        selectedIndex == old(selectedIndex) && entries == old(entries)
      ensures key == Enter && EnterTarget(View(), selectedIndex).Some? ==>
        activated == EnterTarget(View(), selectedIndex) && popupClosed
      ensures !(key == Enter && EnterTarget(View(), selectedIndex).Some?) ==>
        activated == old(activated) && popupClosed == old(popupClosed)
      ensures allTabs == old(allTabs) && query == old(query) && countLabel == old(countLabel)
    {
      var filtered := FilterTabs(allTabs, Lower(query));
      match key
      case ArrowDown =>
        selectedIndex := if selectedIndex + 1 < |filtered| - 1 then selectedIndex + 1 else |filtered| - 1;
        UpdateSelectedTab();
      case ArrowUp =>
        selectedIndex := if selectedIndex - 1 > 0 then selectedIndex - 1 else 0;
        UpdateSelectedTab();
      case Enter =>
        if selectedIndex >= 0 && selectedIndex < |filtered| {
          SwitchToTab(filtered[selectedIndex]);
        }
      case OtherKey =>
    }

    /**
     * Drops every tab with `id` from the cache, moves an index that fell past
     * the end of the new view back to `Math.max(0, length - 1)`, and renders.
     */
    method RemoveAndRender(id: int)
      requires Valid()
      modifies this
      ensures Valid()
      ensures allTabs == RemoveId(old(allTabs), id) && query == old(query)
      ensures View() == RemoveId(old(View()), id)
      ensures selectedIndex == ClampAfterRemoval(old(selectedIndex), |View()|)
      ensures entries == Rendered(View(), selectedIndex)
      ensures countLabel == if View() == [] then old(countLabel) else TabCountLabel(allTabs, query)
      ensures popupClosed == old(popupClosed) && activated == old(activated)
    {
      ghost var oldView := View();
      allTabs := RemoveId(allTabs, id);
      var filtered := FilterTabs(allTabs, Lower(query));
      assert filtered == RemoveId(oldView, id) by {
        FilterAfterRemove(old(allTabs), id, Lower(query));
      }
      selectedIndex := ClampAfterRemoval(selectedIndex, |filtered|);
      DisplayTabs(filtered);
    }

    /**
     * `closeTab(id)` once the host has answered: on failure nothing changes;
     * on success the tab leaves the cache and the view is re-rendered.
     */
    method CloseTab(id: int, succeeded: bool)
      requires Valid()
      modifies this
      ensures Valid()
      ensures !succeeded ==>
        allTabs == old(allTabs) && selectedIndex == old(selectedIndex)
        && entries == old(entries) && countLabel == old(countLabel)
      ensures succeeded ==>
        allTabs == RemoveId(old(allTabs), id)
        && View() == RemoveId(old(View()), id)
        && selectedIndex == ClampAfterRemoval(old(selectedIndex), |View()|)
        && entries == Rendered(View(), selectedIndex)
        && countLabel == (if View() == [] then old(countLabel) else TabCountLabel(allTabs, query))
      ensures query == old(query) && popupClosed == old(popupClosed) && activated == old(activated)
    {
      if !succeeded {
        return;
      }
      RemoveAndRender(id);
    }

    /** The host reports a tab closed elsewhere. */
    method TabRemoved(id: int)
      requires Valid()
      modifies this
      ensures Valid()
      ensures allTabs == RemoveId(old(allTabs), id) && query == old(query)
      ensures View() == RemoveId(old(View()), id)
      ensures selectedIndex == ClampAfterRemoval(old(selectedIndex), |View()|)
      ensures entries == Rendered(View(), selectedIndex)
      ensures countLabel == if View() == [] then old(countLabel) else TabCountLabel(allTabs, query)
      ensures popupClosed == old(popupClosed) && activated == old(activated)
    {
      RemoveAndRender(id);
    }

    /**
     * The host reports a new tab: it is appended to the cache and the view is
     * re-rendered; the selection index is left as it was.
     */
    method TabCreated(tab: Tab)
      requires Valid()
      modifies this
      ensures Valid()
      ensures allTabs == old(allTabs) + [tab] && query == old(query)
      ensures View() == old(View()) + (if Matches(tab, Lower(query)) then [tab] else [])
      ensures selectedIndex == old(selectedIndex)
      ensures entries == Rendered(View(), selectedIndex)
      ensures countLabel == if View() == [] then old(countLabel) else TabCountLabel(allTabs, query)
      ensures popupClosed == old(popupClosed) && activated == old(activated)
    {
      FilterAfterAppend(allTabs, tab, Lower(query));
      allTabs := allTabs + [tab];
      var filtered := FilterTabs(allTabs, Lower(query));
      DisplayTabs(filtered);
    }
  }
}
