# Tabfinder popup — a Dafny model of the tab-list controller

Tabfinder is a browser-extension popup that lists the open tabs, narrows the
list as the user types, moves a highlighted selection with the arrow keys or
the mouse, switches to the chosen tab on Enter or click, and closes tabs from
the list. All of that logic lives in one page script, `popup.js`: a closure
holding the cached tab collection `allTabs`, the search field's text and
`selectedIndex`, plus event handlers that change that state and re-render.

This project models that controller:

- `wrappers.dfy`: `Option`, for the tab fields the host may leave undefined.
- `text.dfy` (module `Text`): ASCII lower-casing, `String.prototype.includes`
  with a declarative characterisation, and the decimal text of a count
  together with a reader that inverts it.
- `tablist.dfy` (module `TabList`): the `Tab` record and the pure values
  derived from the state. These are the filtered view (`filterTabs`), the
  removal filter, the entry title, the count label, the rendered list, and the
  index arithmetic of each event. The filtered view, the removal filter and
  the count label are built on one generic `Where` (JavaScript's
  `Array.prototype.filter`), whose lemmas give order, membership,
  concatenation and commutation.
- `popup.dfy` (module `Popup`): the `Controller` class. Its fields are
  `allTabs`, `query`, `selectedIndex`, `countLabel`, the rendered `entries`,
  `popupClosed` and `activated`. It has one method per handler. The two
  `forEach` loops (`displayTabs`, `updateSelectedTab`) are `while` loops
  proved against `Rendered` and `Marked`.
- `scenarios.dfy` (module `Scenarios`): client methods that replay short event
  sequences and check what the popup shows, using only the controller methods'
  contracts. Examples:
  "git" over three tabs gives the label "1/3 tabs"; ArrowDown at the last
  entry stays there; closing the only tab leaves the index at 0.

The only bound on `selectedIndex` that every event keeps is `selectedIndex >= -1`
(`Controller.Valid`). Stronger guarantees hold only for particular events, and
each is stated on that event's method. The code keeps no stronger invariant,
for three reasons:

- `ArrowUp` over an empty view sets the index to 0.
- A removal that empties the view sets an index of 0 or more to 0
  (popup.js:97-98, popup.js:176-177).
- A created tab does not re-clamp the index at all (popup.js:184-189).

A claim that the index is always within the view, and is -1 exactly when the
view is empty, therefore does not hold of the code. The model follows the code.
Likewise, an empty view returns from `displayTabs` before `updateTabCount`
(popup.js:30). So an empty collection leaves the count label as it was, rather
than showing "0 tabs" (scenario `Scenarios.EmptyCollection`).

## Model

| member | source | states |
|---|---|---|
| `TabList.Where` | popup.js:122-128 | the filter result is no longer than its input and holds exactly the input elements that pass the test |
| `TabList.WhereIsSubsequence` | popup.js:123 | filtering keeps the surviving elements in their original order (a subsequence of the input) |
| `TabList.WhereAppend` | popup.js:185-187 | filtering a concatenation is the concatenation of the filtered parts |
| `TabList.WhereAll` | popup.js:123 | a test every element passes leaves the sequence unchanged |
| `TabList.WhereCommute` | popup.js:92-94 | two filters give the same result in either order |
| `TabList.FilterTabs` | popup.js:122-128 | the view is no longer than the collection and holds exactly the tabs whose lower-cased title or url includes the query (order and the empty query in `FilterTabsSpec`) |
| `TabList.RemoveId` | popup.js:92 | the collection after a removal holds exactly the tabs whose id differs (order and the absent id in `RemoveIdSpec`) |
| `TabList.FilterTabsSpec` | popup.js:122-128 | the view holds exactly the tabs whose lower-cased title or url (absent read as "") includes the query, in collection order; the empty query keeps every tab |
| `TabList.RemoveIdSpec` | popup.js:92 | a removal drops every tab with that id, keeps every other tab in order, and leaves a collection without the id unchanged |
| `TabList.FilterAfterRemove` | popup.js:172-174 | the view after a removal is the old view without the removed id |
| `TabList.FilterAfterAppend` | popup.js:185-187 | appending a tab appends it to the view exactly when it matches the query |
| `TabList.DisplayTitle` | popup.js:56 | an entry shows a non-empty text: the title if non-empty, else the url if non-empty, else "Untitled" |
| `TabList.CountLabel` | popup.js:13-17 | the label ends in " tabs", starts with the filtered count under an active query and with the total otherwise, and holds a "/" exactly when the query is non-empty; its exact text is fixed by `CountLabelRoundTrip` |
| `TabList.TabCountLabel` | popup.js:8-18 | the label computed from the cache and the search text reads back, through a reader that accepts only numerals without leading zeros, as the total, plus the filtered count exactly when the search text is non-empty |
| `TabList.CountLabelRoundTrip` | popup.js:8-18 | reading the label back (a reader that accepts only numerals without leading zeros) gives the total, and gives the filtered count exactly when the query is non-empty ("F/T tabs" vs "T tabs") |
| `TabList.Rendered` | popup.js:20-38 | an empty view renders only "No tabs found"; otherwise one entry per tab in order with its title, and, for a non-empty view, the entry at `selectedIndex` is the one marked and no other |
| `TabList.Marked` | popup.js:111-120 | every item keeps its text and tab, and is marked exactly when its position is `selectedIndex` |
| `TabList.MarkedRendered` | popup.js:111-120 | re-marking a rendered non-empty list gives the list rendered with the new index |
| `TabList.MarkedPlaceholder` | popup.js:111-120 | re-marking with index 0 marks the "No tabs found" placeholder, which rendering never does |
| `TabList.ArrowDownIndex` | popup.js:134-136 | ArrowDown never exceeds length-1 and moves by at most one; below the last entry it moves down by one, and at or past the last entry it becomes length-1 |
| `TabList.ArrowUpIndex` | popup.js:140-142 | ArrowUp never goes below 0 and moves up by one from any positive index |
| `TabList.IndexForQuery` | popup.js:193 | after typing, the index is -1 exactly when the view is empty and 0 (the first entry) otherwise |
| `TabList.ClampAfterRemoval` | popup.js:97-99 | an index inside the new view is kept; one past its end becomes length-1, or 0 when the view is empty |
| `TabList.EnterTarget` | popup.js:146-149 | Enter has a target exactly when 0 <= index < length, and it is the tab at that index |
| `Text.Lower` | popup.js:124-125 | lower-casing keeps the length, turns each upper-case ASCII letter into its lower-case letter, and leaves every other character as it was |
| `Text.Includes` | popup.js:126 | every string includes the empty query, and a string includes only queries no longer than itself |
| `Text.IncludesIff` | popup.js:126 | `includes` holds exactly when the substring occurs at some position |
| `Text.IncludesNeedsFirstChar` | popup.js:126 | a string includes a non-empty query only if it holds the query's first character |
| `Text.Decimal` | popup.js:14 | a count is written as one or more digits with no leading zero; zero is exactly "0" |
| `Text.DecimalRoundTrip` | popup.js:14-16 | reading a count's decimal text gives back the count |
| `Text.DecimalInjective` | popup.js:14-16 | distinct counts have distinct texts |
| `Popup.Controller.constructor` | popup.js:5-6 | the popup starts with no tabs, an empty query, index -1 and nothing activated |
| `Popup.Controller.DisplayTabs` | popup.js:20-82 | the page list becomes `Rendered(tabs, selectedIndex)`; the label is refreshed only for a non-empty list |
| `Popup.Controller.UpdateSelectedTab` | popup.js:111-120 | every item on the page is re-marked: marked exactly at `selectedIndex`, otherwise unchanged |
| `Popup.Controller.SwitchToTab` | popup.js:105-109 | the tab is recorded as activated and the popup as closed |
| `Popup.Controller.Load` | popup.js:162-168 | the cache becomes the host list; the index becomes 0 only for a non-empty list; the unfiltered list is rendered |
| `Popup.Controller.Input` | popup.js:191-195 | the query is replaced, the cache untouched, and the index is 0 for a non-empty view and -1 for an empty one |
| `Popup.Controller.Hover` | popup.js:71-74 | hovering a tab entry selects its index and re-marks the list; anything else changes nothing |
| `Popup.Controller.Click` | popup.js:70 | clicking a tab entry activates that tab and closes the popup; the placeholder does nothing |
| `Popup.Controller.KeyDown` | popup.js:130-152 | ArrowDown/ArrowUp set the index by `ArrowDownIndex`/`ArrowUpIndex` and re-mark; Enter activates the view's selected tab only when the index is inside the view; other keys change nothing |
| `Popup.Controller.RemoveAndRender` | popup.js:92-101 | the cache loses that id, the view becomes the old view without it, the index is re-clamped, and the view is rendered |
| `Popup.Controller.CloseTab` | popup.js:84-103 | a failed close changes nothing; a successful one removes the id, re-clamps the index and re-renders |
| `Popup.Controller.TabRemoved` | popup.js:171-181 | an external removal removes the id, re-clamps the index and re-renders; an absent id leaves the cache unchanged (with `RemoveIdSpec`) |
| `Popup.Controller.TabCreated` | popup.js:184-189 | the tab is appended to the cache and to the view if it matches; the index is unchanged |
| `Scenarios.GitView` | popup.js:122-128 | over GitHub, Gmail and a docs url, the query "git" leaves only GitHub |

## Left out

- `generate-icons.js` as a whole. It reads a file, finds the SVG with a regular
  expression and hands rasterising and PNG writing to an image library through
  concurrent promises. All of that is I/O and library code.
- DOM construction and styling. The model keeps only each entry's text, its tab
  and its selection mark. The favicon image and its `onerror` hide
  (popup.js:45-51) are not modelled, and neither is the `×` button's markup.
- `ensureSelectedVisible` (popup.js:154-159). Scrolling an entry into view
  changes no state of the controller.
- `preventDefault` and `stopPropagation`. The close button's click reaches
  `CloseTab` only and never `Click`, because `Controller.Click` is a separate
  event.
- The host API and its asynchrony. `chrome.tabs.query` is the `Load` event.
  `chrome.tabs.remove` with its callback is `CloseTab`, whose `succeeded` flag
  stands for the absence of `chrome.runtime.lastError`; the `console.error`
  log is not modelled. `chrome.tabs.update`, `chrome.windows.update` and
  `window.close` are recorded as `activated` and `popupClosed`. Events that
  arrive after the popup closed are not excluded, as the code does not
  exclude them either.
- The count label's text before the first non-empty render comes from the page
  markup, which is not part of this model. The constructor uses "".
- `Text.Lower`: `toLowerCase` is modelled as ASCII lower-casing; the Unicode case
  mapping is not modelled.
- Key values other than ArrowDown, ArrowUp and Enter are one `OtherKey`.
