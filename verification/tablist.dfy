/**
 * The values the popup derives from its state: the filtered view of the
 * cached tabs, the count label, the text of each list entry, the rendered
 * list, and the arithmetic that moves or re-clamps the selection index.
 * Everything here is a pure function of its arguments.
 */
module TabList {
  import opened Wrappers
  import opened Text

  /** A tab as the host reports it; a title or url may be absent. */
  datatype Tab = Tab(id: int, title: Option<string>, url: Option<string>, windowId: int)

  /** `x || ''`: an absent text reads as the empty string. */
  function OrEmpty(o: Option<string>): string
  {
    if o.Some? then o.value else ""
  }

  /** The filter callback: the lower-cased title or url includes the query. */
  predicate Matches(t: Tab, query: string)
  {
    Includes(Lower(OrEmpty(t.title)), query) || Includes(Lower(OrEmpty(t.url)), query)
  }

  /** `Array.prototype.filter`: the elements of `s` that satisfy `p`, in order. */
  function Where<T(!new)>(s: seq<T>, p: T -> bool): (r: seq<T>)
    ensures |r| <= |s|
    ensures forall x :: x in r <==> x in s && p(x)
  {
    if s == [] then [] else (if p(s[0]) then [s[0]] else []) + Where(s[1..], p)
  }

  /** `r` is `s` with some elements dropped and the rest kept in order. */
  predicate IsSubsequence<T(==)>(r: seq<T>, s: seq<T>)
    decreases |s|
  {
    if r == [] then true
    else if s == [] then false
    else (r[0] == s[0] && IsSubsequence(r[1..], s[1..])) || IsSubsequence(r, s[1..])
  }

  /** Filtering keeps the survivors in their original order. */
  lemma {:induction false} WhereIsSubsequence<T(!new)>(s: seq<T>, p: T -> bool)
    ensures IsSubsequence(Where(s, p), s)
  {
    if s != [] {
      WhereIsSubsequence(s[1..], p);
      if p(s[0]) {
        assert Where(s, p)[1..] == Where(s[1..], p);
      } else {
        assert Where(s, p) == Where(s[1..], p);
      }
    }
  }

  /** Filtering a concatenation filters each part. */
  lemma {:induction false} WhereAppend<T(!new)>(a: seq<T>, b: seq<T>, p: T -> bool)
    ensures Where(a + b, p) == Where(a, p) + Where(b, p)
  {
    if a != [] {
      assert (a + b)[1..] == a[1..] + b;
      WhereAppend(a[1..], b, p);
    } else {
      assert a + b == b;
    }
  }

  /** Filtering with a test every element passes changes nothing. */
  lemma {:induction false} WhereAll<T(!new)>(s: seq<T>, p: T -> bool)
    requires forall x :: x in s ==> p(x)
    ensures Where(s, p) == s
  {
    if s != [] {
      WhereAll(s[1..], p);
    }
  }

  /** Two filters may be applied in either order. */
  lemma {:induction false} WhereCommute<T(!new)>(s: seq<T>, p: T -> bool, q: T -> bool)
    ensures Where(Where(s, p), q) == Where(Where(s, q), p)
  {
    if s != [] {
      WhereCommute(s[1..], p, q);
      var head := if p(s[0]) then [s[0]] else [];
      WhereAppend(head, Where(s[1..], p), q);
      var head' := if q(s[0]) then [s[0]] else [];
      WhereAppend(head', Where(s[1..], q), p);
    }
  }

  /** The filter callback of `filterTabs`, as a value. */
  function Matching(query: string): Tab -> bool
  {
    (t: Tab) => Matches(t, query)
  }

  /** The filter callback of a removal, `t => t.id !== id`, as a value. */
  function Other(id: int): Tab -> bool
  {
    (t: Tab) => t.id != id
  }

  /** `filterTabs(query)`: the tabs whose lower-cased title or url includes `query`. */
  function FilterTabs(tabs: seq<Tab>, query: string): (r: seq<Tab>)
    ensures |r| <= |tabs|
    ensures forall t :: t in r <==> t in tabs && Matches(t, query)
  {
    Where(tabs, Matching(query))
  }

  /** `allTabs.filter(t => t.id !== id)`. */
  function RemoveId(tabs: seq<Tab>, id: int): (r: seq<Tab>)
    ensures |r| <= |tabs|
    ensures forall t :: t in r <==> t in tabs && t.id != id
  {
    Where(tabs, Other(id))
  }

  /**
   * The filtered view holds exactly the matching tabs of the collection, in
   * their original order, and the empty query keeps every tab.
   */
  lemma FilterTabsSpec(tabs: seq<Tab>, query: string)
    ensures forall t :: t in FilterTabs(tabs, query) <==> t in tabs && Matches(t, query)
    ensures IsSubsequence(FilterTabs(tabs, query), tabs)
    ensures query == "" ==> FilterTabs(tabs, query) == tabs
  {
    WhereIsSubsequence(tabs, Matching(query));
    if query == "" {
      forall t | t in tabs
        ensures Matching(query)(t)
      {
      }
      WhereAll(tabs, Matching(query));
    }
  }

  /**
   * A removal drops every tab with the given id, keeps every other tab in
   * order, and leaves a collection without that id unchanged.
   */
  lemma RemoveIdSpec(tabs: seq<Tab>, id: int)
    ensures forall t :: t in RemoveId(tabs, id) <==> t in tabs && t.id != id
    ensures IsSubsequence(RemoveId(tabs, id), tabs)
    ensures (forall t :: t in tabs ==> t.id != id) ==> RemoveId(tabs, id) == tabs
  {
    WhereIsSubsequence(tabs, Other(id));
    if forall t :: t in tabs ==> t.id != id {
      WhereAll(tabs, Other(id));
    }
  }

  /** Removing a tab and then filtering gives the old view without that tab. */
  lemma FilterAfterRemove(tabs: seq<Tab>, id: int, query: string)
    ensures FilterTabs(RemoveId(tabs, id), query) == RemoveId(FilterTabs(tabs, query), id)
  {
    WhereCommute(tabs, Other(id), Matching(query));
  }

  /** Appending a tab appends it to the view exactly when it matches. */
  lemma FilterAfterAppend(tabs: seq<Tab>, t: Tab, query: string)
    ensures FilterTabs(tabs + [t], query)
         == FilterTabs(tabs, query) + (if Matches(t, query) then [t] else [])
  {
    WhereAppend(tabs, [t], Matching(query));
    assert [t][1..] == [];
  }

  /** `tab.title || tab.url || 'Untitled'`: the text shown for one entry. */
  function DisplayTitle(t: Tab): (r: string)
    ensures r != ""
    ensures OrEmpty(t.title) != "" ==> r == OrEmpty(t.title)
    ensures OrEmpty(t.title) == "" && OrEmpty(t.url) != "" ==> r == OrEmpty(t.url)
    ensures OrEmpty(t.title) == "" && OrEmpty(t.url) == "" ==> r == "Untitled"
  {
    if OrEmpty(t.title) != "" then OrEmpty(t.title)
    else if OrEmpty(t.url) != "" then OrEmpty(t.url)
    else "Untitled"
  }

  const TabsSuffix: string := " tabs"

  /**
   * `updateTabCount`'s text: "F/T tabs" while a query is active, else "T tabs",
   * where T is the collection size and F the filtered size.
   */
  function CountLabel(total: nat, filtered: nat, query: string): (r: string)
    ensures |r| > |TabsSuffix| && r[|r| - |TabsSuffix|..] == TabsSuffix
    ensures '/' in r <==> query != ""
    ensures Decimal(if query != "" then filtered else total) <= r
  {
    if query != "" then Decimal(filtered) + "/" + Decimal(total) + TabsSuffix
    else Decimal(total) + TabsSuffix
  }

  /** The label computed from the state, with the query lower-cased first. */
  function TabCountLabel(allTabs: seq<Tab>, searchText: string): (r: string)
    ensures ParseCountLabel(r)
         == Some(Count(if searchText != ""
                       then Some(|FilterTabs(allTabs, Lower(searchText))|)
                       else None,
                       |allTabs|))
  {
    var query := Lower(searchText);
    CountLabelRoundTrip(|allTabs|, |FilterTabs(allTabs, query)|, query);
    CountLabel(|allTabs|, |FilterTabs(allTabs, query)|, query)
  }

  /** What a count label says: the filtered size when a query is active, and the total. */
  datatype Count = Count(filtered: Option<nat>, total: nat)

  /** Reads a count label back; a part that is not a numeral without leading zeros is rejected. */
  function ParseCountLabel(s: string): Option<Count>
  {
    if |s| < |TabsSuffix| || s[|s| - |TabsSuffix|..] != TabsSuffix then None
    else
      var body := s[..|s| - |TabsSuffix|];
      match IndexOf(body, '/')
      case None =>
        if IsCanonicalNumeral(body) then Some(Count(None, ValueOf(body))) else None
      case Some(k) =>
        if IsCanonicalNumeral(body[..k]) && IsCanonicalNumeral(body[k + 1..])
        then Some(Count(Some(ValueOf(body[..k])), ValueOf(body[k + 1..])))
        else None
  }

  /** Digits never contain a slash. */
  lemma NoSlashInDecimal(n: nat)
    ensures '/' !in Decimal(n)
  {
  }

  /** The body of an "F/T" label splits at its only slash into the two numerals. */
  lemma SplitAtSlash(f: string, t: string)
    requires '/' !in f
    ensures IndexOf(f + "/" + t, '/') == Some(|f|)
    ensures (f + "/" + t)[..|f|] == f && (f + "/" + t)[|f| + 1..] == t
  {
    var body := f + "/" + t;
    assert body[|f|] == '/';
    assert forall j :: 0 <= j < |f| ==> body[j] == f[j];
  }

  /** Cutting the suffix off a label gives back its body. */
  lemma StripSuffix(body: string)
    ensures var s := body + TabsSuffix;
      s[..|s| - |TabsSuffix|] == body && s[|s| - |TabsSuffix|..] == TabsSuffix
  {
  }

  /**
   * The label determines both counts: reading it back yields the total, and
   * the filtered size exactly when a query is active.
   */
  lemma CountLabelRoundTrip(total: nat, filtered: nat, query: string)
    ensures ParseCountLabel(CountLabel(total, filtered, query))
         == Some(Count(if query != "" then Some(filtered) else None, total))
  {
    DecimalRoundTrip(total);
    assert IsCanonicalNumeral(Decimal(total));
    if query != "" {
      DecimalRoundTrip(filtered);
      assert IsCanonicalNumeral(Decimal(filtered));
      NoSlashInDecimal(filtered);
      SplitAtSlash(Decimal(filtered), Decimal(total));
      StripSuffix(Decimal(filtered) + "/" + Decimal(total));
    } else {
      NoSlashInDecimal(total);
      StripSuffix(Decimal(total));
    }
  }

  /** One rendered list item: its text, the tab it stands for, and its selection mark. */
  datatype Entry = Entry(text: string, tab: Option<Tab>, selected: bool)

  /** The single item rendered for an empty view; it is not a tab. */
  const NoTabsFound: Entry := Entry("No tabs found", None, false)

  /** The item `displayTabs` builds for the tab at `index`. */
  function Item(t: Tab, index: nat, selectedIndex: int): Entry
  {
    Entry(DisplayTitle(t), Some(t), index == selectedIndex)
  }

  /**
   * The list `displayTabs(tabs)` renders: the placeholder alone for an empty
   * view, else one item per tab in order, marking at most the one at
   * `selectedIndex`.
   */
  function Rendered(tabs: seq<Tab>, selectedIndex: int): (r: seq<Entry>)
    ensures tabs == [] ==> r == [NoTabsFound]
    ensures tabs != [] ==> |r| == |tabs|
    ensures forall i :: 0 <= i < |tabs| ==> r[i].tab == Some(tabs[i]) && r[i].text == DisplayTitle(tabs[i])
    ensures (exists i :: 0 <= i < |r| && r[i].selected) <==> 0 <= selectedIndex < |tabs|
    ensures forall i, j :: 0 <= i < j < |r| ==> !(r[i].selected && r[j].selected)
    ensures tabs != [] ==> forall i :: 0 <= i < |r| ==> (r[i].selected <==> i == selectedIndex)
  {
    if tabs == [] then [NoTabsFound]
    else
      var r := seq(|tabs|, i requires 0 <= i < |tabs| => Item(tabs[i], i, selectedIndex));
      assert 0 <= selectedIndex < |tabs| ==> r[selectedIndex].selected;
      r
  }

  /** `updateSelectedTab`: marks the item at `selectedIndex` and unmarks all others. */
  function Marked(entries: seq<Entry>, selectedIndex: int): (r: seq<Entry>)
    ensures |r| == |entries|
    ensures forall i :: 0 <= i < |r| ==> (r[i].selected <==> i == selectedIndex)
    ensures forall i :: 0 <= i < |r| ==> r[i].text == entries[i].text && r[i].tab == entries[i].tab
  {
    seq(|entries|, i requires 0 <= i < |entries| => entries[i].(selected := i == selectedIndex))
  }

  /** Re-marking a rendered non-empty view gives the view rendered with the new index. */
  lemma MarkedRendered(tabs: seq<Tab>, before: int, after: int)
    requires tabs != []
    ensures Marked(Rendered(tabs, before), after) == Rendered(tabs, after)
  {
    var m, r := Marked(Rendered(tabs, before), after), Rendered(tabs, after);
    assert forall i :: 0 <= i < |tabs| ==> m[i] == r[i];
  }

  /**
   * Re-marking does reach the placeholder: with an empty view and index 0 the
   * "No tabs found" item is marked, which rendering never does.
   */
  lemma MarkedPlaceholder(selectedIndex: int)
    ensures Marked(Rendered([], selectedIndex), 0) == [NoTabsFound.(selected := true)]
    ensures Marked(Rendered([], selectedIndex), 0) != Rendered([], 0)
  {
    assert Marked([NoTabsFound], 0)[0] == NoTabsFound.(selected := true);
  }

  /** ArrowDown: `Math.min(selectedIndex + 1, length - 1)`. */
  function ArrowDownIndex(selectedIndex: int, length: nat): (r: int)
    ensures r <= length - 1 && r <= selectedIndex + 1
    ensures selectedIndex < length - 1 ==> r == selectedIndex + 1
    ensures selectedIndex >= length - 1 ==> r == length - 1
    ensures selectedIndex >= -1 ==> r >= -1
  {
    if selectedIndex + 1 < length - 1 then selectedIndex + 1 else length - 1
  }

  /** ArrowUp: `Math.max(selectedIndex - 1, 0)`. */
  function ArrowUpIndex(selectedIndex: int): (r: int)
    ensures r >= 0 && r >= selectedIndex - 1
    ensures selectedIndex > 0 ==> r == selectedIndex - 1
    ensures selectedIndex <= 0 ==> r == 0
  {
    if selectedIndex - 1 > 0 then selectedIndex - 1 else 0
  }

  /** After a query change: the first entry if the view is non-empty, else none. */
  function IndexForQuery(length: nat): (r: int)
    ensures r == -1 <==> length == 0
    ensures length > 0 ==> r == 0
  {
    if length > 0 then 0 else -1
  }

  /**
   * After a removal: an index still inside the view is kept; one past the end
   * moves to `Math.max(0, length - 1)`, which is 0 even for an empty view.
   */
  function ClampAfterRemoval(selectedIndex: int, length: nat): (r: int)
    ensures selectedIndex < length ==> r == selectedIndex
    ensures selectedIndex >= length ==> r >= 0 && (length > 0 ==> r == length - 1)
    ensures selectedIndex >= -1 ==> -1 <= r && r <= if length == 0 then 0 else length - 1
  {
    if selectedIndex >= length then (if length - 1 > 0 then length - 1 else 0)
    else selectedIndex
  }

  /** Enter: the tab at `selectedIndex` when that index is inside the view. */
  function EnterTarget(view: seq<Tab>, selectedIndex: int): (r: Option<Tab>)
    ensures r.Some? <==> 0 <= selectedIndex < |view|
    ensures r.Some? ==> r.value == view[selectedIndex]
  {
    if 0 <= selectedIndex < |view| then Some(view[selectedIndex]) else None
  }
}
