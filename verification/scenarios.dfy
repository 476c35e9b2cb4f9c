/**
 * Clients of the controller that replay short event sequences and check,
 * from the method contracts alone, what the popup shows afterwards.
 */
module Scenarios {
  import opened Wrappers
  import opened Text
  import opened TabList
  import opened Popup

  const GitHub := Tab(1, Some("GitHub"), None, 10)
  const Gmail := Tab(2, Some("Gmail"), None, 10)
  const Docs := Tab(3, None, Some("https://docs.test"), 20)

  lemma GitHubMatchesGit()
    ensures Matches(GitHub, "git")
  {
    assert Lower("GitHub") == "github";
  }

  lemma GmailMissesGit()
    ensures !Matches(Gmail, "git")
  {
    assert Lower("Gmail") == "gmail";
    assert Lower("") == "";
    IncludesNeedsFirstChar("", "git");
    IncludesNeedsFirstChar("mail", "git");
    assert "gmail"[1..] == "mail";
  }

  lemma DocsMissesGit()
    ensures !Matches(Docs, "git")
  {
    var u := "https://docs.test";
    assert Lower("") == "";
    IncludesNeedsFirstChar("", "git");
    assert forall i :: 0 <= i < |u| ==> Lower(u)[i] == LowerChar(u[i]);
    assert forall i :: 0 <= i < |u| ==> u[i] != 'g' && u[i] != 'G';
    assert 'g' !in Lower(u);
    IncludesNeedsFirstChar(Lower(u), "git");
  }

  /** The view for "git" over the three tabs. */
  lemma GitView()
    ensures FilterTabs([GitHub, Gmail, Docs], "git") == [GitHub]
  {
    var p := Matching("git");
    GitHubMatchesGit();
    GmailMissesGit();
    DocsMissesGit();
    assert p(GitHub) && !p(Gmail) && !p(Docs);
    var s := [GitHub, Gmail, Docs];
    assert s[1..][1..] == [Docs];
    assert [Docs][1..] == [];
    assert Where([Docs], p) == [];
    assert Where(s[1..], p) == [];
    assert Where(s, p) == [GitHub];
  }

  /** The label for one match out of three tabs under an active query. */
  lemma OneOfThreeLabel()
    ensures CountLabel(3, 1, "git") == "1/3 tabs"
  {
    assert Decimal(1) == "1" && Decimal(3) == "3";
  }

  /** Typing "git" over three tabs leaves one match and the label "1/3 tabs". */
  method SearchNarrowsView()
  {
    var c := new Controller();
    c.Load([GitHub, Gmail, Docs]);
    c.Input("git");
    assert Lower("git") == "git";
    GitView();
    assert c.View() == [GitHub];
    assert c.selectedIndex == 0;
    OneOfThreeLabel();
    assert c.countLabel == CountLabel(3, 1, "git");
    assert c.countLabel == "1/3 tabs";
    assert c.entries == [Entry("GitHub", Some(GitHub), true)];
  }

  /** An empty collection renders the placeholder and leaves the label as it was. */
  method EmptyCollection()
  {
    var c := new Controller();
    c.Load([]);
    assert c.entries == [NoTabsFound];
    assert c.countLabel == "";
    assert c.selectedIndex == -1;
  }

  /** ArrowDown on the last of three entries keeps the selection there. */
  method ArrowDownStopsAtEnd()
  {
    var c := new Controller();
    c.Load([GitHub, Gmail, Docs]);
    FilterTabsSpec([GitHub, Gmail, Docs], Lower(""));
    c.Hover(2);
    assert c.selectedIndex == 2;
    c.KeyDown(ArrowDown);
    assert c.selectedIndex == 2;
    c.KeyDown(Enter);
    assert c.activated == Some(Docs) && c.popupClosed;
  }

  /**
   * Closing the only tab empties the view; the index becomes 0, not -1, and
   * a following ArrowUp marks the "No tabs found" placeholder.
   */
  method CloseLastTab()
  {
    var c := new Controller();
    c.Load([GitHub]);
    c.CloseTab(1, true);
    assert c.allTabs == [];
    assert c.View() == [];
    assert c.selectedIndex == 0;
    assert c.entries == [NoTabsFound];
    c.KeyDown(ArrowUp);
    assert c.entries == [NoTabsFound.(selected := true)];
  }

  /** A failed close and the removal of an unknown id leave the collection as it was. */
  method CloseFailsOrIdAbsent()
  {
    var c := new Controller();
    c.Load([GitHub, Gmail]);
    c.CloseTab(1, false);
    assert c.allTabs == [GitHub, Gmail];
    RemoveIdSpec([GitHub, Gmail], 7);
    c.TabRemoved(7);
    assert c.allTabs == [GitHub, Gmail];
  }
}
