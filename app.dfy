/**
 * The application shell (src/App.jsx): two pieces of state, the current page
 * tag and the selected player, a navigation transition over them, and the
 * dispatch from a page tag to the view that is shown.
 */
module App {
  import opened Wrappers
  import opened Players

  // The page tags the header, the pages and the player cards pass to navigation.
  const MainPageTag: string := "mainPage"
  const PlayersPageTag: string := "playersPage"
  const ComparisonsTag: string := "comparisons"
  const PlayerDetailsTag: string := "playerDetails"
  const MatchAnalysisTag: string := "matchAnalysis"

  /** The tags the dispatch recognises, in the order of its cases. */
  const KnownPages: seq<string> :=
    [MainPageTag, PlayersPageTag, ComparisonsTag, PlayerDetailsTag, MatchAnalysisTag]

  /** The page component rendered below the header; only the details page takes a player. */
  datatype View =
    | MainView
    | PlayersView
    | ComparisonsView
    | PlayerDetailsView(player: Option<Player>)
    | MatchAnalysisView

  /** The tag under which each view is dispatched. */
  function ViewTag(v: View): string
  {
    match v
    case MainView => MainPageTag
    case PlayersView => PlayersPageTag
    case ComparisonsView => ComparisonsTag
    case PlayerDetailsView(_) => PlayerDetailsTag
    case MatchAnalysisView => MatchAnalysisTag
  }

  /**
   * `renderPage`: each known tag shows its own view, any other tag shows the
   * main page, and the details view is handed the selected player.
   */
  function RenderPage(page: string, selected: Option<Player>): (v: View)
    ensures page in KnownPages ==> ViewTag(v) == page
    ensures page !in KnownPages ==> v == MainView
    ensures v.PlayerDetailsView? ==> v.player == selected
  {
    if page == MainPageTag then MainView
    else if page == PlayersPageTag then PlayersView
    else if page == ComparisonsTag then ComparisonsView
    else if page == PlayerDetailsTag then PlayerDetailsView(selected)
    else if page == MatchAnalysisTag then MatchAnalysisView
    else MainView
  }

  /** Dispatching a view's own tag gives that view back. */
  lemma RenderViewTag(v: View, selected: Option<Player>)
    requires v.PlayerDetailsView? ==> v.player == selected
    ensures RenderPage(ViewTag(v), selected) == v
  {
  }

  /** Two tags dispatch to the same view only if they are the same known tag, or both unknown or the main tag. */
  lemma RenderPageInjective(a: string, b: string, selected: Option<Player>)
    requires RenderPage(a, selected) == RenderPage(b, selected)
    ensures a == b || (a !in KnownPages[1..] && b !in KnownPages[1..])
  {
    if a in KnownPages[1..] {
      assert ViewTag(RenderPage(a, selected)) == a;
    } else if b in KnownPages[1..] {
      assert ViewTag(RenderPage(b, selected)) == b;
    }
  }

  // ---------------------------------------------------------------------------
  // Navigation
  // ---------------------------------------------------------------------------

  /** `currentPage` and `selectedPlayer`; `None` is the JavaScript `null`. */
  datatype NavState = NavState(currentPage: string, selectedPlayer: Option<Player>)

  /** `useState('mainPage')` and `useState(null)`. */
  const InitialState: NavState := NavState(MainPageTag, None)

  /**
   * `navigateToPage(page, player)`: the page is always replaced; the player
   * only when one is supplied.
   */
  function Navigate(s: NavState, page: string, player: Option<Player>): (r: NavState)
    ensures r.currentPage == page
    ensures player.Some? ==> r.selectedPlayer == player
    ensures player.None? ==> r.selectedPlayer == s.selectedPlayer
  {
    NavState(page, if player.Some? then player else s.selectedPlayer)
  }

  /** One call of `navigateToPage`. */
  datatype Click = Click(page: string, player: Option<Player>)

  /** The state after a series of navigation calls, oldest first. */
  function Run(s: NavState, clicks: seq<Click>): NavState
    decreases |clicks|
  {
    if clicks == [] then s
    else Run(Navigate(s, clicks[0].page, clicks[0].player), clicks[1..])
  }

  /** The player of the most recent click that supplied one, or `fallback` if none did. */
  function LastSupplied(clicks: seq<Click>, fallback: Option<Player>): Option<Player>
    decreases |clicks|
  {
    if clicks == [] then fallback
    else if clicks[|clicks| - 1].player.Some? then clicks[|clicks| - 1].player
    else LastSupplied(clicks[..|clicks| - 1], fallback)
  }

  /** Running one more click is navigating from the state reached so far. */
  lemma {:induction false} RunSnoc(s: NavState, clicks: seq<Click>, c: Click)
    ensures Run(s, clicks + [c]) == Navigate(Run(s, clicks), c.page, c.player)
    decreases |clicks|
  {
    if clicks != [] {
      assert (clicks + [c])[1..] == clicks[1..] + [c];
      RunSnoc(Navigate(s, clicks[0].page, clicks[0].player), clicks[1..], c);
    }
  }

  /**
   * After any series of navigation calls, the page is the last one asked for
   * and the selected player is the last one supplied.
   */
  lemma {:induction false} RunState(s: NavState, clicks: seq<Click>)
    ensures Run(s, clicks).currentPage == if clicks == [] then s.currentPage else clicks[|clicks| - 1].page
    ensures Run(s, clicks).selectedPlayer == LastSupplied(clicks, s.selectedPlayer)
    decreases |clicks|
  {
    if clicks != [] {
      var init := clicks[..|clicks| - 1];
      var last := clicks[|clicks| - 1];
      assert clicks == init + [last];
      RunSnoc(s, init, last);
      RunState(s, init);
    }
  }

  /** Once a player has been selected, no navigation clears the selection. */
  lemma {:induction false} SelectionNeverCleared(s: NavState, clicks: seq<Click>)
    requires s.selectedPlayer.Some?
    ensures Run(s, clicks).selectedPlayer.Some?
    decreases |clicks|
  {
    if clicks != [] {
      SelectionNeverCleared(Navigate(s, clicks[0].page, clicks[0].player), clicks[1..]);
    }
  }

  /** Calls to the details page that always supply a player. */
  predicate DetailsCallsSupplyPlayer(clicks: seq<Click>)
  {
    forall i :: 0 <= i < |clicks| && clicks[i].page == PlayerDetailsTag ==> clicks[i].player.Some?
  }

  /**
   * From the initial state, when every call to the details page passes a
   * player (as the player cards and the player list do), the details view is
   * never shown without one.
   */
  lemma {:induction false} DetailsAlwaysHasPlayer(s: NavState, clicks: seq<Click>)
    requires s.currentPage == PlayerDetailsTag ==> s.selectedPlayer.Some?
    requires DetailsCallsSupplyPlayer(clicks)
    ensures RenderPage(Run(s, clicks).currentPage, Run(s, clicks).selectedPlayer) != PlayerDetailsView(None)
    decreases |clicks|
  {
    if clicks == [] {
    } else {
      var t := Navigate(s, clicks[0].page, clicks[0].player);
      assert t.currentPage == PlayerDetailsTag ==> t.selectedPlayer.Some? by {
        if t.currentPage == PlayerDetailsTag {
          assert clicks[0].page == PlayerDetailsTag;
        }
      }
      assert DetailsCallsSupplyPlayer(clicks[1..]) by {
        forall i | 0 <= i < |clicks[1..]| && clicks[1..][i].page == PlayerDetailsTag
          ensures clicks[1..][i].player.Some?
        {
          assert clicks[1..][i] == clicks[i + 1];
        }
      }
      DetailsAlwaysHasPlayer(t, clicks[1..]);
    }
  }

  /** The fallback can be reached: a call to the details page with no player before any player was picked. */
  lemma DetailsFallbackReachable()
    ensures RenderPage(Navigate(InitialState, PlayerDetailsTag, None).currentPage,
                       Navigate(InitialState, PlayerDetailsTag, None).selectedPlayer)
            == PlayerDetailsView(None)
  {
  }

  /** No click of the series supplied a player, when the last supplied one is still `None`. */
  lemma {:induction false} NoneSupplied(clicks: seq<Click>)
    requires LastSupplied(clicks, None) == None
    ensures forall i :: 0 <= i < |clicks| ==> clicks[i].player == None
    decreases |clicks|
  {
    if clicks != [] {
      var init := clicks[..|clicks| - 1];
      NoneSupplied(init);
      assert forall i :: 0 <= i < |init| ==> init[i] == clicks[i];
    }
  }

  /** The fallback is shown only when no player is selected. */
  lemma FallbackHasNoPlayer(page: string, selected: Option<Player>)
    requires RenderPage(page, selected) == PlayerDetailsView(None)
    ensures selected == None
  {
    var v := RenderPage(page, selected);
    assert v.player == selected;
  }

  /**
   * And that is the only way: from the initial state, the details view shows
   * the fallback only if no navigation call ever supplied a player.
   */
  lemma FallbackOnlyWithoutPlayer(clicks: seq<Click>)
    requires RenderPage(Run(InitialState, clicks).currentPage, Run(InitialState, clicks).selectedPlayer)
             == PlayerDetailsView(None)
    ensures forall i :: 0 <= i < |clicks| ==> clicks[i].player == None
  {
    var t := Run(InitialState, clicks);
    FallbackHasNoPlayer(t.currentPage, t.selectedPlayer);
    RunState(InitialState, clicks);
    assert LastSupplied(clicks, InitialState.selectedPlayer) == None;
    NoneSupplied(clicks);
  }

  /** The application component's state. */
  class AppState {
    var currentPage: string
    var selectedPlayer: Option<Player>

    function State(): NavState
      reads this
    {
      NavState(currentPage, selectedPlayer)
    }

    constructor ()
      ensures State() == InitialState
    {
      currentPage := MainPageTag;
      selectedPlayer := None;
    }

    /** `navigateToPage(page, player)`. */
    method NavigateToPage(page: string, player: Option<Player>)
      modifies this
      ensures State() == Navigate(old(State()), page, player)
    {
      currentPage := page;
      if player.Some? {
        selectedPlayer := player;
      }
    }

    /** `renderPage()`. */
    function Render(): (v: View)
      reads this
      ensures currentPage in KnownPages ==> ViewTag(v) == currentPage
      ensures currentPage !in KnownPages ==> v == MainView
      ensures v.PlayerDetailsView? ==> v.player == selectedPlayer
    {
      RenderPage(currentPage, selectedPlayer)
    }
  }
}
