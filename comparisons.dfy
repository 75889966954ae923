/**
 * The comparison view (src/pages/ComparisonsPage.jsx): a selection of at most
 * three players, unique by id and kept in the order they were picked, changed
 * by a toggle; a case-sensitive search over names and teams; and the three
 * metric rows of the grouped bar chart.
 */
module Comparisons {
  import opened Wrappers
  import opened Players
  import PlayerDetails

  /** The most players the view compares at once. */
  const Capacity: nat := 3

  /** `a` is `b` with some elements left out and the rest in their order. */
  predicate IsSubsequence<T(==)>(a: seq<T>, b: seq<T>)
    decreases |b|
  {
    if a == [] then true
    else if b == [] then false
    else (a[0] == b[0] && IsSubsequence(a[1..], b[1..])) || IsSubsequence(a, b[1..])
  }

  // ---------------------------------------------------------------------------
  // Lookup and removal by id
  // ---------------------------------------------------------------------------

  /** `selection.find(p => p.id === id)`: the first player with that id, if any. */
  function FindById(s: seq<Player>, id: int): (r: Option<Player>)
    ensures r.None? <==> forall i :: 0 <= i < |s| ==> s[i].id != id
    ensures r.Some? ==> r.value in s && r.value.id == id
    ensures r.Some? ==> exists i :: 0 <= i < |s| && s[i] == r.value && forall j :: 0 <= j < i ==> s[j].id != id
  {
    if s == [] then None
    else if s[0].id == id then Some(s[0])
    else FindById(s[1..], id)
  }

  /** The truthiness test `if (selectedPlayers.find(...))`: a found player object is truthy. */
  predicate IsSelected(s: seq<Player>, id: int)
  {
    FindById(s, id).Some?
  }

  /** `selection.filter(p => p.id !== id)`. */
  function Without(s: seq<Player>, id: int): (r: seq<Player>)
    ensures forall i :: 0 <= i < |r| ==> r[i].id != id
  {
    if s == [] then []
    else
      var rest := Without(s[1..], id);
      if s[0].id == id then rest else [s[0]] + rest
  }

  lemma {:induction false} WithoutSubsequence(s: seq<Player>, id: int)
    ensures IsSubsequence(Without(s, id), s)
  {
    if s != [] {
      WithoutSubsequence(s[1..], id);
      var rest := Without(s[1..], id);
      if s[0].id != id {
        assert ([s[0]] + rest)[1..] == rest;
      } else if rest != [] {
        assert rest[0] != s[0];
      }
    }
  }

  /** Removal keeps exactly the players whose id differs, each as often as before. */
  lemma {:induction false} WithoutCounts(s: seq<Player>, id: int)
    ensures forall q :: multiset(Without(s, id))[q] == if q.id == id then 0 else multiset(s)[q]
  {
    if s != [] {
      WithoutCounts(s[1..], id);
      assert s == [s[0]] + s[1..];
    }
  }

  /** Removing an id nobody has changes nothing. */
  lemma {:induction false} WithoutAbsent(s: seq<Player>, id: int)
    requires forall i :: 0 <= i < |s| ==> s[i].id != id
    ensures Without(s, id) == s
  {
    if s != [] {
      WithoutAbsent(s[1..], id);
      assert s == [s[0]] + s[1..];
    }
  }

  /** Removing an id that is present shortens the selection. */
  lemma {:induction false} WithoutShrinks(s: seq<Player>, id: int)
    requires exists i :: 0 <= i < |s| && s[i].id == id
    ensures |Without(s, id)| < |s|
  {
    WithoutCounts(s, id);
    var i :| 0 <= i < |s| && s[i].id == id;
    WithoutLength(s, id);
    assert multiset(Without(s, id))[s[i]] == 0 < multiset(s)[s[i]];
    if |Without(s, id)| == |s| {
      WithoutSubsequence(s, id);
      SubsequenceSameLength(Without(s, id), s);
    }
  }

  lemma {:induction false} WithoutLength(s: seq<Player>, id: int)
    ensures |Without(s, id)| <= |s|
  {
    if s != [] {
      WithoutLength(s[1..], id);
    }
  }

  /** A subsequence as long as its source is the source itself. */
  lemma {:induction false} SubsequenceSameLength<T>(a: seq<T>, b: seq<T>)
    requires IsSubsequence(a, b) && |a| == |b|
    ensures a == b
  {
    if a != [] {
      SubsequenceLength(a, b[1..]);
      if |b[1..]| < |a| {
        SubsequenceSameLength(a[1..], b[1..]);
        assert a == [a[0]] + a[1..];
        assert b == [b[0]] + b[1..];
      }
    }
  }

  lemma {:induction false} SubsequenceLength<T>(a: seq<T>, b: seq<T>)
    ensures IsSubsequence(a, b) ==> |a| <= |b|
    decreases |b|
  {
    if a != [] && b != [] {
      SubsequenceLength(a[1..], b[1..]);
      SubsequenceLength(a, b[1..]);
    }
  }

  /** Removing the id of the last player of `s + [p]` depends only on `s` and `p`. */
  lemma {:induction false} WithoutAppend(s: seq<Player>, p: Player, id: int)
    ensures Without(s + [p], id) == Without(s, id) + if p.id == id then [] else [p]
  {
    if s == [] {
      assert s + [p] == [p];
    } else {
      assert (s + [p])[1..] == s[1..] + [p];
      WithoutAppend(s[1..], p, id);
    }
  }

  /** Every element of a subsequence is an element of its source. */
  lemma {:induction false} SubsequenceMembers<T>(a: seq<T>, b: seq<T>)
    requires IsSubsequence(a, b)
    ensures forall x :: x in a ==> x in b
    decreases |b|
  {
    if a != [] {
      if a[0] == b[0] && IsSubsequence(a[1..], b[1..]) {
        SubsequenceMembers(a[1..], b[1..]);
        assert a == [a[0]] + a[1..];
      } else {
        SubsequenceMembers(a, b[1..]);
      }
    }
  }

  /** Distinct ids stay distinct in a subsequence. */
  lemma {:induction false} SubsequenceIdsDistinct(a: seq<Player>, b: seq<Player>)
    requires IsSubsequence(a, b) && IdsDistinct(b)
    ensures IdsDistinct(a)
    decreases |b|
  {
    if a != [] {
      var tail := b[1..];
      assert IdsDistinct(tail) by {
        assert forall i :: 0 <= i < |tail| ==> tail[i] == b[i + 1];
      }
      if a[0] == b[0] && IsSubsequence(a[1..], tail) {
        SubsequenceIdsDistinct(a[1..], tail);
        SubsequenceMembers(a[1..], tail);
        forall k | 1 <= k < |a| ensures a[0].id != a[k].id {
          assert a[k] == a[1..][k - 1];
          assert a[k] in a[1..];
          var j :| 0 <= j < |tail| && tail[j] == a[k];
          assert b[j + 1] == a[k];
        }
      } else {
        SubsequenceIdsDistinct(a, tail);
      }
    }
  }

  // ---------------------------------------------------------------------------
  // The toggle
  // ---------------------------------------------------------------------------

  /** What the selection must satisfy: at most three players, ids pairwise distinct. */
  predicate ValidSelection(s: seq<Player>)
  {
    |s| <= Capacity && IdsDistinct(s)
  }

  /**
   * `handlePlayerSelect`: remove the player's id when it is selected,
   * otherwise append the player when there is room, otherwise do nothing.
   */
  function Toggled(s: seq<Player>, p: Player): (r: seq<Player>)
    ensures IsSelected(s, p.id) ==> forall i :: 0 <= i < |r| ==> r[i].id != p.id
    ensures !IsSelected(s, p.id) ==> |s| <= |r| <= |s| + 1 && r[..|s|] == s
    ensures !IsSelected(s, p.id) && |r| == |s| + 1 ==> r[|s|] == p && |s| < Capacity
  {
    if IsSelected(s, p.id) then Without(s, p.id)
    else if |s| < Capacity then s + [p]
    else s
  }

  /** The row button's `disabled` attribute: the selection is full and the player is not in it. */
  predicate ButtonDisabled(s: seq<Player>, p: Player): (b: bool)
    ensures b <==> |s| >= Capacity && forall i :: 0 <= i < |s| ==> s[i].id != p.id
  {
    |s| >= Capacity && !IsSelected(s, p.id)
  }

  /** A toggle keeps the selection within capacity and its ids distinct. */
  lemma ToggleKeepsValid(s: seq<Player>, p: Player)
    requires ValidSelection(s)
    ensures ValidSelection(Toggled(s, p))
  {
    if IsSelected(s, p.id) {
      WithoutLength(s, p.id);
      WithoutSubsequence(s, p.id);
      SubsequenceIdsDistinct(Without(s, p.id), s);
    }
  }

  /**
   * Toggling a selected id removes that id and nothing else; the players left
   * keep their order, and with distinct ids exactly one player goes.
   */
  lemma ToggleRemoves(s: seq<Player>, p: Player)
    requires IsSelected(s, p.id)
    ensures !IsSelected(Toggled(s, p), p.id)
    ensures IsSubsequence(Toggled(s, p), s)
    ensures forall q :: multiset(Toggled(s, p))[q] == if q.id == p.id then 0 else multiset(s)[q]
    ensures IdsDistinct(s) ==> |Toggled(s, p)| == |s| - 1
  {
    WithoutSubsequence(s, p.id);
    WithoutCounts(s, p.id);
    if IdsDistinct(s) {
      WithoutDistinctLength(s, p.id);
    }
  }

  /** With distinct ids, removing a present id removes exactly one player. */
  lemma {:induction false} WithoutDistinctLength(s: seq<Player>, id: int)
    requires IdsDistinct(s)
    requires exists i :: 0 <= i < |s| && s[i].id == id
    ensures |Without(s, id)| == |s| - 1
  {
    var tail := s[1..];
    assert IdsDistinct(tail) by {
      assert forall i :: 0 <= i < |tail| ==> tail[i] == s[i + 1];
    }
    if s[0].id == id {
      assert forall i :: 0 <= i < |tail| ==> tail[i].id != id by {
        assert forall i :: 0 <= i < |tail| ==> tail[i] == s[i + 1];
      }
      WithoutAbsent(tail, id);
    } else {
      var i :| 0 <= i < |s| && s[i].id == id;
      assert tail[i - 1].id == id;
      WithoutDistinctLength(tail, id);
    }
  }

  /** Toggling an unselected player with room to spare appends it and keeps the rest. */
  lemma ToggleAppends(s: seq<Player>, p: Player)
    requires !IsSelected(s, p.id) && |s| < Capacity
    ensures |Toggled(s, p)| == |s| + 1
    ensures Toggled(s, p)[..|s|] == s && Toggled(s, p)[|s|] == p
  {
  }

  /** The toggle changes nothing exactly when the row's button is disabled. */
  lemma ToggleNoOpIffDisabled(s: seq<Player>, p: Player)
    ensures Toggled(s, p) == s <==> ButtonDisabled(s, p)
  {
    if IsSelected(s, p.id) {
      WithoutShrinks(s, p.id);
    }
  }

  /** Picking an unselected player and unpicking it again restores the selection. */
  lemma ToggleTwiceRestores(s: seq<Player>, p: Player)
    requires !IsSelected(s, p.id) && |s| < Capacity
    ensures Toggled(Toggled(s, p), p) == s
  {
    var t := s + [p];
    assert t[|s|] == p;
    assert IsSelected(t, p.id);
    WithoutAppend(s, p, p.id);
    WithoutAbsent(s, p.id);
  }

  /** Unpicking a selected player and picking it again moves it to the end. */
  lemma ToggleTwiceMovesToEnd(s: seq<Player>, p: Player)
    requires ValidSelection(s) && IsSelected(s, p.id)
    ensures Toggled(Toggled(s, p), p) == Without(s, p.id) + [p]
  {
    ToggleRemoves(s, p);
  }

  /** The selection after a series of toggles, oldest first. */
  function ToggleAll(s: seq<Player>, clicks: seq<Player>): seq<Player>
    decreases |clicks|
  {
    if clicks == [] then s else ToggleAll(Toggled(s, clicks[0]), clicks[1..])
  }

  /** However many toggles happen, the selection stays within capacity with distinct ids. */
  lemma {:induction false} ToggleAllValid(s: seq<Player>, clicks: seq<Player>)
    requires ValidSelection(s)
    ensures ValidSelection(ToggleAll(s, clicks))
    decreases |clicks|
  {
    if clicks != [] {
      ToggleKeepsValid(s, clicks[0]);
      ToggleAllValid(Toggled(s, clicks[0]), clicks[1..]);
    }
  }

  /** Any series of toggles of directory players keeps the selection within the directory. */
  lemma {:induction false} ToggleAllDirectory(s: seq<Player>, clicks: seq<Player>)
    requires forall q :: q in s ==> q in Directory
    requires forall q :: q in clicks ==> q in Directory
    ensures forall q :: q in ToggleAll(s, clicks) ==> q in Directory
    decreases |clicks|
  {
    if clicks != [] {
      ToggleKeepsDirectory(s, clicks[0]);
      assert forall q :: q in clicks[1..] ==> q in clicks;
      ToggleAllDirectory(Toggled(s, clicks[0]), clicks[1..]);
    }
  }

  /** Toggling directory players keeps every selected player a directory record. */
  lemma ToggleKeepsDirectory(s: seq<Player>, p: Player)
    requires forall q :: q in s ==> q in Directory
    requires p in Directory
    ensures forall q :: q in Toggled(s, p) ==> q in Directory
  {
    if IsSelected(s, p.id) {
      WithoutSubsequence(s, p.id);
      SubsequenceMembers(Without(s, p.id), s);
    }
  }

  // ---------------------------------------------------------------------------
  // Search
  // ---------------------------------------------------------------------------

  /** `term` occurs in `s` starting at index `i`. */
  predicate OccursAt(s: string, term: string, i: int)
  {
    0 <= i && i + |term| <= |s| && s[i..i + |term|] == term
  }

  /** `s.includes(term)`: a contiguous, case-sensitive occurrence. */
  predicate Includes(s: string, term: string)
  {
    exists i :: 0 <= i <= |s| - |term| && OccursAt(s, term, i)
  }

  /** The search test of one row: the name or the team contains the term. */
  predicate MatchesSearch(p: Player, term: string)
  {
    Includes(p.name, term) || Includes(p.team, term)
  }

  /** `filteredPlayers`: the players that match, in directory order. */
  function FilterPlayers(ps: seq<Player>, term: string): (r: seq<Player>)
    ensures |r| <= |ps|
    ensures forall i :: 0 <= i < |r| ==> MatchesSearch(r[i], term)
  {
    if ps == [] then []
    else (if MatchesSearch(ps[0], term) then [ps[0]] else []) + FilterPlayers(ps[1..], term)
  }

  /** The search result lists players of its input in their input order. */
  lemma {:induction false} FilterSubsequence(ps: seq<Player>, term: string)
    ensures IsSubsequence(FilterPlayers(ps, term), ps)
  {
    if ps != [] {
      FilterSubsequence(ps[1..], term);
      var rest := FilterPlayers(ps[1..], term);
      if MatchesSearch(ps[0], term) {
        assert ([ps[0]] + rest)[1..] == rest;
      } else {
        assert [] + rest == rest;
      }
    }
  }

  /** The search keeps exactly the matching players, each as often as in its input. */
  lemma {:induction false} FilterCounts(ps: seq<Player>, term: string)
    ensures forall q :: multiset(FilterPlayers(ps, term))[q]
                        == if MatchesSearch(q, term) then multiset(ps)[q] else 0
  {
    if ps != [] {
      FilterCounts(ps[1..], term);
      assert ps == [ps[0]] + ps[1..];
    }
  }

  /** A player is offered exactly when it is in the input and matches. */
  lemma FilterMembership(ps: seq<Player>, term: string)
    ensures forall q :: q in FilterPlayers(ps, term) <==> q in ps && MatchesSearch(q, term)
  {
    FilterCounts(ps, term);
    forall q ensures q in FilterPlayers(ps, term) <==> q in ps && MatchesSearch(q, term) {
      assert q in FilterPlayers(ps, term) <==> q in multiset(FilterPlayers(ps, term));
      assert q in ps <==> q in multiset(ps);
    }
  }

  /** Every string includes the empty term. */
  lemma IncludesEmpty(s: string)
    ensures Includes(s, "")
  {
    assert OccursAt(s, "", 0);
  }

  /** The empty search term lists the whole input. */
  lemma {:induction false} FilterEmptyTerm(ps: seq<Player>)
    ensures FilterPlayers(ps, "") == ps
  {
    if ps != [] {
      IncludesEmpty(ps[0].name);
      FilterEmptyTerm(ps[1..]);
      assert ps == [ps[0]] + ps[1..];
    }
  }

  // ---------------------------------------------------------------------------
  // Bar chart
  // ---------------------------------------------------------------------------

  /** One row of `barChartData`: a metric label and one column per selected name. */
  datatype ChartRow = ChartRow(name: string, values: map<string, int>)

  /** The row labels: matches, save percentage, yellow cards. */
  function RowLabel(m: Metric): string
  {
    match m
    case Matches => "المباريات"
    case SuccessRate => "نسبة التصديات"
    case YellowCards => "البطاقات الصفراء"
  }

  /**
   * `selected.reduce((acc, player) => ({ ...acc, [player.name]: value }), {})`:
   * folded from the left, so a later player overwrites an earlier one of the same name.
   */
  function Columns(sel: seq<Player>, m: Metric): (r: map<string, int>)
    ensures sel != [] ==> sel[|sel| - 1].name in r && r[sel[|sel| - 1].name] == Stat(sel[|sel| - 1], m)
  {
    if sel == [] then map[]
    else Columns(sel[..|sel| - 1], m)[sel[|sel| - 1].name := Stat(sel[|sel| - 1], m)]
  }

  /** `barChartData`: the three metric rows in chart order. */
  function BarChartRows(sel: seq<Player>): (rows: seq<ChartRow>)
    ensures |rows| == |ChartMetrics|
    ensures forall k :: 0 <= k < |rows| ==>
              rows[k].name == RowLabel(ChartMetrics[k]) && rows[k].values == Columns(sel, ChartMetrics[k])
  {
    [ ChartRow(RowLabel(Matches), Columns(sel, Matches)),
      ChartRow(RowLabel(SuccessRate), Columns(sel, SuccessRate)),
      ChartRow(RowLabel(YellowCards), Columns(sel, YellowCards)) ]
  }

  /** A row has one column per selected name and no other. */
  lemma {:induction false} ColumnsKeys(sel: seq<Player>, m: Metric)
    ensures Columns(sel, m).Keys == set i | 0 <= i < |sel| :: sel[i].name
  {
    if sel != [] {
      var init := sel[..|sel| - 1];
      var last := sel[|sel| - 1];
      ColumnsKeys(init, m);
      assert Columns(sel, m).Keys == Columns(init, m).Keys + {last.name};
      assert (set i | 0 <= i < |sel| :: sel[i].name) == (set i | 0 <= i < |init| :: init[i].name) + {last.name} by {
        assert forall i :: 0 <= i < |init| ==> init[i] == sel[i];
      }
    }
  }

  /** With distinct names, each selected player's column holds that player's statistic. */
  lemma {:induction false} ColumnsValues(sel: seq<Player>, m: Metric)
    requires NamesDistinct(sel)
    ensures forall i :: 0 <= i < |sel| ==>
              sel[i].name in Columns(sel, m) && Columns(sel, m)[sel[i].name] == Stat(sel[i], m)
  {
    if sel != [] {
      var init := sel[..|sel| - 1];
      assert forall i :: 0 <= i < |init| ==> init[i] == sel[i];
      ColumnsValues(init, m);
    }
  }

  /** With distinct names, a row is exactly the selected names mapped to their statistic. */
  lemma ColumnsOfSelection(sel: seq<Player>, m: Metric)
    requires NamesDistinct(sel)
    ensures Columns(sel, m).Keys == set i | 0 <= i < |sel| :: sel[i].name
    ensures forall i :: 0 <= i < |sel| ==> Columns(sel, m)[sel[i].name] == Stat(sel[i], m)
  {
    ColumnsKeys(sel, m);
    ColumnsValues(sel, m);
  }

  /** Selected directory players with distinct ids have distinct names. */
  lemma SelectionNamesDistinct(sel: seq<Player>)
    requires IdsDistinct(sel)
    requires forall q :: q in sel ==> q in Directory
    ensures NamesDistinct(sel)
  {
    forall i, j | 0 <= i < j < |sel| ensures sel[i].name != sel[j].name {
      if sel[i].name == sel[j].name {
        DirectoryNameDetermines(sel[i], sel[j]);
      }
    }
  }

  /**
   * For a selection of directory players, every row of the chart maps each
   * selected name to that player's statistic for the row's metric, and has no
   * other column.
   */
  lemma BarChartOfSelection(sel: seq<Player>)
    requires ValidSelection(sel)
    requires forall q :: q in sel ==> q in Directory
    ensures forall k :: 0 <= k < |ChartMetrics| ==>
              BarChartRows(sel)[k].values.Keys == set i | 0 <= i < |sel| :: sel[i].name
    ensures forall k, i :: 0 <= k < |ChartMetrics| && 0 <= i < |sel| ==>
              BarChartRows(sel)[k].values[sel[i].name] == Stat(sel[i], ChartMetrics[k])
  {
    SelectionNamesDistinct(sel);
    forall m | m in ChartMetrics
      ensures Columns(sel, m).Keys == set i | 0 <= i < |sel| :: sel[i].name
      ensures forall i :: 0 <= i < |sel| ==> Columns(sel, m)[sel[i].name] == Stat(sel[i], m)
    {
      ColumnsOfSelection(sel, m);
    }
  }

  /**
   * A one-player comparison plots the same three numbers, in the same order,
   * as that player's details chart.
   */
  lemma SingleComparisonMatchesDetails(p: Player)
    ensures forall k :: 0 <= k < |ChartMetrics| ==>
              BarChartRows([p])[k].values == map[p.name := PlayerDetails.PerformanceData(p)[k].value]
  {
    forall k | 0 <= k < |ChartMetrics|
      ensures BarChartRows([p])[k].values == map[p.name := PlayerDetails.PerformanceData(p)[k].value]
    {
      assert [p][..0] == [];
      assert Columns([p], ChartMetrics[k]) == map[p.name := Stat(p, ChartMetrics[k])];
    }
  }

  // ---------------------------------------------------------------------------
  // The view's state
  // ---------------------------------------------------------------------------

  /** The state of one comparison view: `selectedPlayers` and `searchTerm`. */
  class ComparisonPage {
    var selected: seq<Player>
    var searchTerm: string

    ghost predicate Valid()
      reads this
    {
      ValidSelection(selected) && forall q :: q in selected ==> q in Directory
    }

    /** `useState([])` and `useState('')`. */
    constructor ()
      ensures Valid()
      ensures selected == [] && searchTerm == ""
    {
      selected := [];
      searchTerm := "";
    }

    /** `handlePlayerSelect(player)`, called from a directory row or a selected chip. */
    method Toggle(p: Player)
      requires Valid()
      requires p in Directory
      modifies this
      ensures Valid()
      ensures selected == Toggled(old(selected), p)
      ensures searchTerm == old(searchTerm)
    {
      ToggleKeepsValid(selected, p);
      ToggleKeepsDirectory(selected, p);
      var found := FindById(selected, p.id);
      if found.Some? {
        selected := Without(selected, p.id);
      } else if |selected| < Capacity {
        selected := selected + [p];
      }
    }

    /** The search box's `onChange`. */
    method SetSearchTerm(term: string)
      requires Valid()
      modifies this
      ensures Valid()
      ensures searchTerm == term && selected == old(selected)
    {
      searchTerm := term;
    }

    /** The rows offered for selection. */
    function FilteredPlayers(): seq<Player>
      reads this
    {
      FilterPlayers(Directory, searchTerm)
    }

    /**
     * The grouped bar chart's data: every row has one column per selected
     * player, holding that player's statistic for the row's metric.
     */
    function BarChartData(): (rows: seq<ChartRow>)
      requires Valid()
      reads this
      ensures |rows| == |ChartMetrics|
      ensures forall k :: 0 <= k < |ChartMetrics| ==>
                rows[k].values.Keys == set i | 0 <= i < |selected| :: selected[i].name
      ensures forall k, i :: 0 <= k < |ChartMetrics| && 0 <= i < |selected| ==>
                rows[k].values[selected[i].name] == Stat(selected[i], ChartMetrics[k])
    {
      BarChartOfSelection(selected);
      BarChartRows(selected)
    }

    /** Whether the row button of `p` is disabled. */
    predicate IsDisabled(p: Player)
      reads this
    {
      ButtonDisabled(selected, p)
    }
  }
}
