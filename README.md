# Nujoom: the behaviour behind the player pages

Nujoom is a small single-page application over a fixed directory of twenty
football players. This project models the parts of it that compute something,
and proves properties of the model:

- **The directory** (`players.dfy`, module `Players`). The twenty records as a
  constant sequence. Ids run 1..20 in list order. Names are pairwise distinct,
  which matters because the comparison chart keys its columns by name. Rates
  lie in 82..92, and the top rate, 92, is shared by ids 1 and 14.
- **Featured players on the main page** (`mainpage.dfy`, module `MainPage`).
  The page copies the directory, sorts it by success rate in descending
  order, and keeps the first five. The sort is a stable insertion sort, as
  `Array.prototype.sort` has been required to be since ECMAScript 2019. The
  sort is a function on a value, so the directory itself is never reordered.
  The model proves:
  - the result is sorted;
  - it is drawn from the input and has no repeats;
  - no player left out rates above a featured one;
  - ties keep directory order;
  - on the shipped data the featured ids are 1, 14, 3, 11, 6.
- **The star rating on a player card** (`playercard.dfy`, module `PlayerCard`).
  The rating is the success rate scaled to five and rounded; then five star
  slots are filled up to the rating.
- **The details view** (`playerdetails.dfy`, module `PlayerDetails`). A missing
  player gives a fallback notice. Otherwise the view builds a three-bar chart
  of the player's statistics and a six-month line chart of placeholder values.
- **The comparison view** (`comparisons.dfy`, module `Comparisons`).
  - The selection holds at most three players, unique by id, in the order
    they were picked. A toggle updates it: a selected id is removed; an
    unselected player is appended while there is room.
  - A row's button is disabled exactly when a toggle would do nothing.
  - A case-sensitive search filters players by name or team.
  - The grouped bar chart has one row per metric and one column per
    selected name.
  - The view's state is the class `ComparisonPage`.
- **Navigation** (`app.dfy`, module `App`).
  - The application keeps the current page tag and the selected player.
  - Navigating always replaces the page, but replaces the player only when
    one is supplied.
  - The page tag is dispatched to a view; an unknown tag shows the main page.
  - The state is the class `AppState`.

`wrappers.dfy` holds the `Option` type that stands for JavaScript's `null`.

## Model

| member | source | states |
|---|---|---|
| Players.Directory | Nujoom12/src/data/players.js:1-202 | the `players` array, record by record in list order; the `Directory…` lemmas below state its invariants |
| Players.DirectoryIds | Nujoom12/src/data/players.js:1-202 | the directory has 20 records, record `i` has id `i+1`, so ids are pairwise distinct |
| Players.DirectoryIdsAt | Nujoom12/src/data/players.js:3-133 | the records at positions 0, 13, 2, 10, 5 have ids 1, 14, 3, 11, 6 |
| Players.DirectoryNames | Nujoom12/src/data/players.js:4-194 | the names of the 20 records are pairwise distinct |
| Players.NamesDistinctBelow | Nujoom12/src/data/players.js:4-194 | each block of five records has names unlike every later record |
| Players.DirectoryWellFormed | Nujoom12/src/data/players.js:7-9 | every record has a rate in 0..100 (in fact 82..92) and non-negative match and card counts |
| Players.DirectoryTopRate | Nujoom12/src/data/players.js:7-137 | no rate exceeds 92; exactly the records at positions 0 and 13 (ids 1 and 14) have 92 |
| Players.DirectoryIdDetermines | Nujoom12/src/data/players.js:3-193 | two directory records with the same id are the same record |
| Players.DirectoryNameDetermines | Nujoom12/src/data/players.js:4-194 | two directory records with the same name are the same record |
| Players.DirectoryRates | Nujoom12/src/data/players.js:7-197 | the success rate of each of the 20 records, in list order |
| MainPage.Insert | Nujoom12/src/pages/MainPage.jsx:11 | inserting one player into the sorted part adds exactly one element |
| MainPage.InsertPermutes | Nujoom12/src/pages/MainPage.jsx:11 | insertion adds the player to the multiset of the sorted part and changes nothing else |
| MainPage.InsertSorted | Nujoom12/src/pages/MainPage.jsx:11 | insertion into a list sorted by descending rate keeps it sorted |
| MainPage.SortByRate | Nujoom12/src/pages/MainPage.jsx:10-11 | the sorted copy is as long as the directory |
| MainPage.SortPermutes | Nujoom12/src/pages/MainPage.jsx:10-11 | the sorted copy is a permutation of its input |
| MainPage.SortSorts | Nujoom12/src/pages/MainPage.jsx:11 | the sorted copy is in non-increasing order of success rate |
| MainPage.SortIsStable | Nujoom12/src/pages/MainPage.jsx:11 | for every rate, the players with that rate appear in the sorted copy in input order |
| MainPage.Featured | Nujoom12/src/pages/MainPage.jsx:10-12 | the featured list has `min(5, n)` players for an input of `n` |
| MainPage.FeaturedSorted | Nujoom12/src/pages/MainPage.jsx:11-12 | the featured list is in non-increasing order of success rate |
| MainPage.FeaturedFromInput | Nujoom12/src/pages/MainPage.jsx:10-12 | the featured list is a sub-multiset of the input, so every featured player is an input player |
| MainPage.FeaturedRepeatFree | Nujoom12/src/pages/MainPage.jsx:10-12 | an input without repeats gives a featured list without repeats |
| MainPage.FeaturedDominates | Nujoom12/src/pages/MainPage.jsx:11-12 | an input player that is not featured rates no higher than any featured player |
| MainPage.FeaturedStable | Nujoom12/src/pages/MainPage.jsx:11-12 | for every rate, the featured players with that rate are the first ones of that rate in input order |
| MainPage.RepeatFreeCounts | Nujoom12/src/pages/MainPage.jsx:10-12 | a list without repeats holds each player at most once as a multiset |
| MainPage.CountsRepeatFree | Nujoom12/src/pages/MainPage.jsx:10-12 | a list holding each player at most once has no repeats |
| MainPage.FeaturedOfShippedRates | Nujoom12/src/pages/MainPage.jsx:10-12 | any 20 records with the shipped rates feature the records at positions 0, 13, 2, 10, 5 |
| MainPage.TopStep | Nujoom12/src/pages/MainPage.jsx:11-12 | one more insertion step of the sort changes the first five exactly as placing the new player after those rated strictly higher |
| MainPage.ShippedFeaturedRecords | Nujoom12/src/pages/MainPage.jsx:10-12 | on the shipped directory the featured records are those at positions 0, 13, 2, 10, 5 |
| MainPage.ShippedFeatured | Nujoom12/src/pages/MainPage.jsx:10-12 | on the shipped directory exactly five players are featured, with ids 1, 14, 3, 11, 6 in that order |
| PlayerCard.Rating | Nujoom12/src/components/PlayerCard.jsx:5 | the rating is the integer nearest to rate/20, halves rounded up: `20r-10 <= rate < 20r+10` |
| PlayerCard.RatingBounds | Nujoom12/src/components/PlayerCard.jsx:5 | a rate in 0..100 gives a rating in 0..5 |
| PlayerCard.RatingMonotone | Nujoom12/src/components/PlayerCard.jsx:5 | a higher rate never gives a lower rating |
| PlayerCard.RatingSamples | Nujoom12/src/components/PlayerCard.jsx:5 | ratings of 0, 100, 92, 90, 89, 85 and 82 are 0, 5, 5, 5, 4, 4 and 4 |
| PlayerCard.Stars | Nujoom12/src/components/PlayerCard.jsx:22 | exactly five star slots are produced |
| PlayerCard.FilledPrefix | Nujoom12/src/components/PlayerCard.jsx:22-27 | the first `n` slots hold the rating clipped to 0..n filled stars |
| PlayerCard.StarsFilled | Nujoom12/src/components/PlayerCard.jsx:26-27 | a rating in 0..5 fills exactly that many slots, and filled slots come before empty ones |
| PlayerCard.CardStars | Nujoom12/src/components/PlayerCard.jsx:5-27 | a card fills as many stars as its rating, at most five |
| PlayerDetails.PerformanceData | Nujoom12/src/pages/PlayerDetailsPage.jsx:13-17 | three bars, labelled matches, success rate and yellow cards in that order, each valued with that field of the player |
| PlayerDetails.MonthlyPerformance | Nujoom12/src/pages/PlayerDetailsPage.jsx:20-27 | six points labelled January to June in order, each with a value in 70..89 |
| PlayerDetails.DetailsView | Nujoom12/src/pages/PlayerDetailsPage.jsx:8-17 | the fallback is shown exactly when the player is missing; otherwise the bars are the player's performance data |
| Comparisons.FindById | Nujoom12/src/pages/ComparisonsPage.jsx:16 | the lookup finds nothing exactly when no selected player has the id; a found player is the first selected player with the id |
| Comparisons.Without | Nujoom12/src/pages/ComparisonsPage.jsx:18 | no player with the removed id is left |
| Comparisons.WithoutSubsequence | Nujoom12/src/pages/ComparisonsPage.jsx:18 | removal keeps the remaining players in their order |
| Comparisons.WithoutCounts | Nujoom12/src/pages/ComparisonsPage.jsx:18 | removal drops every player with the id and keeps every other player as often as before |
| Comparisons.WithoutAbsent | Nujoom12/src/pages/ComparisonsPage.jsx:18 | removing an id nobody has leaves the selection as it was |
| Comparisons.WithoutShrinks | Nujoom12/src/pages/ComparisonsPage.jsx:18 | removing a present id shortens the selection |
| Comparisons.WithoutAppend | Nujoom12/src/pages/ComparisonsPage.jsx:18-21 | removal from `s + [p]` is removal from `s`, followed by `p` unless `p` has the id |
| Comparisons.WithoutDistinctLength | Nujoom12/src/pages/ComparisonsPage.jsx:18 | with distinct ids, removing a present id removes exactly one player |
| Comparisons.SubsequenceIdsDistinct | Nujoom12/src/pages/ComparisonsPage.jsx:18 | players kept in order from a selection with distinct ids have distinct ids |
| Comparisons.Toggled | Nujoom12/src/pages/ComparisonsPage.jsx:15-23 | a selected id is removed; otherwise the old selection is kept as a prefix and only `p` can follow it, and only below three players (ToggleRemoves, ToggleAppends and ToggleNoOpIffDisabled give the whole contents) |
| Comparisons.ButtonDisabled | Nujoom12/src/pages/ComparisonsPage.jsx:157 | a row's button is disabled exactly when three or more are selected and none has the row's id |
| Comparisons.ToggleKeepsValid | Nujoom12/src/pages/ComparisonsPage.jsx:15-23 | after a toggle the selection still has at most three players with pairwise distinct ids |
| Comparisons.ToggleRemoves | Nujoom12/src/pages/ComparisonsPage.jsx:16-18 | toggling a selected id removes that id and nothing else, keeps the order, and with distinct ids removes one player |
| Comparisons.ToggleAppends | Nujoom12/src/pages/ComparisonsPage.jsx:19-21 | toggling an unselected player with room appends it and leaves earlier entries unchanged |
| Comparisons.ToggleNoOpIffDisabled | Nujoom12/src/pages/ComparisonsPage.jsx:15-23 | a toggle leaves the selection unchanged exactly when the row's button is disabled (full and not selected) |
| Comparisons.ToggleTwiceRestores | Nujoom12/src/pages/ComparisonsPage.jsx:18-21 | picking and unpicking an unselected player under capacity restores the selection |
| Comparisons.ToggleTwiceMovesToEnd | Nujoom12/src/pages/ComparisonsPage.jsx:18-21 | unpicking and re-picking a selected player moves it to the end |
| Comparisons.ToggleAllValid | Nujoom12/src/pages/ComparisonsPage.jsx:15-23 | any series of toggles keeps at most three players with distinct ids |
| Comparisons.ToggleAllDirectory | Nujoom12/src/pages/ComparisonsPage.jsx:15-23 | any series of toggles of directory players keeps every selected player a directory record |
| Comparisons.ToggleKeepsDirectory | Nujoom12/src/pages/ComparisonsPage.jsx:15-23 | toggling directory players keeps every selected player a directory record |
| Comparisons.FilterSubsequence | Nujoom12/src/pages/ComparisonsPage.jsx:25-28 | the search result lists players of the directory in directory order |
| Comparisons.FilterPlayers | Nujoom12/src/pages/ComparisonsPage.jsx:25-28 | the search (built on `MatchesSearch` and `Includes`, a contiguous case-sensitive occurrence) lists no more players than its input, each with the term in its name or team; FilterCounts and FilterSubsequence give the exact contents and order |
| Comparisons.FilterCounts | Nujoom12/src/pages/ComparisonsPage.jsx:25-28 | a matching player is listed as often as in the input, a non-matching one never |
| Comparisons.FilterMembership | Nujoom12/src/pages/ComparisonsPage.jsx:25-28 | a player is listed exactly when it is in the input and its name or team contains the term |
| Comparisons.IncludesEmpty | Nujoom12/src/pages/ComparisonsPage.jsx:26-27 | every string contains the empty term |
| Comparisons.FilterEmptyTerm | Nujoom12/src/pages/ComparisonsPage.jsx:25-28 | the empty search term lists the whole input |
| Comparisons.Columns | Nujoom12/src/pages/ComparisonsPage.jsx:32-34 | the left fold of one row: the last selected player's name holds that player's statistic, so a later player overwrites an earlier one of the same name; ColumnsKeys and ColumnsValues give the whole row |
| Comparisons.BarChartRows | Nujoom12/src/pages/ComparisonsPage.jsx:31-35 | three rows labelled matches, save percentage and yellow cards in that order, each holding that metric's columns |
| Comparisons.ColumnsKeys | Nujoom12/src/pages/ComparisonsPage.jsx:32-34 | a row has a column for each selected name and no other |
| Comparisons.ColumnsValues | Nujoom12/src/pages/ComparisonsPage.jsx:32-34 | with distinct names, each selected name's column holds that player's field |
| Comparisons.ColumnsOfSelection | Nujoom12/src/pages/ComparisonsPage.jsx:32-34 | with distinct names, a row maps exactly the selected names to the players' fields |
| Comparisons.SelectionNamesDistinct | Nujoom12/src/pages/ComparisonsPage.jsx:32-34 | directory players with distinct ids have distinct names, so no column is overwritten |
| Comparisons.BarChartOfSelection | Nujoom12/src/pages/ComparisonsPage.jsx:31-35 | for a valid selection of directory players, every row maps exactly the selected names to each player's field for that row |
| Comparisons.SingleComparisonMatchesDetails | Nujoom12/src/pages/ComparisonsPage.jsx:31-35 | comparing one player plots the same three values, in the same order, as that player's details chart |
| Comparisons.ComparisonPage.constructor | Nujoom12/src/pages/ComparisonsPage.jsx:11-13 | the view starts with an empty selection and an empty search term |
| Comparisons.ComparisonPage.Toggle | Nujoom12/src/pages/ComparisonsPage.jsx:15-23 | called with a directory player (a row at line 149 or a selected chip at line 119), the selection becomes the toggled selection, stays within capacity with distinct ids and made of directory records, and the search term is unchanged |
| Comparisons.ComparisonPage.BarChartData | Nujoom12/src/pages/ComparisonsPage.jsx:31-35 | for the view's own selection, three rows, each with exactly one column per selected name holding that player's statistic for the row's metric |
| Comparisons.ComparisonPage.SetSearchTerm | Nujoom12/src/pages/ComparisonsPage.jsx:103 | the term is replaced and the selection is unchanged |
| App.RenderPage | Nujoom12/src/App.jsx:18-33 | each of the five known tags shows the view with that tag, any other tag shows the main page, and the details view gets the selected player |
| App.RenderViewTag | Nujoom12/src/App.jsx:18-33 | dispatching a view's own tag gives that view back |
| App.RenderPageInjective | Nujoom12/src/App.jsx:18-33 | two tags show the same view only if they are equal or both fall to the main page |
| App.Navigate | Nujoom12/src/App.jsx:13-16 | the page is always replaced; the player is replaced when supplied and kept otherwise |
| App.RunSnoc | Nujoom12/src/App.jsx:13-16 | one more navigation call moves on from the state reached so far |
| App.RunState | Nujoom12/src/App.jsx:13-16 | after any series of calls, the page is the last one asked for and the player is the last one supplied |
| App.SelectionNeverCleared | Nujoom12/src/App.jsx:15 | once a player is selected, no navigation returns the selection to null |
| App.DetailsAlwaysHasPlayer | Nujoom12/src/App.jsx:13-27 | when every call to the details page passes a player, the details view is never shown without one |
| App.DetailsFallbackReachable | Nujoom12/src/App.jsx:10-27 | a call to the details page without a player from the initial state shows the details view with no player |
| App.FallbackHasNoPlayer | Nujoom12/src/App.jsx:26-27 | the details view shows the fallback only when no player is selected |
| App.NoneSupplied | Nujoom12/src/App.jsx:15 | while no player has been supplied since the start, no click of the series carried one |
| App.FallbackOnlyWithoutPlayer | Nujoom12/src/App.jsx:10-27 | from the initial state, the details fallback is shown only if no navigation call ever supplied a player |
| App.InitialState | Nujoom12/src/App.jsx:10-11 | the main page with no selected player; AppState.constructor starts there and RunState and FallbackOnlyWithoutPlayer reason from it |
| App.AppState.Render | Nujoom12/src/App.jsx:18-33 | the view of the current state: each known tag shows its own view, any other the main page, and the details view gets the selected player |
| App.AppState.constructor | Nujoom12/src/App.jsx:10-11 | the application starts on the main page with no selected player |
| App.AppState.NavigateToPage | Nujoom12/src/App.jsx:13-16 | the new state is the navigation transition applied to the old one |

## Left out

- `sports-main/examples/soccer/main.py` is not part of this model. It is a video-analysis pipeline built on file I/O, neural models and floating-point distances.
- The radar chart's skill values in the comparison view are random, so they are not modelled.
- PlayerDetails.MonthlyPerformance: the monthly values are random in the source. The model takes the six draws of `Math.floor(Math.random() * 20)` as a parameter, in 0..19.
- PlayerCard.Rating: `Math.round((rate / 100) * 5)` is computed in floating point. The model uses the integer `(rate + 10) / 20`. The two agree for every integer rate in 0..100, including the half-way rates 10, 30, 50, 70 and 90, whose floating-point products are exact halves that round up.
- Comparisons.Includes: JavaScript's `includes` compares UTF-16 code units. The model compares characters of `seq<char>`, case-sensitively and without normalisation.
- Comparisons.Columns: a JavaScript object key `name` from a player would clash with the row's own `name` label. No directory player is called `name`, so the model keeps the label and the columns apart.
- Comparisons.ComparisonPage.FilteredPlayers and IsDisabled: these only read the state and delegate to `FilterPlayers` and `ButtonDisabled`, whose contracts and lemmas hold for any argument, the view's own state included.
- The comparison view's state is lost when the view unmounts, because React re-creates it. The model does not follow the view's lifetime.
- JSX markup, CSS classes, chart colours, recharts rendering and the grid/list `viewMode` toggles are presentation only.
- The header and the players list only pass page tags (and, from a player card, a player) to navigation. Their calls are modelled as `App.Click` values.
- `MatchAnalysisPage` and `StatsRadarChart` are not part of this model: only their page tag appears.
- The comparison chart labels the success rate "نسبة التصديات" (save percentage), while the details chart calls it "نسبة النجاح" (success rate). Both labels are kept as written.
