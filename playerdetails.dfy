/**
 * The details view (src/pages/PlayerDetailsPage.jsx): a fallback notice when
 * no player is given, otherwise a three-bar chart of the player's statistics
 * and a six-month line chart whose values are random placeholders.
 */
module PlayerDetails {
  import opened Wrappers
  import opened Players

  /** One bar of the performance chart. */
  datatype Bar = Bar(name: string, value: int)

  /** One point of the monthly line chart. */
  datatype MonthPoint = MonthPoint(month: string, performance: int)

  /** What the view shows. */
  datatype Details =
    | NoPlayerSelected
    | Charts(performance: seq<Bar>, monthly: seq<MonthPoint>)

  /** The bar labels: matches, success rate, yellow cards. */
  function BarLabel(m: Metric): string
  {
    match m
    case Matches => "المباريات"
    case SuccessRate => "نسبة النجاح"
    case YellowCards => "البطاقات الصفراء"
  }

  /** January to June. */
  const Months: seq<string> := ["يناير", "فبراير", "مارس", "أبريل", "مايو", "يونيو"]

  /** `performanceData`: one bar per chart metric, labelled and valued from the player. */
  function PerformanceData(p: Player): (bars: seq<Bar>)
    ensures |bars| == |ChartMetrics| == 3
    ensures forall k :: 0 <= k < |bars| ==>
              bars[k].name == BarLabel(ChartMetrics[k]) && bars[k].value == Stat(p, ChartMetrics[k])
  {
    [ Bar(BarLabel(Matches), p.matches),
      Bar(BarLabel(SuccessRate), p.successRate),
      Bar(BarLabel(YellowCards), p.cardsCount) ]
  }

  /**
   * `monthlyPerformance`. Each `draws[k]` stands for the value
   * `Math.floor(Math.random() * 20)` takes for month `k`.
   */
  function MonthlyPerformance(draws: seq<int>): (points: seq<MonthPoint>)
    requires |draws| == |Months|
    requires forall k :: 0 <= k < |draws| ==> 0 <= draws[k] < 20
    ensures |points| == 6
    ensures forall k :: 0 <= k < |points| ==>
              points[k].month == Months[k] && 70 <= points[k].performance < 90
  {
    seq(|Months|, k requires 0 <= k < |Months| => MonthPoint(Months[k], draws[k] + 70))
  }

  /** The whole view: the fallback for a missing player, and no chart data then. */
  function DetailsView(player: Option<Player>, draws: seq<int>): (d: Details)
    requires |draws| == |Months|
    requires forall k :: 0 <= k < |draws| ==> 0 <= draws[k] < 20
    ensures d.NoPlayerSelected? <==> player.None?
    ensures player.Some? ==> d.performance == PerformanceData(player.value)
  {
    match player
    case None => NoPlayerSelected
    case Some(p) => Charts(PerformanceData(p), MonthlyPerformance(draws))
  }
}
