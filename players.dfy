/**
 * The static player directory (`players` in src/data/players.js): twenty
 * records, never mutated, read by every view. Sorting and filtering in the
 * views build new sequences from it.
 */
module Players {

  /** One player record. `image` is a path the views only display. */
  datatype Player = Player(
    id: int,
    name: string,
    team: string,
    age: int,
    successRate: int,
    matches: int,
    cardsCount: int,
    image: string)

  /** What the views rely on for a record: a percentage and two counts. */
  predicate WellFormed(p: Player)
  {
    0 <= p.successRate <= 100 && 0 <= p.matches && 0 <= p.cardsCount
  }

  /** The three statistics the charts plot, in the order both charts list them. */
  datatype Metric = Matches | SuccessRate | YellowCards

  const ChartMetrics: seq<Metric> := [Matches, SuccessRate, YellowCards]

  function Stat(p: Player, m: Metric): int
  {
    match m
    case Matches => p.matches
    case SuccessRate => p.successRate
    case YellowCards => p.cardsCount
  }

  predicate IdsDistinct(ps: seq<Player>)
  {
    forall i, j :: 0 <= i < j < |ps| ==> ps[i].id != ps[j].id
  }

  predicate NamesDistinct(ps: seq<Player>)
  {
    forall i, j :: 0 <= i < j < |ps| ==> ps[i].name != ps[j].name
  }

  /** The `players` array, in source order. */
  const Directory: seq<Player> := [
    Player(1, "محمد العويس", "الهلال", 22, 92, 30, 8, "/player1.jpg"),
    Player(2, "عبدالله المعيوف", "النصر", 25, 88, 26, 10, "/player2.jpg"),
    Player(3, "محمد السهلاوي", "النصر", 23, 90, 28, 12, "/player3.jpg"),
    Player(4, "فواز القرني", "الاتحاد", 24, 85, 24, 15, "/player4.jpg"),
    Player(5, "سالم الدوسري", "الهلال", 27, 87, 32, 5, "/player5.jpg"),
    Player(6, "ياسر الشهراني", "الهلال", 28, 89, 29, 7, "/player6.jpg"),
    Player(7, "نواف العابد", "الهلال", 26, 86, 27, 9, "/player7.jpg"),
    Player(8, "فهد المولد", "الاتحاد", 25, 84, 25, 11, "/player8.jpg"),
    Player(9, "عبدالفتاح آدم", "النصر", 26, 82, 23, 14, "/player9.jpg"),
    Player(10, "حمدان الشمراني", "الاتحاد", 24, 83, 22, 13, "/player10.jpg"),
    Player(11, "عبدالله عطيف", "الهلال", 28, 90, 30, 4, "/player11.jpg"),
    Player(12, "محمد كنو", "الهلال", 27, 88, 28, 6, "/player12.jpg"),
    Player(13, "عبدالله الحمدان", "الشباب", 23, 85, 26, 10, "/player13.jpg"),
    Player(14, "سلمان الفرج", "الهلال", 29, 92, 33, 3, "/player14.jpg"),
    Player(15, "عبدالرحمن غريب", "الأهلي", 24, 89, 29, 8, "/player15.jpg"),
    Player(16, "محمد البريك", "الهلال", 26, 87, 28, 7, "/player16.jpg"),
    Player(17, "عبدالإله المالكي", "الاتحاد", 25, 86, 27, 9, "/player17.jpg"),
    Player(18, "فراس البريكان", "النصر", 22, 84, 25, 6, "/player18.jpg"),
    Player(19, "سعود عبدالحميد", "الشباب", 27, 83, 24, 8, "/player19.jpg"),
    Player(20, "عبدالله الخيبري", "الهلال", 28, 85, 26, 10, "/player20.jpg")
  ]

  /** Twenty records whose ids run 1..20 in list order. */
  lemma DirectoryIds()
    ensures |Directory| == 20
    ensures forall i :: 0 <= i < |Directory| ==> Directory[i].id == i + 1
    ensures IdsDistinct(Directory)
  {
  }

  /**
   * The ids of the records the main page features: five cases of
   * `DirectoryIds`, stated apart so the featured-list proof need not
   * instantiate its quantifier over the whole literal.
   */
  lemma DirectoryIdsAt()
    ensures Directory[0].id == 1 && Directory[13].id == 14 && Directory[2].id == 3
         && Directory[10].id == 11 && Directory[5].id == 6
  {
  }

  /** Names are pairwise distinct: the comparison chart keys its columns by name. */
  lemma DirectoryNames()
    ensures NamesDistinct(Directory)
  {
    NamesDistinctBelow(5);
    NamesDistinctBelow(10);
    NamesDistinctBelow(15);
    NamesDistinctBelow(20);
  }

  /** The records before index `n` have names unlike every later one. */
  lemma NamesDistinctBelow(n: nat)
    requires n in {5, 10, 15, 20}
    ensures forall i, j :: n - 5 <= i < n && i < j < |Directory| ==> Directory[i].name != Directory[j].name
  {
  }

  /** Every record is well formed; rates lie between 82 and 92. */
  lemma DirectoryWellFormed()
    ensures forall p :: p in Directory ==> WellFormed(p) && 82 <= p.successRate <= 92
  {
    FieldsBelow(5);
    FieldsBelow(10);
    FieldsBelow(15);
    FieldsBelow(20);
    InRangeMembers(Directory);
  }

  /** The records before index `n`, five at a time, are well formed with rates in 82..92. */
  lemma FieldsBelow(n: nat)
    requires n in {5, 10, 15, 20}
    ensures forall i :: n - 5 <= i < n ==> WellFormed(Directory[i]) && 82 <= Directory[i].successRate <= 92
  {
  }

  /** What holds at every index holds for every member. */
  lemma InRangeMembers(ps: seq<Player>)
    requires forall i :: 0 <= i < |ps| ==> WellFormed(ps[i]) && 82 <= ps[i].successRate <= 92
    ensures forall p :: p in ps ==> WellFormed(p) && 82 <= p.successRate <= 92
  {
  }

  /**
   * The top rate, 92, is held by ids 1 and 14 only, and id 1 comes first.
   */
  lemma DirectoryTopRate()
    ensures forall p :: p in Directory ==> p.successRate <= 92
    ensures forall i :: 0 <= i < |Directory| && Directory[i].successRate == 92 <==> i == 0 || i == 13
    ensures Directory[0].id == 1 && Directory[13].id == 14
  {
    DirectoryRates();
    DirectoryWellFormed();
  }

  /** A record of the directory is determined by its id. */
  lemma DirectoryIdDetermines(a: Player, b: Player)
    requires a in Directory && b in Directory && a.id == b.id
    ensures a == b
  {
    DirectoryIds();
    var i :| 0 <= i < |Directory| && Directory[i] == a;
    var j :| 0 <= j < |Directory| && Directory[j] == b;
  }

  /** Distinct records of the directory have distinct names. */
  lemma DirectoryNameDetermines(a: Player, b: Player)
    requires a in Directory && b in Directory && a.name == b.name
    ensures a == b
  {
    DirectoryNames();
    var i :| 0 <= i < |Directory| && Directory[i] == a;
    var j :| 0 <= j < |Directory| && Directory[j] == b;
  }

  /** Each record's success rate, in list order. */
  lemma DirectoryRates()
    ensures |Directory| == 20
    ensures Directory[0].successRate == 92 && Directory[1].successRate == 88 && Directory[2].successRate == 90 && Directory[3].successRate == 85
         && Directory[4].successRate == 87 && Directory[5].successRate == 89 && Directory[6].successRate == 86 && Directory[7].successRate == 84
         && Directory[8].successRate == 82 && Directory[9].successRate == 83 && Directory[10].successRate == 90 && Directory[11].successRate == 88
         && Directory[12].successRate == 85 && Directory[13].successRate == 92 && Directory[14].successRate == 89 && Directory[15].successRate == 87
         && Directory[16].successRate == 86 && Directory[17].successRate == 84 && Directory[18].successRate == 83 && Directory[19].successRate == 85
  {
  }
}
