/**
 * The landing view's featured players (src/pages/MainPage.jsx): a copy of the
 * directory sorted by success rate, highest first, cut to its first five.
 * The comparator `b.successRate - a.successRate` with ECMAScript's stable
 * `Array.prototype.sort` is modelled by a stable insertion sort.
 */
module MainPage {
  import opened Players

  /** The argument of `.slice(0, 5)`. */
  const FeaturedCount: nat := 5

  /** Non-increasing success rate. */
  predicate SortedByRate(s: seq<Player>)
  {
    forall i, j :: 0 <= i < j < |s| ==> s[i].successRate >= s[j].successRate
  }

  /** No element occurs twice. */
  predicate NoRepeats(s: seq<Player>)
  {
    forall i, j :: 0 <= i < j < |s| ==> s[i] != s[j]
  }

  /** The players of `s` with success rate `v`, in their order in `s`. */
  function WithRate(s: seq<Player>, v: int): seq<Player>
  {
    if s == [] then []
    else (if s[0].successRate == v then [s[0]] else []) + WithRate(s[1..], v)
  }

  /**
   * Puts `x` in front of the first element of `t` that does not rate strictly
   * higher: `x` came earlier in the input than everything in `t`, so it stays
   * ahead of its ties.
   */
  function Insert(x: Player, t: seq<Player>): (r: seq<Player>)
    ensures |r| == |t| + 1
  {
    if t == [] || t[0].successRate <= x.successRate then [x] + t
    else [t[0]] + Insert(x, t[1..])
  }

  /** Insertion adds `x` and nothing else. */
  lemma {:induction false} InsertPermutes(x: Player, t: seq<Player>)
    ensures multiset(Insert(x, t)) == multiset(t) + multiset{x}
  {
    if t != [] && t[0].successRate > x.successRate {
      InsertPermutes(x, t[1..]);
      assert t == [t[0]] + t[1..];
    }
  }

  /** Inserting under a bound that every element respects keeps every element under it. */
  lemma {:induction false} InsertBelow(x: Player, t: seq<Player>, bound: int)
    requires x.successRate <= bound
    requires forall i :: 0 <= i < |t| ==> t[i].successRate <= bound
    ensures forall i :: 0 <= i < |Insert(x, t)| ==> Insert(x, t)[i].successRate <= bound
  {
    if t != [] && t[0].successRate > x.successRate {
      InsertBelow(x, t[1..], bound);
    }
  }

  /** Insertion keeps a sorted sequence sorted. */
  lemma {:induction false} InsertSorted(x: Player, t: seq<Player>)
    requires SortedByRate(t)
    ensures SortedByRate(Insert(x, t))
  {
    if t != [] && t[0].successRate > x.successRate {
      InsertSorted(x, t[1..]);
      InsertBelow(x, t[1..], t[0].successRate);
    }
  }

  /** `[...players].sort((a, b) => b.successRate - a.successRate)`. */
  function SortByRate(s: seq<Player>): (r: seq<Player>)
    ensures |r| == |s|
  {
    if s == [] then [] else Insert(s[0], SortByRate(s[1..]))
  }

  /** The sorted copy is a permutation of its input. */
  lemma {:induction false} SortPermutes(s: seq<Player>)
    ensures multiset(SortByRate(s)) == multiset(s)
  {
    if s != [] {
      SortPermutes(s[1..]);
      InsertPermutes(s[0], SortByRate(s[1..]));
      assert s == [s[0]] + s[1..];
    }
  }

  /** The sorted copy is ordered by success rate, highest first. */
  lemma {:induction false} SortSorts(s: seq<Player>)
    ensures SortedByRate(SortByRate(s))
  {
    if s != [] {
      SortSorts(s[1..]);
      InsertSorted(s[0], SortByRate(s[1..]));
    }
  }

  /** `featuredPlayers`: the sorted copy cut to its first five, or to all of it when shorter. */
  function Featured(ps: seq<Player>): (r: seq<Player>)
    ensures |r| == if |ps| < FeaturedCount then |ps| else FeaturedCount
  {
    var sorted := SortByRate(ps);
    sorted[..if |sorted| < FeaturedCount then |sorted| else FeaturedCount]
  }

  /** Inserting `x` adds it to its own rate class, at the front, and leaves the others alone. */
  lemma {:induction false} InsertWithRate(x: Player, t: seq<Player>, v: int)
    ensures WithRate(Insert(x, t), v)
         == if x.successRate == v then [x] + WithRate(t, v) else WithRate(t, v)
  {
    if t == [] || t[0].successRate <= x.successRate {
      assert ([x] + t)[1..] == t;
    } else {
      InsertWithRate(x, t[1..], v);
      assert ([t[0]] + Insert(x, t[1..]))[1..] == Insert(x, t[1..]);
    }
  }

  /** The sort is stable: players that tie keep their input order. */
  lemma {:induction false} SortIsStable(s: seq<Player>, v: int)
    ensures WithRate(SortByRate(s), v) == WithRate(s, v)
  {
    if s != [] {
      SortIsStable(s[1..], v);
      InsertWithRate(s[0], SortByRate(s[1..]), v);
    }
  }

  /** The featured players are ordered by success rate, highest first. */
  lemma FeaturedSorted(ps: seq<Player>)
    ensures SortedByRate(Featured(ps))
  {
    SortSorts(ps);
  }

  /** Without repeats, no player is counted twice. */
  lemma {:induction false} RepeatFreeCounts(s: seq<Player>)
    requires NoRepeats(s)
    ensures forall x :: multiset(s)[x] <= 1
  {
    if s != [] {
      var tail := s[1..];
      assert NoRepeats(tail) by {
        forall i, j | 0 <= i < j < |tail| ensures tail[i] != tail[j] {
          assert tail[i] == s[i + 1] && tail[j] == s[j + 1];
        }
      }
      RepeatFreeCounts(tail);
      assert s[0] !in tail by {
        forall j | 0 <= j < |tail| ensures tail[j] != s[0] {
          assert tail[j] == s[j + 1];
        }
      }
      assert multiset(s) == multiset{s[0]} + multiset(tail) by {
        assert s == [s[0]] + tail;
      }
    }
  }

  /** A player counted at most once occurs at one index at most. */
  lemma CountsRepeatFree(s: seq<Player>)
    requires forall x :: multiset(s)[x] <= 1
    ensures NoRepeats(s)
  {
    forall i, j | 0 <= i < j < |s| ensures s[i] != s[j] {
      assert s == s[..j] + s[j..];
      assert s[i] == s[..j][i];
      assert s[j] == s[j..][0];
      assert multiset(s)[s[j]] == multiset(s[..j])[s[j]] + multiset(s[j..])[s[j]];
    }
  }

  /** Every featured player is a player of the input, no more often than there. */
  lemma FeaturedFromInput(ps: seq<Player>)
    ensures multiset(Featured(ps)) <= multiset(ps)
    ensures forall p :: p in Featured(ps) ==> p in ps
  {
    var sorted := SortByRate(ps);
    var k := |Featured(ps)|;
    SortPermutes(ps);
    assert sorted == Featured(ps) + sorted[k..];
    assert multiset(sorted) == multiset(Featured(ps)) + multiset(sorted[k..]);
    forall p | p in Featured(ps) ensures p in ps {
      assert p in multiset(ps);
    }
  }

  /** A directory without repeated records yields featured players without repeats. */
  lemma FeaturedRepeatFree(ps: seq<Player>)
    requires NoRepeats(ps)
    ensures NoRepeats(Featured(ps))
  {
    FeaturedFromInput(ps);
    RepeatFreeCounts(ps);
    forall x ensures multiset(Featured(ps))[x] <= 1 {
      assert multiset(Featured(ps))[x] <= multiset(ps)[x];
    }
    CountsRepeatFree(Featured(ps));
  }

  /** A player left out of the featured list rates no higher than any featured one. */
  lemma FeaturedDominates(ps: seq<Player>)
    ensures forall q, p :: q in ps && q !in Featured(ps) && p in Featured(ps)
                           ==> q.successRate <= p.successRate
  {
    var sorted := SortByRate(ps);
    var k := |Featured(ps)|;
    SortPermutes(ps);
    SortSorts(ps);
    forall q, p | q in ps && q !in Featured(ps) && p in Featured(ps)
      ensures q.successRate <= p.successRate
    {
      assert q in multiset(sorted);
      var i :| 0 <= i < |sorted| && sorted[i] == q;
      var j :| 0 <= j < k && Featured(ps)[j] == p;
      assert sorted[j] == p;
    }
  }

  lemma {:induction false} WithRateAppend(a: seq<Player>, b: seq<Player>, v: int)
    ensures WithRate(a + b, v) == WithRate(a, v) + WithRate(b, v)
  {
    if a == [] {
      assert a + b == b;
    } else {
      var head := if a[0].successRate == v then [a[0]] else [];
      assert (a + b)[0] == a[0];
      assert (a + b)[1..] == a[1..] + b;
      WithRateAppend(a[1..], b, v);
      assert WithRate(a + b, v) == head + (WithRate(a[1..], v) + WithRate(b, v));
      assert head + (WithRate(a[1..], v) + WithRate(b, v)) == (head + WithRate(a[1..], v)) + WithRate(b, v);
    }
  }

  /**
   * Ties keep their input order among the featured players too: the featured
   * players of each rate are the first ones of that rate in the input.
   */
  lemma FeaturedStable(ps: seq<Player>, v: int)
    ensures WithRate(Featured(ps), v) <= WithRate(ps, v)
  {
    var sorted := SortByRate(ps);
    var k := |Featured(ps)|;
    assert sorted == Featured(ps) + sorted[k..];
    WithRateAppend(Featured(ps), sorted[k..], v);
    SortIsStable(ps, v);
  }

  /** The first `n` of an insertion depend only on the first `n` of the target. */
  lemma {:induction false} InsertPrefix(x: Player, t: seq<Player>, n: nat)
    requires n <= |t|
    ensures Insert(x, t)[..n] == Insert(x, t[..n])[..n]
  {
    if n > 0 {
      var head := t[..n];
      assert head[0] == t[0];
      if t[0].successRate <= x.successRate {
        assert Insert(x, head) == [x] + head;
        assert Insert(x, t) == [x] + t;
        assert ([x] + t)[..n] == [x] + t[..n - 1] == ([x] + head)[..n];
      } else {
        assert head[1..] == t[1..][..n - 1];
        InsertPrefix(x, t[1..], n - 1);
        assert Insert(x, head) == [t[0]] + Insert(x, head[1..]);
        assert Insert(x, t) == [t[0]] + Insert(x, t[1..]);
        assert ([t[0]] + Insert(x, t[1..]))[..n] == [t[0]] + Insert(x, t[1..])[..n - 1];
        assert ([t[0]] + Insert(x, head[1..]))[..n] == [t[0]] + Insert(x, head[1..])[..n - 1];
      }
    }
  }

  /** Splitting `t` after its head and after `k` elements line up. */
  lemma ConsSplit(t: seq<Player>, x: Player, k: nat)
    requires 1 <= k <= |t|
    ensures [t[0]] + (t[1..][..k - 1] + [x] + t[1..][k - 1..]) == t[..k] + [x] + t[k..]
  {
    assert t[..k] == [t[0]] + t[1..][..k - 1];
    assert t[k..] == t[1..][k - 1..];
  }

  /** Where `x` lands: after the `k` leading elements that rate strictly higher. */
  lemma {:induction false} InsertAt(x: Player, t: seq<Player>, k: nat)
    requires k <= |t|
    requires forall i :: 0 <= i < k ==> t[i].successRate > x.successRate
    requires k < |t| ==> t[k].successRate <= x.successRate
    ensures Insert(x, t) == t[..k] + [x] + t[k..]
  {
    if k == 0 {
      assert t[..0] + [x] + t[0..] == [x] + t;
    } else {
      var tail := t[1..];
      assert forall i :: 0 <= i < k - 1 ==> tail[i].successRate > x.successRate by {
        assert forall i :: 0 <= i < k - 1 ==> tail[i] == t[i + 1];
      }
      InsertAt(x, tail, k - 1);
      assert Insert(x, t) == [t[0]] + Insert(x, tail);
      ConsSplit(t, x, k);
    }
  }

  /** One step of the sort, on a suffix of `s`. */
  lemma SortCons(s: seq<Player>, k: nat)
    requires k < |s|
    ensures SortByRate(s[k..]) == Insert(s[k], SortByRate(s[k + 1..]))
  {
    assert s[k..][0] == s[k];
    assert s[k..][1..] == s[k + 1..];
  }

  lemma {:induction false} SortStep(s: seq<Player>, k: nat)
    requires k + FeaturedCount < |s|
    ensures SortByRate(s[k..])[..FeaturedCount]
         == Insert(s[k], SortByRate(s[k + 1..])[..FeaturedCount])[..FeaturedCount]
  {
    SortCons(s, k);
    InsertPrefix(s[k], SortByRate(s[k + 1..]), FeaturedCount);
  }

  /** How many of `a`..`e` rate strictly above `r`: where a player rated `r` lands among them. */
  function Slot(r: int, a: Player, b: Player, c: Player, d: Player, e: Player): (j: nat)
    ensures j <= FeaturedCount
  {
    if a.successRate <= r then 0
    else if b.successRate <= r then 1
    else if c.successRate <= r then 2
    else if d.successRate <= r then 3
    else if e.successRate <= r then 4
    else 5
  }

  /** The first five after inserting `x` in front of the `Slot`-th of `a`..`e`. */
  function Place(x: Player, a: Player, b: Player, c: Player, d: Player, e: Player): seq<Player>
  {
    match Slot(x.successRate, a, b, c, d, e)
    case 0 => [x, a, b, c, d]
    case 1 => [a, x, b, c, d]
    case 2 => [a, b, x, c, d]
    case 3 => [a, b, c, x, d]
    case 4 => [a, b, c, d, x]
    case _ => [a, b, c, d, e]
  }

  /** Inserting into five players, seen through the first five. */
  lemma InsertFive(x: Player, a: Player, b: Player, c: Player, d: Player, e: Player)
    ensures Insert(x, [a, b, c, d, e])[..FeaturedCount] == Place(x, a, b, c, d, e)
  {
    var t := [a, b, c, d, e];
    var j := Slot(x.successRate, a, b, c, d, e);
    InsertAt(x, t, j);
  }

  /** One step of the sort on a suffix of `s`, seen through the first five. */
  lemma TopStep(s: seq<Player>, k: nat, a: Player, b: Player, c: Player, d: Player, e: Player)
    requires k + FeaturedCount < |s|
    requires SortByRate(s[k + 1..])[..FeaturedCount] == [a, b, c, d, e]
    ensures SortByRate(s[k..])[..FeaturedCount] == Place(s[k], a, b, c, d, e)
  {
    SortStep(s, k);
    InsertFive(s[k], a, b, c, d, e);
  }

  lemma ShippedSortFrom17(D: seq<Player>)
    requires |D| == 20
    requires D[17].successRate == 84 && D[18].successRate == 83 && D[19].successRate == 85
    ensures SortByRate(D[17..]) == [D[19], D[17], D[18]]
  {
    assert D[20..] == [];
    SortCons(D, 19);
    InsertAt(D[19], [], 0);
    assert SortByRate(D[19..]) == [D[19]];
    SortCons(D, 18);
    InsertAt(D[18], [D[19]], 1);
    assert SortByRate(D[18..]) == [D[19], D[18]];
    SortCons(D, 17);
    InsertAt(D[17], [D[19], D[18]], 1);
  }

  lemma ShippedSortFrom15(D: seq<Player>)
    requires |D| == 20
    requires D[15].successRate == 87 && D[16].successRate == 86 && D[17].successRate == 84 && D[18].successRate == 83 && D[19].successRate == 85
    requires SortByRate(D[17..]) == [D[19], D[17], D[18]]
    ensures SortByRate(D[15..]) == [D[15], D[16], D[19], D[17], D[18]]
  {
    SortCons(D, 16);
    InsertAt(D[16], [D[19], D[17], D[18]], 0);
    assert SortByRate(D[16..]) == [D[16], D[19], D[17], D[18]];
    SortCons(D, 15);
    InsertAt(D[15], [D[16], D[19], D[17], D[18]], 0);
  }

  lemma ShippedSortFrom12(D: seq<Player>)
    requires |D| == 20
    requires D[12].successRate == 85 && D[13].successRate == 92 && D[14].successRate == 89 && D[15].successRate == 87 && D[16].successRate == 86 && D[17].successRate == 84 && D[18].successRate == 83 && D[19].successRate == 85
    requires SortByRate(D[15..]) == [D[15], D[16], D[19], D[17], D[18]]
    ensures SortByRate(D[12..])[..5] == [D[13], D[14], D[15], D[16], D[12]]
  {
    assert SortByRate(D[15..])[..5] == SortByRate(D[15..]);
    TopStep(D, 14, D[15], D[16], D[19], D[17], D[18]);
    assert SortByRate(D[14..])[..5] == [D[14], D[15], D[16], D[19], D[17]];
    TopStep(D, 13, D[14], D[15], D[16], D[19], D[17]);
    assert SortByRate(D[13..])[..5] == [D[13], D[14], D[15], D[16], D[19]];
    TopStep(D, 12, D[13], D[14], D[15], D[16], D[19]);
  }

  lemma ShippedSortFrom9(D: seq<Player>)
    requires |D| == 20
    requires D[9].successRate == 83 && D[10].successRate == 90 && D[11].successRate == 88 && D[12].successRate == 85 && D[13].successRate == 92 && D[14].successRate == 89 && D[15].successRate == 87 && D[16].successRate == 86
    requires SortByRate(D[12..])[..5] == [D[13], D[14], D[15], D[16], D[12]]
    ensures SortByRate(D[9..])[..5] == [D[13], D[10], D[14], D[11], D[15]]
  {
    TopStep(D, 11, D[13], D[14], D[15], D[16], D[12]);
    assert SortByRate(D[11..])[..5] == [D[13], D[14], D[11], D[15], D[16]];
    TopStep(D, 10, D[13], D[14], D[11], D[15], D[16]);
    assert SortByRate(D[10..])[..5] == [D[13], D[10], D[14], D[11], D[15]];
    TopStep(D, 9, D[13], D[10], D[14], D[11], D[15]);
  }

  lemma ShippedSortFrom6(D: seq<Player>)
    requires |D| == 20
    requires D[6].successRate == 86 && D[7].successRate == 84 && D[8].successRate == 82 && D[10].successRate == 90 && D[11].successRate == 88 && D[13].successRate == 92 && D[14].successRate == 89 && D[15].successRate == 87
    requires SortByRate(D[9..])[..5] == [D[13], D[10], D[14], D[11], D[15]]
    ensures SortByRate(D[6..])[..5] == [D[13], D[10], D[14], D[11], D[15]]
  {
    TopStep(D, 8, D[13], D[10], D[14], D[11], D[15]);
    assert SortByRate(D[8..])[..5] == [D[13], D[10], D[14], D[11], D[15]];
    TopStep(D, 7, D[13], D[10], D[14], D[11], D[15]);
    assert SortByRate(D[7..])[..5] == [D[13], D[10], D[14], D[11], D[15]];
    TopStep(D, 6, D[13], D[10], D[14], D[11], D[15]);
  }

  lemma ShippedSortFrom3(D: seq<Player>)
    requires |D| == 20
    requires D[3].successRate == 85 && D[4].successRate == 87 && D[5].successRate == 89 && D[10].successRate == 90 && D[11].successRate == 88 && D[13].successRate == 92 && D[14].successRate == 89 && D[15].successRate == 87
    requires SortByRate(D[6..])[..5] == [D[13], D[10], D[14], D[11], D[15]]
    ensures SortByRate(D[3..])[..5] == [D[13], D[10], D[5], D[14], D[11]]
  {
    TopStep(D, 5, D[13], D[10], D[14], D[11], D[15]);
    assert SortByRate(D[5..])[..5] == [D[13], D[10], D[5], D[14], D[11]];
    TopStep(D, 4, D[13], D[10], D[5], D[14], D[11]);
    assert SortByRate(D[4..])[..5] == [D[13], D[10], D[5], D[14], D[11]];
    TopStep(D, 3, D[13], D[10], D[5], D[14], D[11]);
  }

  lemma ShippedSortFrom0(D: seq<Player>)
    requires |D| == 20
    requires D[0].successRate == 92 && D[1].successRate == 88 && D[2].successRate == 90 && D[5].successRate == 89 && D[10].successRate == 90 && D[11].successRate == 88 && D[13].successRate == 92 && D[14].successRate == 89
    requires SortByRate(D[3..])[..5] == [D[13], D[10], D[5], D[14], D[11]]
    ensures SortByRate(D[0..])[..5] == [D[0], D[13], D[2], D[10], D[5]]
  {
    TopStep(D, 2, D[13], D[10], D[5], D[14], D[11]);
    assert SortByRate(D[2..])[..5] == [D[13], D[2], D[10], D[5], D[14]];
    TopStep(D, 1, D[13], D[2], D[10], D[5], D[14]);
    assert SortByRate(D[1..])[..5] == [D[13], D[2], D[10], D[5], D[14]];
    TopStep(D, 0, D[13], D[2], D[10], D[5], D[14]);
  }

  /** The sort's first five on any twenty records rated like the shipped ones. */
  lemma FeaturedOfShippedRates(D: seq<Player>)
    requires |D| == 20
    requires D[0].successRate == 92 && D[1].successRate == 88 && D[2].successRate == 90 && D[3].successRate == 85 && D[4].successRate == 87
    requires D[5].successRate == 89 && D[6].successRate == 86 && D[7].successRate == 84 && D[8].successRate == 82 && D[9].successRate == 83
    requires D[10].successRate == 90 && D[11].successRate == 88 && D[12].successRate == 85 && D[13].successRate == 92 && D[14].successRate == 89
    requires D[15].successRate == 87 && D[16].successRate == 86 && D[17].successRate == 84 && D[18].successRate == 83 && D[19].successRate == 85
    ensures Featured(D) == [D[0], D[13], D[2], D[10], D[5]]
  {
    ShippedSortFrom17(D);
    ShippedSortFrom15(D);
    ShippedSortFrom12(D);
    ShippedSortFrom9(D);
    ShippedSortFrom6(D);
    ShippedSortFrom3(D);
    ShippedSortFrom0(D);
    assert D[0..] == D;
  }

  /** The ids of a featured list laid out like the shipped one. */
  lemma FeaturedIdsOf(D: seq<Player>)
    requires |D| == 20
    requires Featured(D) == [D[0], D[13], D[2], D[10], D[5]]
    requires D[0].id == 1 && D[13].id == 14 && D[2].id == 3 && D[10].id == 11 && D[5].id == 6
    ensures |Featured(D)| == FeaturedCount
    ensures Featured(D)[0].id == 1 && Featured(D)[1].id == 14
         && Featured(D)[2].id == 3 && Featured(D)[3].id == 11
         && Featured(D)[4].id == 6
  {
  }

  /** On the shipped directory the sort's first five are the records at positions 0, 13, 2, 10, 5. */
  lemma ShippedFeaturedRecords()
    ensures Featured(Directory) == [Directory[0], Directory[13], Directory[2], Directory[10], Directory[5]]
  {
    DirectoryRates();
    FeaturedOfShippedRates(Directory);
  }

  /**
   * On the shipped directory the featured ids are 1, 14, 3, 11, 6: the two
   * players at 92 in list order, then the two at 90, then the first at 89.
   */
  lemma ShippedFeatured()
    ensures |Featured(Directory)| == FeaturedCount
    ensures Featured(Directory)[0].id == 1 && Featured(Directory)[1].id == 14
         && Featured(Directory)[2].id == 3 && Featured(Directory)[3].id == 11
         && Featured(Directory)[4].id == 6
  {
    ShippedFeaturedRecords();
    DirectoryIdsAt();
    FeaturedIdsOf(Directory);
  }
}
