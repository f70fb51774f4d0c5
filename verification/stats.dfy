/** `getHistoryStats`: totals, the rounded mean health score, and the five
    most scanned dishes with their counts. */
module HistoryStats {
  import opened History
  import opened Rounding

  /** How many entries `favoriteFoods` keeps. */
  const FavoriteLimit: nat := 5

  datatype FoodCount = FoodCount(name: string, count: nat)

  datatype Stats = Stats(
    totalScans: nat,
    totalCalories: int,
    averageHealthScore: int,
    mostScannedFood: string,
    favoriteFoods: seq<FoodCount>)

  const EmptyStats: Stats := Stats(0, 0, 0, "", [])

  /** The dish names of `h`, in history order. */
  function FoodNames(h: seq<HistoryItem>): (names: seq<string>)
    ensures |names| == |h|
    ensures forall i :: 0 <= i < |h| ==> names[i] == h[i].foodName
  {
    if |h| == 0 then [] else [h[0].foodName] + FoodNames(h[1..])
  }

  /** The names in a frequency table, in table order. */
  function Names(t: seq<FoodCount>): (names: seq<string>)
    ensures |names| == |t|
    ensures forall i :: 0 <= i < |t| ==> names[i] == t[i].name
  {
    if |t| == 0 then [] else [t[0].name] + Names(t[1..])
  }

  /** The calorie total, summed from the front. */
  function SumCalories(h: seq<HistoryItem>): int {
    if |h| == 0 then 0 else h[0].nutritionInfo.calories + SumCalories(h[1..])
  }

  /** The health-score total, summed from the front. */
  function SumHealthScores(h: seq<HistoryItem>): int {
    if |h| == 0 then 0 else h[0].healthScore + SumHealthScores(h[1..])
  }

  /** `h.reduce((sum, item) => sum + item.nutritionInfo.calories, acc)`:
      the accumulator threaded left to right, as JavaScript evaluates it. */
  function ReduceCalories(acc: int, h: seq<HistoryItem>): int
    decreases |h|
  {
    if |h| == 0 then acc else ReduceCalories(acc + h[0].nutritionInfo.calories, h[1..])
  }

  /** `h.reduce((sum, item) => sum + item.healthScore, acc)`. */
  function ReduceHealthScores(acc: int, h: seq<HistoryItem>): int
    decreases |h|
  {
    if |h| == 0 then acc else ReduceHealthScores(acc + h[0].healthScore, h[1..])
  }

  /** The left-to-right `reduce` from any start adds exactly the calorie
      total; from 0 it is the total. */
  lemma {:induction false} ReduceCaloriesIsSum(acc: int, h: seq<HistoryItem>)
    ensures ReduceCalories(acc, h) == acc + SumCalories(h)
    decreases |h|
  {
    if |h| > 0 {
      ReduceCaloriesIsSum(acc + h[0].nutritionInfo.calories, h[1..]);
    }
  }

  /** The same for health scores. */
  lemma {:induction false} ReduceHealthScoresIsSum(acc: int, h: seq<HistoryItem>)
    ensures ReduceHealthScores(acc, h) == acc + SumHealthScores(h)
    decreases |h|
  {
    if |h| > 0 {
      ReduceHealthScoresIsSum(acc + h[0].healthScore, h[1..]);
    }
  }

  /** The position where `n` first occurs in `names`. */
  function FirstIndex(n: string, names: seq<string>): (k: nat)
    requires n in names
    ensures k < |names| && names[k] == n
    ensures forall j :: 0 <= j < k ==> names[j] != n
  {
    if names[0] == n then 0 else 1 + FirstIndex(n, names[1..])
  }

  /** A name met in a prefix was first met at the same place in the whole. */
  lemma FirstIndexPrefix(n: string, names: seq<string>, k: nat)
    requires k <= |names|
    requires n in names[..k]
    ensures FirstIndex(n, names) == FirstIndex(n, names[..k])
  {
    var a, b := FirstIndex(n, names), FirstIndex(n, names[..k]);
    assert names[b] == n;
    assert a <= b;
    assert names[..k][a] == n;
  }

  /** The tie-break order of `favoriteFoods`: more scans first, and among
      equal counts the name met first in the history first. */
  predicate Before(a: FoodCount, b: FoodCount, names: seq<string>)
    requires a.name in names && b.name in names
  {
    a.count > b.count
    || (a.count == b.count && FirstIndex(a.name, names) < FirstIndex(b.name, names))
  }

  /** `t` lists names of `names` in strictly decreasing `Before` order. */
  predicate Ranked(t: seq<FoodCount>, names: seq<string>) {
    && (forall i :: 0 <= i < |t| ==> t[i].name in names)
    && (forall i, j :: 0 <= i < j < |t| ==> Before(t[i], t[j], names))
  }

  /** Every entry names a dish of `names`, and every dish has an entry. */
  predicate CoversNames(t: seq<FoodCount>, names: seq<string>) {
    && (forall i :: 0 <= i < |t| ==> t[i].name in names)
    && (forall n :: n in names ==> n in Names(t))
  }

  /** Every entry holds the exact number of occurrences of its name. */
  predicate ExactCounts(t: seq<FoodCount>, names: seq<string>)
    requires forall i :: 0 <= i < |t| ==> t[i].name in names
  {
    forall i :: 0 <= i < |t| ==> t[i].count == multiset(names)[t[i].name]
  }

  /** Entries appear in order of first occurrence (hence once per name). */
  predicate FirstSeenOrder(t: seq<FoodCount>, names: seq<string>)
    requires forall i :: 0 <= i < |t| ==> t[i].name in names
  {
    forall i, j :: 0 <= i < j < |t| ==> FirstIndex(t[i].name, names) < FirstIndex(t[j].name, names)
  }

  /** `t` is the frequency table of `names` as the source's counting object
      holds it: one entry per distinct name, its exact number of
      occurrences, entries in order of first occurrence. */
  predicate TallyOf(t: seq<FoodCount>, names: seq<string>) {
    CoversNames(t, names) && ExactCounts(t, names) && FirstSeenOrder(t, names)
  }

  /** No name has two entries. */
  predicate DistinctNames(t: seq<FoodCount>) {
    forall i, j :: 0 <= i < j < |t| ==> t[i].name != t[j].name
  }

  /** `foodCounts[name] = (foodCounts[name] || 0) + 1`. */
  function Bump(t: seq<FoodCount>, n: string): (r: seq<FoodCount>)
    ensures |r| == |t| || |r| == |t| + 1
    ensures forall i :: 0 <= i < |t| ==> r[i].name == t[i].name
  {
    if |t| == 0 then [FoodCount(n, 1)]
    else if t[0].name == n then [t[0].(count := t[0].count + 1)] + t[1..]
    else [t[0]] + Bump(t[1..], n)
  }

  /** Counting `n` once more: its entry, if it has one, goes up by one and
      keeps its place; otherwise a new entry with count 1 goes at the end.
      No other entry changes. */
  lemma BumpSpec(t: seq<FoodCount>, n: string)
    requires DistinctNames(t)
    ensures |Bump(t, n)| == if n in Names(t) then |t| else |t| + 1
    ensures forall i :: 0 <= i < |t| ==>
              && Bump(t, n)[i].name == t[i].name
              && Bump(t, n)[i].count == t[i].count + (if t[i].name == n then 1 else 0)
    ensures n !in Names(t) ==> Bump(t, n)[|t|] == FoodCount(n, 1)
  {
    BumpUpdates(t, n);
    BumpAppends(t, n);
  }

  lemma {:induction false} BumpUpdates(t: seq<FoodCount>, n: string)
    requires DistinctNames(t)
    ensures |Bump(t, n)| >= |t|
    ensures forall i :: 0 <= i < |t| ==>
              && Bump(t, n)[i].name == t[i].name
              && Bump(t, n)[i].count == t[i].count + (if t[i].name == n then 1 else 0)
  {
    if |t| > 0 {
      var r := Bump(t, n);
      if t[0].name == n {
        assert forall i :: 1 <= i < |t| ==> r[i] == t[i] && t[i].name != n;
      } else {
        var rest := Bump(t[1..], n);
        BumpUpdates(t[1..], n);
        forall i | 1 <= i < |t|
          ensures r[i].name == t[i].name
          ensures r[i].count == t[i].count + (if t[i].name == n then 1 else 0)
        {
          assert r[i] == rest[i - 1] && t[i] == t[1..][i - 1];
        }
      }
    }
  }

  lemma {:induction false} BumpAppends(t: seq<FoodCount>, n: string)
    ensures |Bump(t, n)| == if n in Names(t) then |t| else |t| + 1
    ensures n !in Names(t) ==> Bump(t, n)[|t|] == FoodCount(n, 1)
  {
    if |t| > 0 {
      assert Names(t) == [t[0].name] + Names(t[1..]);
      if t[0].name != n {
        BumpAppends(t[1..], n);
      }
    }
  }

  /** The frequency table built by one pass over `names`. */
  function Tally(names: seq<string>): (t: seq<FoodCount>)
    ensures TallyOf(t, names)
  {
    if |names| == 0 then []
    else
      var t0 := Tally(names[..|names| - 1]);
      TallyStep(t0, names);
      Bump(t0, names[|names| - 1])
  }

  /** A first-seen-ordered table has one entry per name. */
  lemma FirstSeenDistinct(t: seq<FoodCount>, names: seq<string>)
    requires forall i :: 0 <= i < |t| ==> t[i].name in names
    requires FirstSeenOrder(t, names)
    ensures DistinctNames(t)
  {
  }

  /** Counting one more name keeps the table exact. */
  lemma TallyStep(t: seq<FoodCount>, names: seq<string>)
    requires |names| > 0
    requires TallyOf(t, names[..|names| - 1])
    ensures DistinctNames(t)
    ensures TallyOf(Bump(t, names[|names| - 1]), names)
  {
    var init, last := names[..|names| - 1], names[|names| - 1];
    assert names == init + [last];
    FirstSeenDistinct(t, init);
    BumpSpec(t, last);
    StepCovers(t, init, last);
    StepCounts(t, init, last);
    StepOrder(t, init, last);
  }

  lemma StepCovers(t: seq<FoodCount>, init: seq<string>, last: string)
    requires CoversNames(t, init) && DistinctNames(t)
    ensures CoversNames(Bump(t, last), init + [last])
  {
    BumpSpec(t, last);
    var r := Bump(t, last);
    forall i | 0 <= i < |r|
      ensures r[i].name in init + [last]
    {
      if i < |t| {
        assert r[i].name == t[i].name && t[i].name in init;
      } else {
        assert last !in Names(t) && i == |t|;
        assert r[|t|] == FoodCount(last, 1);
      }
    }
    forall n | n in init + [last]
      ensures n in Names(r)
    {
      StepCoversName(t, init, last, n);
    }
  }

  lemma StepCoversName(t: seq<FoodCount>, init: seq<string>, last: string, n: string)
    requires CoversNames(t, init) && DistinctNames(t)
    requires n in init + [last]
    ensures n in Names(Bump(t, last))
  {
    BumpSpec(t, last);
    var r := Bump(t, last);
    if n in Names(t) {
      var i :| 0 <= i < |t| && Names(t)[i] == n;
      assert Names(r)[i] == r[i].name == t[i].name;
    } else {
      assert n !in init;
      assert n == last;
      assert Names(r)[|t|] == r[|t|].name;
    }
  }

  lemma StepCounts(t: seq<FoodCount>, init: seq<string>, last: string)
    requires CoversNames(t, init) && ExactCounts(t, init) && DistinctNames(t)
    requires CoversNames(Bump(t, last), init + [last])
    ensures ExactCounts(Bump(t, last), init + [last])
  {
    BumpSpec(t, last);
    var r := Bump(t, last);
    forall i | 0 <= i < |r|
      ensures r[i].count == multiset(init + [last])[r[i].name]
    {
      CountAppend(init, last, r[i].name);
      if i < |t| {
        assert r[i].name == t[i].name;
        assert t[i].count == multiset(init)[t[i].name];
      } else {
        assert last !in Names(t) && i == |t|;
        assert r[|t|] == FoodCount(last, 1);
        assert last !in init;
      }
    }
  }

  /** One more occurrence of `last` adds one to its count and nothing else. */
  lemma CountAppend(init: seq<string>, last: string, n: string)
    ensures multiset(init + [last])[n] == multiset(init)[n] + (if n == last then 1 else 0)
  {
    assert multiset(init + [last]) == multiset(init) + multiset{last};
  }

  lemma StepOrder(t: seq<FoodCount>, init: seq<string>, last: string)
    requires CoversNames(t, init) && FirstSeenOrder(t, init) && DistinctNames(t)
    requires CoversNames(Bump(t, last), init + [last])
    ensures FirstSeenOrder(Bump(t, last), init + [last])
  {
    BumpSpec(t, last);
    var names := init + [last];
    var r := Bump(t, last);
    forall i, j | 0 <= i < j < |r|
      ensures FirstIndex(r[i].name, names) < FirstIndex(r[j].name, names)
    {
      StepRank(t, init, last, i);
      StepRank(t, init, last, j);
      if j < |t| {
        assert FirstIndex(t[i].name, init) < FirstIndex(t[j].name, init);
      }
    }
  }

  /** Where the `i`th entry of the bumped table was first met. */
  lemma StepRank(t: seq<FoodCount>, init: seq<string>, last: string, i: nat)
    requires CoversNames(t, init) && DistinctNames(t)
    requires CoversNames(Bump(t, last), init + [last])
    requires i < |Bump(t, last)|
    ensures i < |t| ==> FirstIndex(Bump(t, last)[i].name, init + [last]) == FirstIndex(t[i].name, init) < |init|
    ensures i >= |t| ==> FirstIndex(Bump(t, last)[i].name, init + [last]) == |init|
  {
    BumpSpec(t, last);
    var r := Bump(t, last);
    if i < |t| {
      assert r[i].name == t[i].name;
      RankInPrefix(t[i].name, init, last);
    } else {
      assert last !in Names(t) && i == |t|;
      RankOfNew(init, last);
      assert r[|t|] == FoodCount(last, 1);
    }
  }

  lemma RankInPrefix(n: string, init: seq<string>, last: string)
    requires n in init
    ensures FirstIndex(n, init + [last]) == FirstIndex(n, init) < |init|
  {
    assert (init + [last])[..|init|] == init;
    FirstIndexPrefix(n, init + [last], |init|);
  }

  lemma RankOfNew(init: seq<string>, last: string)
    requires last !in init
    ensures FirstIndex(last, init + [last]) == |init|
  {
  }

  /** Insert `x` after every entry with at least its count: the step of a
      stable sort by descending count. */
  function InsertByCount(x: FoodCount, s: seq<FoodCount>): (r: seq<FoodCount>)
    ensures multiset(r) == multiset(s) + multiset{x}
    ensures forall e :: e in r <==> e in s || e == x
    ensures |r| == |s| + 1
  {
    if |s| == 0 then [x]
    else if s[0].count >= x.count then
      assert s == [s[0]] + s[1..];
      [s[0]] + InsertByCount(x, s[1..])
    else [x] + s
  }

  /** `.sort((a, b) => b.count - a.count)`, which is stable: entries in
      descending count, equal counts in their original order. */
  function SortByCount(t: seq<FoodCount>): (r: seq<FoodCount>)
    ensures multiset(r) == multiset(t)
    ensures forall e :: e in r <==> e in t
  {
    if |t| == 0 then []
    else
      var k := |t| - 1;
      assert t == t[..k] + [t[k]];
      InsertByCount(t[k], SortByCount(t[..k]))
  }

  /** Inserting an entry met later than everything in a ranked list keeps it
      ranked. */
  lemma {:induction false} InsertKeepsRanked(x: FoodCount, s: seq<FoodCount>, names: seq<string>)
    requires x.name in names
    requires Ranked(s, names)
    requires forall i :: 0 <= i < |s| ==> FirstIndex(s[i].name, names) < FirstIndex(x.name, names)
    ensures Ranked(InsertByCount(x, s), names)
  {
    if |s| == 0 {
    } else if s[0].count >= x.count {
      var rest := InsertByCount(x, s[1..]);
      InsertKeepsRanked(x, s[1..], names);
      forall j | 0 <= j < |rest|
        ensures Before(s[0], rest[j], names)
      {
        assert rest[j] in s[1..] || rest[j] == x;
        if rest[j] != x {
          var m :| 0 <= m < |s[1..]| && s[1..][m] == rest[j];
          assert s[m + 1] == rest[j];
        }
      }
      ConsRanked(s[0], rest, names);
    } else {
      forall j | 0 <= j < |s|
        ensures Before(x, s[j], names)
      {
        if j > 0 {
          assert Before(s[0], s[j], names);
        }
      }
      ConsRanked(x, s, names);
    }
  }

  /** An entry ahead of every entry of a ranked list can go in front of it. */
  lemma ConsRanked(a: FoodCount, rest: seq<FoodCount>, names: seq<string>)
    requires a.name in names
    requires Ranked(rest, names)
    requires forall j :: 0 <= j < |rest| ==> Before(a, rest[j], names)
    ensures Ranked([a] + rest, names)
  {
    var r := [a] + rest;
    forall i, j | 0 <= i < j < |r|
      ensures Before(r[i], r[j], names)
    {
      if i > 0 {
        assert r[i] == rest[i - 1] && r[j] == rest[j - 1];
      }
    }
  }

  /** Sorting a first-occurrence-ordered table by count yields the `Before`
      order: the stability of the sort is what breaks ties by first
      occurrence. */
  lemma {:induction false} SortRanked(t: seq<FoodCount>, names: seq<string>)
    requires forall i :: 0 <= i < |t| ==> t[i].name in names
    requires forall i, j :: 0 <= i < j < |t| ==>
               FirstIndex(t[i].name, names) < FirstIndex(t[j].name, names)
    ensures Ranked(SortByCount(t), names)
  {
    if |t| > 0 {
      var k := |t| - 1;
      var init := t[..k];
      SortRanked(init, names);
      var s := SortByCount(init);
      forall i | 0 <= i < |s|
        ensures FirstIndex(s[i].name, names) < FirstIndex(t[k].name, names)
      {
        assert s[i] in init;
        var m :| 0 <= m < k && init[m] == s[i];
        assert t[m] == s[i];
      }
      InsertKeepsRanked(t[k], s, names);
    }
  }

  /** The frequency table of `names` in `Before` order: every distinct name
      once, with its exact count. */
  function RankedTally(names: seq<string>): (ranked: seq<FoodCount>)
    ensures Ranked(ranked, names)
    ensures forall i :: 0 <= i < |ranked| ==> ranked[i].count == multiset(names)[ranked[i].name]
    ensures forall n :: n in names ==> FoodCount(n, multiset(names)[n]) in ranked
  {
    var t := Tally(names);
    SortRanked(t, names);
    SortedEntriesExact(t, names);
    SortedEntriesComplete(t, names);
    SortByCount(t)
  }

  lemma SortedEntriesExact(t: seq<FoodCount>, names: seq<string>)
    requires TallyOf(t, names)
    ensures forall i :: 0 <= i < |SortByCount(t)| ==>
              SortByCount(t)[i].count == multiset(names)[SortByCount(t)[i].name]
  {
    var ranked := SortByCount(t);
    forall i | 0 <= i < |ranked|
      ensures ranked[i].count == multiset(names)[ranked[i].name]
    {
      assert ranked[i] in multiset(t);
      var m :| 0 <= m < |t| && t[m] == ranked[i];
    }
  }

  lemma SortedEntriesComplete(t: seq<FoodCount>, names: seq<string>)
    requires TallyOf(t, names)
    ensures forall n :: n in names ==> FoodCount(n, multiset(names)[n]) in SortByCount(t)
  {
    var ranked := SortByCount(t);
    forall n | n in names
      ensures FoodCount(n, multiset(names)[n]) in ranked
    {
      var m :| 0 <= m < |t| && Names(t)[m] == n;
      assert t[m] == FoodCount(n, multiset(names)[n]);
      assert t[m] in multiset(ranked);
    }
  }

  /** An entry of a ranked list that did not make the first `k` comes after
      all of them, and the list was longer than `k`. */
  lemma OmittedComesAfter(ranked: seq<FoodCount>, k: nat, names: seq<string>, e: FoodCount)
    requires Ranked(ranked, names)
    requires e in ranked
    requires forall i :: 0 <= i < k && i < |ranked| ==> ranked[i].name != e.name
    ensures k < |ranked|
    ensures forall i :: 0 <= i < k ==> Before(ranked[i], e, names)
  {
    var j :| 0 <= j < |ranked| && ranked[j] == e;
    assert k <= j;
  }

  /** `favoriteFoods`: the first `FavoriteLimit` entries of the ranked
      frequency table. The contract says these are the most scanned names
      with their exact counts, in `Before` order, and that any name left out
      ranks after every name kept. */
  function FavoriteFoods(names: seq<string>): (fav: seq<FoodCount>)
    ensures |fav| <= FavoriteLimit
    ensures Ranked(fav, names)
    ensures forall i :: 0 <= i < |fav| ==> fav[i].count == multiset(names)[fav[i].name]
    ensures forall n :: n in names && n !in Names(fav) ==>
              && |fav| == FavoriteLimit
              && forall i :: 0 <= i < |fav| ==> Before(fav[i], FoodCount(n, multiset(names)[n]), names)
  {
    var ranked := RankedTally(names);
    var fav := if |ranked| <= FavoriteLimit then ranked else ranked[..FavoriteLimit];
    PrefixKeepsRank(ranked, fav, names);
    TopKeepsAhead(ranked, fav, names);
    fav
  }

  /** A prefix of the ranked table is itself ranked, with exact counts. */
  lemma PrefixKeepsRank(ranked: seq<FoodCount>, fav: seq<FoodCount>, names: seq<string>)
    requires Ranked(ranked, names)
    requires forall i :: 0 <= i < |ranked| ==> ranked[i].count == multiset(names)[ranked[i].name]
    requires fav <= ranked
    ensures Ranked(fav, names)
    ensures forall i :: 0 <= i < |fav| ==> fav[i].count == multiset(names)[fav[i].name]
  {
    assert forall i :: 0 <= i < |fav| ==> fav[i] == ranked[i];
  }

  /** The kept prefix of the ranked table is ahead of every name left out. */
  lemma TopKeepsAhead(ranked: seq<FoodCount>, fav: seq<FoodCount>, names: seq<string>)
    requires Ranked(ranked, names)
    requires forall n :: n in names ==> FoodCount(n, multiset(names)[n]) in ranked
    requires fav == if |ranked| <= FavoriteLimit then ranked else ranked[..FavoriteLimit]
    ensures forall n :: n in names && n !in Names(fav) ==>
              && |fav| == FavoriteLimit
              && forall i :: 0 <= i < |fav| ==> Before(fav[i], FoodCount(n, multiset(names)[n]), names)
  {
    forall n | n in names && n !in Names(fav)
      ensures |fav| == FavoriteLimit
      ensures forall i :: 0 <= i < |fav| ==> Before(fav[i], FoodCount(n, multiset(names)[n]), names)
    {
      OmittedName(ranked, fav, names, n);
    }
  }

  lemma OmittedName(ranked: seq<FoodCount>, fav: seq<FoodCount>, names: seq<string>, n: string)
    requires Ranked(ranked, names)
    requires n in names && FoodCount(n, multiset(names)[n]) in ranked
    requires fav == if |ranked| <= FavoriteLimit then ranked else ranked[..FavoriteLimit]
    requires n !in Names(fav)
    ensures |fav| == FavoriteLimit
    ensures forall i :: 0 <= i < |fav| ==> Before(fav[i], FoodCount(n, multiset(names)[n]), names)
  {
    var e := FoodCount(n, multiset(names)[n]);
    forall i | 0 <= i < FavoriteLimit && i < |ranked|
      ensures ranked[i].name != n
    {
      assert ranked[i] == fav[i] && Names(fav)[i] == fav[i].name;
    }
    OmittedComesAfter(ranked, FavoriteLimit, names, e);
    assert forall i :: 0 <= i < |fav| ==> fav[i] == ranked[i];
  }

  /** The favourites name each dish once, and their counts never increase
      down the list. */
  lemma FavoritesShape(names: seq<string>)
    ensures DistinctNames(FavoriteFoods(names))
    ensures forall i, j :: 0 <= i < j < |FavoriteFoods(names)| ==>
              FavoriteFoods(names)[i].count >= FavoriteFoods(names)[j].count
  {
    var fav := FavoriteFoods(names);
    forall i, j | 0 <= i < j < |fav|
      ensures fav[i].name != fav[j].name && fav[i].count >= fav[j].count
    {
      assert Before(fav[i], fav[j], names);
    }
  }

  /** `Math.round` of the mean health score: within one half of the exact
      mean, halves rounding up. */
  function AverageHealthScore(h: seq<HistoryItem>): (avg: int)
    requires |h| > 0
    ensures |h| * (2 * avg - 1) <= 2 * SumHealthScores(h) < |h| * (2 * avg + 1)
  {
    RoundDiv(SumHealthScores(h), |h|)
  }

  /** `getHistoryStats` on a history that has been read. */
  function ComputeStats(h: seq<HistoryItem>): (st: Stats)
    ensures |h| == 0 ==> st == EmptyStats
    ensures |h| > 0 ==>
      && st.totalScans == |h|
      && st.totalCalories == SumCalories(h)
      && st.averageHealthScore == AverageHealthScore(h)
      && st.favoriteFoods == FavoriteFoods(FoodNames(h))
      && |st.favoriteFoods| > 0
      && st.mostScannedFood == st.favoriteFoods[0].name
  {
    if |h| == 0 then EmptyStats
    else
      var names := FoodNames(h);
      var fav := FavoriteFoods(names);
      assert names[0] in names;
      var most := if |fav| > 0 then fav[0].name else "";
      Stats(|h|, SumCalories(h), AverageHealthScore(h), most, fav)
  }

  /** `getHistoryStats`: the statistics of whatever `getHistory` reads. */
  function GetHistoryStats(s: Stored): (st: Stats)
    ensures !s.Present? ==> st == EmptyStats
    ensures st.totalScans == |GetHistory(s)|
  {
    ComputeStats(GetHistory(s))
  }

  /** The most scanned dish is scanned at least as often as any other. */
  lemma MostScannedIsMode(h: seq<HistoryItem>, n: string)
    requires n in FoodNames(h)
    ensures ComputeStats(h).mostScannedFood in FoodNames(h)
    ensures multiset(FoodNames(h))[n] <= multiset(FoodNames(h))[ComputeStats(h).mostScannedFood]
  {
    var names := FoodNames(h);
    var fav := ComputeStats(h).favoriteFoods;
    if n !in Names(fav) {
      assert Before(fav[0], FoodCount(n, multiset(names)[n]), names);
    } else {
      var i :| 0 <= i < |fav| && Names(fav)[i] == n;
      if i > 0 {
        assert Before(fav[0], fav[i], names);
      }
    }
  }

  /** After a clear, the statistics are all zero. */
  lemma StatsAfterClear(s: Stored)
    ensures GetHistoryStats(ClearHistory(s, true).value) == EmptyStats
  {
  }

  /** A save below the cap adds one scan and the new record's calories. */
  lemma StatsAfterSave(s: Stored, d: ScanDetails, idMillis: nat, stampMillis: int, date: string)
    requires |GetHistory(s)| < MaxHistoryItems
    ensures var st, st' := GetHistoryStats(s),
                           GetHistoryStats(SaveHistoryItem(s, d, idMillis, stampMillis, date, true).value);
            && st'.totalScans == st.totalScans + 1
            && st'.totalCalories == st.totalCalories + d.nutritionInfo.calories
  {
    var h := GetHistory(s);
    var h' := GetHistory(SaveHistoryItem(s, d, idMillis, stampMillis, date, true).value);
    assert h'[1..] == h;
    assert h'[0].Details() == d;
    assert SumCalories(h') == h'[0].nutritionInfo.calories + SumCalories(h);
  }

  /** A history whose dish names are two "pho" and one "banh_mi", in any
      order, has "pho" as its most scanned dish, listed first with count 2. */
  lemma ModeOfThreeScans(h: seq<HistoryItem>)
    requires multiset(FoodNames(h)) == multiset{"pho", "pho", "banh_mi"}
    ensures ComputeStats(h).mostScannedFood == "pho"
    ensures ComputeStats(h).favoriteFoods[0] == FoodCount("pho", 2)
  {
    var names := FoodNames(h);
    assert "pho" in multiset(names);
    MostScannedIsMode(h, "pho");
    var most := ComputeStats(h).mostScannedFood;
    assert most in multiset(names);
    assert most == "pho";
  }

  /** Health scores 80, 60 and 100 average to 80. */
  lemma AverageOfThreeScores(h: seq<HistoryItem>)
    requires |h| == 3
    requires h[0].healthScore == 80 && h[1].healthScore == 60 && h[2].healthScore == 100
    ensures ComputeStats(h).averageHealthScore == 80
  {
    assert h[1..][1..] == h[2..] && h[2..][1..] == [];
    assert SumHealthScores(h[2..]) == 100;
    assert SumHealthScores(h[1..]) == 160;
    RoundDivUnique(240, 3, 80);
  }
}
