/** The local scan-history store: a newest-first list of scan records kept
    under one storage key, capped at `MaxHistoryItems`. Storage, the clock
    and the date formatter are outside the model; their results arrive as
    parameters (`Stored`, `idMillis`/`stampMillis`, `date`, `writeOk`). */
module History {
  import opened Wrappers
  import opened Text
  import opened Seqs

  /** Upper bound on the number of stored records. */
  const MaxHistoryItems: nat := 100

  const SaveError: string := "Không thể lưu lịch sử"
  const DeleteError: string := "Không thể xóa item lịch sử"
  const ClearError: string := "Không thể xóa lịch sử"

  datatype NutritionInfo = NutritionInfo(
    calories: int,
    protein: int,
    carbs: int,
    fat: int,
    fiber: Option<int>,
    sodium: Option<int>,
    servingSize: Option<string>,
    description: Option<string>)

  /** The user's daily targets, when a profile existed at save time. */
  datatype UserMetrics = UserMetrics(
    dailyCaloriesTarget: int,
    dailyProteinTarget: int,
    dailyCarbsTarget: int,
    dailyFatTarget: int)

  datatype Analysis = Analysis(bmiImpact: string, nutritionBalance: string, mealTiming: string)

  /** What the caller hands to `SaveHistoryItem`: a record without the
      `id`, `timestamp` and `date` the store assigns. */
  datatype ScanDetails = ScanDetails(
    foodName: string,
    confidence: real,
    nutritionInfo: NutritionInfo,
    userMetrics: Option<UserMetrics>,
    recommendation: string,
    healthScore: int,
    imageUri: Option<string>,
    analysis: Option<Analysis>)

  /** One stored scan. */
  datatype HistoryItem = HistoryItem(
    id: string,
    timestamp: int,
    date: string,
    foodName: string,
    confidence: real,
    nutritionInfo: NutritionInfo,
    userMetrics: Option<UserMetrics>,
    recommendation: string,
    healthScore: int,
    imageUri: Option<string>,
    analysis: Option<Analysis>)
  {
    /** The caller-supplied part of the record. */
    function Details(): ScanDetails {
      ScanDetails(foodName, confidence, nutritionInfo, userMetrics, recommendation,
                  healthScore, imageUri, analysis)
    }
  }

  /** What the storage key holds: nothing, something that cannot be read or
      parsed, or a well-formed list of records (newest first). */
  datatype Stored = Absent | Corrupt | Present(items: seq<HistoryItem>)

  /** `getHistory`: never fails. A missing key and an unreadable value both
      read as the empty history; a well-formed value reads back verbatim. */
  function GetHistory(s: Stored): (h: seq<HistoryItem>)
    ensures s.Present? ==> h == s.items
    ensures !s.Present? ==> h == []
  {
    match s
    case Present(items) => items
    case _ => []
  }

  /** The record `saveHistoryItem` builds: the caller's fields, the id as the
      decimal text of one clock reading, the timestamp from another reading,
      and the formatted date. */
  function Stamp(d: ScanDetails, idMillis: nat, stampMillis: int, date: string): (item: HistoryItem)
    ensures item.Details() == d
    ensures item.id == DecimalString(idMillis)
    ensures ParseDecimal(item.id) == idMillis
    ensures item.timestamp == stampMillis && item.date == date
  {
    ParseDecimalString(idMillis);
    HistoryItem(DecimalString(idMillis), stampMillis, date, d.foodName, d.confidence,
                d.nutritionInfo, d.userMetrics, d.recommendation, d.healthScore,
                d.imageUri, d.analysis)
  }

  /** Put `item` in front of `h` and cut the list back to the cap, dropping
      the oldest records from the tail. */
  function PushCapped(item: HistoryItem, h: seq<HistoryItem>): (r: seq<HistoryItem>)
    ensures |r| == if |h| + 1 <= MaxHistoryItems then |h| + 1 else MaxHistoryItems
    ensures r[0] == item
    ensures forall i :: 1 <= i < |r| ==> r[i] == h[i - 1]
  {
    var updated := [item] + h;
    if |updated| > MaxHistoryItems then updated[..MaxHistoryItems] else updated
  }

  /** `saveHistoryItem`: read the history (errors read as empty), prepend the
      new record, cap, and write the whole list back. A failed write throws
      and leaves storage as it was. */
  function SaveHistoryItem(s: Stored, d: ScanDetails, idMillis: nat, stampMillis: int,
                           date: string, writeOk: bool): (r: Result<Stored, string>)
    ensures !writeOk ==> r == Failure(SaveError)
    ensures writeOk ==> r.Success? && r.value.Present?
    ensures writeOk ==> var h, h' := GetHistory(s), r.value.items;
      && |h'| == (if |h| < MaxHistoryItems then |h| + 1 else MaxHistoryItems)
      && h'[0].Details() == d
      && h'[0].id == DecimalString(idMillis)
      && h'[0].timestamp == stampMillis
      && h'[0].date == date
      && h'[1..] == h[..|h'| - 1]
  {
    if !writeOk then Failure(SaveError)
    else
      var h := GetHistory(s);
      var h' := PushCapped(Stamp(d, idMillis, stampMillis, date), h);
      assert h'[1..] == h[..|h'| - 1];
      Success(Present(h'))
  }

  /** Reads swallow errors, so saving over an unreadable value starts again
      from the empty history and stores the new record alone. */
  lemma SaveOnCorrupt(d: ScanDetails, idMillis: nat, stampMillis: int, date: string)
    ensures SaveHistoryItem(Corrupt, d, idMillis, stampMillis, date, true)
         == Success(Present([Stamp(d, idMillis, stampMillis, date)]))
  {
    var item := Stamp(d, idMillis, stampMillis, date);
    assert [item] + [] == [item];
  }

  /** After any save the stored history respects the cap. */
  lemma SaveRespectsCap(s: Stored, d: ScanDetails, idMillis: nat, stampMillis: int, date: string)
    ensures |GetHistory(SaveHistoryItem(s, d, idMillis, stampMillis, date, true).value)| <= MaxHistoryItems
  {
  }

  /** Ids are only as distinct as the clock readings: two saves in the same
      millisecond give the two newest records the same id. */
  lemma SameMillisecondCollides(s: Stored, d1: ScanDetails, d2: ScanDetails, idMillis: nat,
                                t1: int, t2: int, date1: string, date2: string)
    ensures var s1 := SaveHistoryItem(s, d1, idMillis, t1, date1, true).value;
            var h := GetHistory(SaveHistoryItem(s1, d2, idMillis, t2, date2, true).value);
            |h| >= 2 && h[0].id == h[1].id
  {
  }

  /** Ids in `h` are pairwise different. */
  predicate UniqueIds(h: seq<HistoryItem>) {
    forall i, j :: 0 <= i < j < |h| ==> h[i].id != h[j].id
  }

  /** A save keeps ids unique when its clock reading differs from the reading
      behind every id already stored. */
  lemma SaveKeepsIdsUnique(s: Stored, d: ScanDetails, idMillis: nat, stampMillis: int, date: string)
    requires UniqueIds(GetHistory(s))
    requires forall i :: 0 <= i < |GetHistory(s)| ==> GetHistory(s)[i].id != DecimalString(idMillis)
    ensures UniqueIds(GetHistory(SaveHistoryItem(s, d, idMillis, stampMillis, date, true).value))
  {
    var h := GetHistory(s);
    var h' := GetHistory(SaveHistoryItem(s, d, idMillis, stampMillis, date, true).value);
    forall i, j | 0 <= i < j < |h'|
      ensures h'[i].id != h'[j].id
    {
      assert h'[j] == h[j - 1];
      if i > 0 {
        assert h'[i] == h[i - 1];
      }
    }
  }

  /** Distinct clock readings give distinct ids. */
  lemma DistinctReadingsDistinctIds(d1: ScanDetails, d2: ScanDetails, a: nat, b: nat,
                                    t1: int, t2: int, date1: string, date2: string)
    requires a != b
    ensures Stamp(d1, a, t1, date1).id != Stamp(d2, b, t2, date2).id
  {
    if DecimalString(a) == DecimalString(b) {
      DecimalStringInjective(a, b);
    }
  }

  /** `items` reversed: the newest-first order of records saved one by one. */
  function Reverse<T>(items: seq<T>): (r: seq<T>)
    ensures |r| == |items|
    ensures forall i :: 0 <= i < |items| ==> r[i] == items[|items| - 1 - i]
  {
    if |items| == 0 then [] else [items[|items| - 1]] + Reverse(items[..|items| - 1])
  }

  /** Saving the already-stamped records `items` one after another, oldest first. */
  function PushAll(h: seq<HistoryItem>, items: seq<HistoryItem>): seq<HistoryItem>
  {
    if |items| == 0 then h else PushCapped(items[|items| - 1], PushAll(h, items[..|items| - 1]))
  }

  function Min(a: int, b: int): int {
    if a <= b then a else b
  }

  /** Order and cap over a run of saves: the history is the newest records
      first, followed by the earlier history, cut to the first 100. */
  lemma {:induction false} PushAllNewestFirst(h: seq<HistoryItem>, items: seq<HistoryItem>)
    requires |h| <= MaxHistoryItems
    ensures PushAll(h, items) == (Reverse(items) + h)[..Min(|items| + |h|, MaxHistoryItems)]
  {
    if |items| > 0 {
      var init, last := items[..|items| - 1], items[|items| - 1];
      PushAllNewestFirst(h, init);
      var before := PushAll(h, init);
      var all := Reverse(items) + h;
      var n := Min(|items| + |h|, MaxHistoryItems);
      assert all == [last] + (Reverse(init) + h);
      var after := PushAll(h, items);
      assert |after| == n;
      forall i | 0 <= i < n
        ensures after[i] == all[..n][i]
      {
        if i > 0 {
          assert after[i] == before[i - 1];
        }
      }
    }
  }

  /** Starting from an empty store, up to 100 saves read back in exact
      reverse order of saving, and any longer run keeps exactly the 100 most
      recent records, newest first. */
  lemma SavesFromEmpty(items: seq<HistoryItem>)
    ensures |items| <= MaxHistoryItems ==> PushAll([], items) == Reverse(items)
    ensures |items| > MaxHistoryItems ==>
      && |PushAll([], items)| == MaxHistoryItems
      && PushAll([], items) == Reverse(items[|items| - MaxHistoryItems..])
  {
    PushAllNewestFirst([], items);
    assert Reverse(items) + [] == Reverse(items);
    if |items| > MaxHistoryItems {
      var tail := items[|items| - MaxHistoryItems..];
      assert Reverse(items)[..MaxHistoryItems] == Reverse(tail);
    }
  }

  /** `deleteHistoryItem`: keep every record whose id differs, in order, and
      write the result back. */
  function DeleteHistoryItem(s: Stored, id: string, writeOk: bool): (r: Result<Stored, string>)
    ensures !writeOk ==> r == Failure(DeleteError)
    ensures writeOk ==> r.Success? && r.value.Present?
    ensures writeOk ==> var h, h' := GetHistory(s), r.value.items;
      && Subseq(h', h)
      && (forall i :: 0 <= i < |h'| ==> h'[i].id != id)
      && (forall x: HistoryItem :: x.id != id ==> multiset(h')[x] == multiset(h)[x])
  {
    if !writeOk then Failure(DeleteError)
    else Success(Present(Filter(GetHistory(s), (x: HistoryItem) => x.id != id)))
  }

  /** Deleting an id that is not stored rewrites the same history. */
  lemma DeleteAbsentIsNoop(s: Stored, id: string)
    requires forall i :: 0 <= i < |GetHistory(s)| ==> GetHistory(s)[i].id != id
    ensures DeleteHistoryItem(s, id, true) == Success(Present(GetHistory(s)))
  {
    FilterAllPass(GetHistory(s), (x: HistoryItem) => x.id != id);
  }

  /** Deleting the same id twice leaves what deleting it once left. */
  lemma DeleteIdempotent(s: Stored, id: string)
    ensures var once := DeleteHistoryItem(s, id, true).value;
            DeleteHistoryItem(once, id, true).value == once
  {
    FilterIdempotent(GetHistory(s), (x: HistoryItem) => x.id != id);
  }

  /** Below the cap, deleting the id a save has just assigned undoes the
      save, provided no older record carries that id. */
  lemma DeleteUndoesSave(s: Stored, d: ScanDetails, idMillis: nat, stampMillis: int, date: string)
    requires |GetHistory(s)| < MaxHistoryItems
    requires forall i :: 0 <= i < |GetHistory(s)| ==> GetHistory(s)[i].id != DecimalString(idMillis)
    ensures var saved := SaveHistoryItem(s, d, idMillis, stampMillis, date, true).value;
            DeleteHistoryItem(saved, DecimalString(idMillis), true) == Success(Present(GetHistory(s)))
  {
    var h := GetHistory(s);
    var h' := GetHistory(SaveHistoryItem(s, d, idMillis, stampMillis, date, true).value);
    assert h'[1..] == h;
    FilterAllPass(h, (x: HistoryItem) => x.id != DecimalString(idMillis));
  }

  /** Deleting from an unreadable value stores the empty history. */
  lemma DeleteOnCorrupt(id: string)
    ensures DeleteHistoryItem(Corrupt, id, true) == Success(Present([]))
  {
  }

  /** `clearHistory`: remove the key. */
  function ClearHistory(s: Stored, removeOk: bool): (r: Result<Stored, string>)
    ensures removeOk ==> r.Success? && GetHistory(r.value) == []
    ensures !removeOk ==> r == Failure(ClearError)
  {
    if removeOk then Success(Absent) else Failure(ClearError)
  }

  /** `getHistoryByDate`: the records whose formatted date starts with
      `prefix`, newest first. */
  function GetHistoryByDate(s: Stored, prefix: string): (r: seq<HistoryItem>)
    ensures Subseq(r, GetHistory(s))
    ensures forall i :: 0 <= i < |r| ==> prefix <= r[i].date
    ensures forall x: HistoryItem :: prefix <= x.date ==> multiset(r)[x] == multiset(GetHistory(s))[x]
  {
    Filter(GetHistory(s), (x: HistoryItem) => prefix <= x.date)
  }

  /** The case-insensitive name test of `getHistoryByFood`. */
  predicate NameMatches(x: HistoryItem, query: string, fold: char -> char) {
    Contains(Lower(x.foodName, fold), Lower(query, fold))
  }

  /** `getHistoryByFood`: the records whose lower-cased name contains the
      lower-cased query, newest first. */
  function GetHistoryByFood(s: Stored, query: string, fold: char -> char): (r: seq<HistoryItem>)
    ensures Subseq(r, GetHistory(s))
    ensures forall i :: 0 <= i < |r| ==> NameMatches(r[i], query, fold)
    ensures forall x :: NameMatches(x, query, fold) ==> multiset(r)[x] == multiset(GetHistory(s))[x]
  {
    Filter(GetHistory(s), (x: HistoryItem) => NameMatches(x, query, fold))
  }

  /** An empty query matches every record. */
  lemma EmptyQueryMatchesAll(s: Stored, fold: char -> char)
    ensures GetHistoryByFood(s, "", fold) == GetHistory(s)
  {
    FilterAllPass(GetHistory(s), (x: HistoryItem) => NameMatches(x, "", fold));
  }

  /** `getHistoryByTimeRange`: the records stamped within `[start, end]`,
      both ends included, newest first. */
  function GetHistoryByTimeRange(s: Stored, start: int, end: int): (r: seq<HistoryItem>)
    ensures Subseq(r, GetHistory(s))
    ensures forall i :: 0 <= i < |r| ==> start <= r[i].timestamp <= end
    ensures forall x: HistoryItem :: start <= x.timestamp <= end ==>
              multiset(r)[x] == multiset(GetHistory(s))[x]
  {
    Filter(GetHistory(s), (x: HistoryItem) => start <= x.timestamp <= end)
  }

  /** A range whose start is after its end selects nothing. */
  lemma InvertedRangeIsEmpty(s: Stored, start: int, end: int)
    requires start > end
    ensures GetHistoryByTimeRange(s, start, end) == []
  {
    FilterNonePass(GetHistory(s), (x: HistoryItem) => start <= x.timestamp <= end);
  }
}
