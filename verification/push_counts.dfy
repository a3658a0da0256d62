/** Hourly push counts: one store entry per (date, hour), under the key
    `date-hour`, holding the count as a decimal string; and the day view
    the screen derives from the 24 entries of a date: the raw counts and
    each hour's share of the day's total, in percent. */
module PushCounts {
  import opened Optional
  import opened JsText
  import opened KeyValueStore

  const HoursPerDay: nat := 24

  /** The storage key of one hour of one date; the hour is written in
      decimal without padding. */
  function PushKey(date: string, hour: nat): string
  {
    date + "-" + NatToString(hour)
  }

  /** The '-' before a shorter numeral would fall inside a longer one. */
  lemma SeparatorNotInHour(d1: string, n1: string, d2: string, n2: string)
    requires AllDigits(n2) && |n1| < |n2|
    ensures d1 + "-" + n1 != d2 + "-" + n2
  {
    var k1 := d1 + "-" + n1;
    var k2 := d2 + "-" + n2;
    if |k1| == |k2| {
      var p := |k1| - |n1| - 1;
      assert k1[p] == '-';
      assert k2[p] == n2[p - (|k2| - |n2|)];
      assert IsDigit(k2[p]);
    }
  }

  /** The separator is the last '-' of a key, since the hour part has no
      '-': so distinct (date, hour) pairs never share a key. */
  lemma PushKeyInjective(d1: string, h1: nat, d2: string, h2: nat)
    requires PushKey(d1, h1) == PushKey(d2, h2)
    ensures d1 == d2 && h1 == h2
  {
    var n1 := NatToString(h1);
    var n2 := NatToString(h2);
    var k := PushKey(d1, h1);
    assert |n1| == |n2| by {
      if |n1| < |n2| {
        SeparatorNotInHour(d1, n1, d2, n2);
      } else if |n2| < |n1| {
        SeparatorNotInHour(d2, n2, d1, n1);
      }
    }
    assert d1 == k[..|d1|] == d2;
    assert n1 == k[|d1| + 1..] == n2;
    NatToStringInjective(h1, h2);
  }

  /** `storePushCount`: write `count.toString()` under the hour's key. */
  function StorePushCount(store: Store, date: string, hour: nat, count: int): (r: Store)
    ensures r.Keys == store.Keys + {PushKey(date, hour)}
    ensures GetItem(r, PushKey(date, hour)) == Some(IntToString(count))
    ensures forall k :: k != PushKey(date, hour) ==> GetItem(r, k) == GetItem(store, k)
  {
    SetItem(store, PushKey(date, hour), IntToString(count))
  }

  /** `getPushCount`: an absent or empty entry reads as 0, anything else
      goes through `parseInt`; `None` is NaN. */
  function GetPushCount(store: Store, date: string, hour: nat): (r: Option<int>)
    ensures PushKey(date, hour) !in store ==> r == Some(0)
  {
    match GetItem(store, PushKey(date, hour))
    case None => Some(0)
    case Some(text) => if text == "" then Some(0) else ParseInt(text)
  }

  /** Reading an hour back after storing it gives the stored count, and
      storing one hour changes no other (date, hour) reading. */
  lemma GetAfterStore(store: Store, date: string, hour: nat, count: int, d: string, h: nat)
    ensures GetPushCount(StorePushCount(store, date, hour, count), date, hour) == Some(count)
    ensures (d, h) != (date, hour) ==>
      GetPushCount(StorePushCount(store, date, hour, count), d, h) == GetPushCount(store, d, h)
  {
    ParseIntOfIntToString(count);
    assert IntToString(count) != "";
    if (d, h) != (date, hour) && PushKey(d, h) == PushKey(date, hour) {
      PushKeyInjective(d, h, date, hour);
    }
  }

  /** `GetAfterStore` for every (date, hour) at once. */
  lemma StoreReadsBack(store: Store, date: string, hour: nat, count: int)
    ensures GetPushCount(StorePushCount(store, date, hour, count), date, hour) == Some(count)
    ensures forall d: string, h: nat {:trigger GetPushCount(StorePushCount(store, date, hour, count), d, h)} ::
      (d, h) != (date, hour) ==>
        GetPushCount(StorePushCount(store, date, hour, count), d, h) == GetPushCount(store, d, h)
  {
    forall d: string, h: nat
      ensures (d, h) != (date, hour) ==>
        GetPushCount(StorePushCount(store, date, hour, count), d, h) == GetPushCount(store, d, h)
    {
      GetAfterStore(store, date, hour, count, d, h);
    }
    GetAfterStore(store, date, hour, count, date, hour);
  }

  // ---------------------------------------------------------------------
  // The day view

  /** The keys of `m` are exactly 0 .. n - 1. */
  ghost predicate KeysBelow<V>(m: map<nat, V>, n: nat) {
    forall h: nat :: h in m <==> h < n
  }

  ghost predicate FullDay<V>(m: map<nat, V>) {
    forall h: nat :: h < HoursPerDay ==> h in m
  }

  /** counts[0] + ... + counts[n - 1]. */
  function SumCounts(counts: map<nat, int>, n: nat): int
    requires forall h: nat :: h < n ==> h in counts
  {
    if n == 0 then 0 else SumCounts(counts, n - 1) + counts[n - 1]
  }

  function DayTotal(counts: map<nat, int>): int
    requires FullDay(counts)
  {
    SumCounts(counts, HoursPerDay)
  }

  /** One hour's share of the day in percent, or 0 when nothing was
      pushed that day. Exact (real) arithmetic stands for the source's
      floating point. */
  function Percent(count: int, total: int): real
  {
    if total == 0 then 0.0 else (count as real / total as real) * 100.0
  }

  /** Raw counts (`pushCountsActual`) and percentages (`pushCounts`). */
  datatype DayView = DayView(counts: map<nat, int>, percentages: map<nat, real>)

  /** What loading `date` from `store` yields: `None` when some hour reads
      as NaN; otherwise exactly the hours 0..23, each count as read and
      each percentage its share of the day's total. */
  ghost predicate LoadedFrom(store: Store, date: string, r: Option<DayView>)
  {
    match r
    case None => exists h: nat :: h < HoursPerDay && GetPushCount(store, date, h).None?
    case Some(view) =>
      && KeysBelow(view.counts, HoursPerDay)
      && KeysBelow(view.percentages, HoursPerDay)
      && (forall h: nat :: h < HoursPerDay ==> GetPushCount(store, date, h) == Some(view.counts[h]))
      && (forall h: nat :: h < HoursPerDay ==>
            view.percentages[h] == Percent(view.counts[h], DayTotal(view.counts)))
  }

  lemma SumCountsFrame(a: map<nat, int>, b: map<nat, int>, n: nat)
    requires forall h: nat :: h < n ==> h in a && h in b && a[h] == b[h]
    ensures SumCounts(a, n) == SumCounts(b, n)
  {
  }

  /** The first loop of `loadPushCountsForDate`: read hours 0..23 and
      keep a running total. `None` when an hour reads as NaN. */
  method ReadDayCounts(store: Store, date: string) returns (r: Option<map<nat, int>>, total: int)
    ensures r.None? ==> exists h: nat :: h < HoursPerDay && GetPushCount(store, date, h).None?
    ensures r.Some? ==> KeysBelow(r.value, HoursPerDay)
    ensures r.Some? ==> forall h: nat :: h < HoursPerDay ==> GetPushCount(store, date, h) == Some(r.value[h])
    ensures r.Some? ==> total == DayTotal(r.value)
  {
    var counts: map<nat, int> := map[];
    total := 0;
    var hour: nat := 0;
    while hour < HoursPerDay
      invariant hour <= HoursPerDay
      invariant KeysBelow(counts, hour)
      invariant forall h: nat :: h < hour ==> GetPushCount(store, date, h) == Some(counts[h])
      invariant total == SumCounts(counts, hour)
    {
      var read := GetPushCount(store, date, hour);
      if read.None? {
        // NaN: the total, and with it every percentage, is NaN.
        return None, total;
      }
      var next := counts[hour := read.value];
      SumCountsFrame(counts, next, hour);
      counts := next;
      total := total + read.value;
      hour := hour + 1;
    }
    r := Some(counts);
  }

  /** The second loop of `loadPushCountsForDate`: each hour's share of
      `total`, with no division when the total is 0. */
  method DayPercentages(counts: map<nat, int>, total: int) returns (percentages: map<nat, real>)
    requires FullDay(counts)
    ensures KeysBelow(percentages, HoursPerDay)
    ensures forall h: nat :: h < HoursPerDay ==> percentages[h] == Percent(counts[h], total)
    ensures total == 0 ==> forall h: nat :: h < HoursPerDay ==> percentages[h] == 0.0
  {
    percentages := map[];
    var hour: nat := 0;
    while hour < HoursPerDay
      invariant hour <= HoursPerDay
      invariant KeysBelow(percentages, hour)
      invariant forall h: nat :: h < hour ==> percentages[h] == Percent(counts[h], total)
    {
      percentages := percentages[hour := if total == 0 then 0.0 else (counts[hour] as real / total as real) * 100.0];
      hour := hour + 1;
    }
  }

  /** `loadPushCountsForDate`: read the 24 hours, add them up, then turn
      each count into its percentage of the total. */
  method LoadPushCountsForDate(store: Store, date: string) returns (r: Option<DayView>)
    ensures LoadedFrom(store, date, r)
    ensures r.Some? <==> forall h: nat :: h < HoursPerDay ==> GetPushCount(store, date, h).Some?
    ensures r.Some? && DayTotal(r.value.counts) == 0 ==>
      forall h: nat :: h < HoursPerDay ==> r.value.percentages[h] == 0.0
  {
    var counts, total := ReadDayCounts(store, date);
    if counts.None? {
      return None;
    }
    var percentages := DayPercentages(counts.value, total);
    r := Some(DayView(counts.value, percentages));
  }

  /** Reloading a shown day after one hour's count went up by one shows
      the same counts with only that hour raised. */
  lemma ReloadAfterStore(store: Store, store': Store, date: string, hour: nat, count: int,
                         shown: Option<DayView>, day: Option<DayView>)
    requires hour < HoursPerDay
    requires LoadedFrom(store, date, shown) && shown.Some?
    requires count == shown.value.counts[hour] + 1
    requires store' == StorePushCount(store, date, hour, count)
    requires LoadedFrom(store', date, day)
    ensures day.Some?
    ensures day.value.counts == shown.value.counts[hour := count]
  {
    var view := shown.value;
    forall h: nat | h < HoursPerDay
      ensures GetPushCount(store', date, h).Some?
    {
      GetAfterStore(store, date, hour, count, date, h);
    }
    var expected := view.counts[hour := count];
    forall h: nat
      ensures h in day.value.counts <==> h in expected
      ensures h in expected ==> day.value.counts[h] == expected[h]
    {
      if h < HoursPerDay {
        GetAfterStore(store, date, hour, count, date, h);
        assert GetPushCount(store', date, h) == Some(day.value.counts[h]);
      }
    }
  }

  // ---------------------------------------------------------------------
  // Properties of the percentages

  /** percentages[0] + ... + percentages[n - 1]. */
  function SumPercent(percentages: map<nat, real>, n: nat): real
    requires forall h: nat :: h < n ==> h in percentages
  {
    if n == 0 then 0.0 else SumPercent(percentages, n - 1) + percentages[n - 1]
  }

  lemma {:induction false} SumPercentScales(view: DayView, total: int, n: nat)
    requires total != 0
    requires forall h: nat :: h < n ==> h in view.counts && h in view.percentages
    requires forall h: nat :: h < n ==> view.percentages[h] == Percent(view.counts[h], total)
    ensures SumPercent(view.percentages, n) == (SumCounts(view.counts, n) as real / total as real) * 100.0
  {
    if n > 0 {
      SumPercentScales(view, total, n - 1);
      var t := total as real;
      var a := SumCounts(view.counts, n - 1) as real;
      var c := view.counts[n - 1] as real;
      assert (a / t) * 100.0 + (c / t) * 100.0 == ((a + c) / t) * 100.0;
    }
  }

  lemma WholeIsHundred(t: real)
    requires t != 0.0
    ensures (t / t) * 100.0 == 100.0
  {
  }

  /** On a day with pushes the 24 percentages add up to exactly 100. */
  lemma PercentagesSumTo100(store: Store, date: string, view: DayView)
    requires LoadedFrom(store, date, Some(view))
    requires DayTotal(view.counts) != 0
    ensures SumPercent(view.percentages, HoursPerDay) == 100.0
  {
    var total := DayTotal(view.counts);
    assert forall h: nat :: h < HoursPerDay ==> h in view.counts && h in view.percentages;
    SumPercentScales(view, total, HoursPerDay);
    assert SumCounts(view.counts, HoursPerDay) == total;
    WholeIsHundred(total as real);
  }

  lemma {:induction false} CountAtMostSum(counts: map<nat, int>, n: nat, h: nat)
    requires forall k: nat :: k < n ==> k in counts && counts[k] >= 0
    requires h < n
    ensures 0 <= counts[h] <= SumCounts(counts, n)
  {
    if h < n - 1 {
      CountAtMostSum(counts, n - 1, h);
    }
    SumCountsNonNegative(counts, n - 1);
  }

  lemma {:induction false} SumCountsNonNegative(counts: map<nat, int>, n: nat)
    requires forall k: nat :: k < n ==> k in counts && counts[k] >= 0
    ensures SumCounts(counts, n) >= 0
  {
    if n > 0 {
      SumCountsNonNegative(counts, n - 1);
    }
  }

  lemma ShareBounds(c: real, t: real)
    requires 0.0 <= c <= t && t > 0.0
    ensures 0.0 <= (c / t) * 100.0 <= 100.0
  {
    var q := c / t;
    assert q * t == c;
    assert (q - 1.0) * t == c - t;
  }

  /** With no negative counts every percentage lies between 0 and 100. */
  lemma PercentagesBounded(store: Store, date: string, view: DayView, h: nat)
    requires LoadedFrom(store, date, Some(view))
    requires forall k: nat :: k < HoursPerDay ==> view.counts[k] >= 0
    requires h < HoursPerDay
    ensures 0.0 <= view.percentages[h] <= 100.0
  {
    var total := DayTotal(view.counts);
    CountAtMostSum(view.counts, HoursPerDay, h);
    if total != 0 {
      ShareBounds(view.counts[h] as real, total as real);
    }
  }

  // ---------------------------------------------------------------------
  // Stores whose push entries are all counts

  /** Every hour of every date reads as a non-negative number. */
  ghost predicate CountsReadable(store: Store)
  {
    forall d: string, h: nat {:trigger GetPushCount(store, d, h)} ::
      GetPushCount(store, d, h).Some? && GetPushCount(store, d, h).value >= 0
  }

  lemma EmptyStoreReadable()
    ensures CountsReadable(Empty)
  {
  }

  /** Storing a non-negative count keeps every entry readable. */
  lemma StoreKeepsReadable(store: Store, date: string, hour: nat, count: int)
    requires CountsReadable(store) && count >= 0
    ensures CountsReadable(StorePushCount(store, date, hour, count))
  {
    forall d: string, h: nat
      ensures GetPushCount(StorePushCount(store, date, hour, count), d, h).Some?
      ensures GetPushCount(StorePushCount(store, date, hour, count), d, h).value >= 0
    {
      GetAfterStore(store, date, hour, count, d, h);
    }
  }

  /** A readable store always loads to a full day view. */
  lemma ReadableLoads(store: Store, date: string, r: Option<DayView>)
    requires CountsReadable(store) && LoadedFrom(store, date, r)
    ensures r.Some?
    ensures forall h: nat :: h < HoursPerDay ==> r.value.counts[h] >= 0
  {
    forall h: nat | h < HoursPerDay
      ensures r.value.counts[h] >= 0
    {
      assert GetPushCount(store, date, h) == Some(r.value.counts[h]);
    }
  }
}
