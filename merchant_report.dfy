/** The merchant transaction report: totals over the fetched history, the
    per-day chart series, the masking of account numbers, and the date-range
    check that guards every fetch. */
module MerchantReport {
  import opened Wrappers
  import opened Decimal
  import opened JsString
  import opened JsValue

  /** One record of the transaction history. `day` is the `YYYY-MM-DD` key
      that `moment(it.timestamprq)` yields in local time (a missing timestamp
      gives the current day), and None only when that moment is invalid. */
  datatype Trx = Trx(amount: Json, device: Json, terminal: Json, day: Option<string>)

  // ---------------------------------------------------------------------------
  // Amounts

  /** `Number(it.amount || 0)`: a missing amount counts as 0. */
  function Amount(it: Trx): (a: Json)
    ensures a.Num? || a.NaN?
    ensures !Truthy(it.amount) ==> a == Num(0)
    ensures Truthy(it.amount) ==> a == ToNumber(it.amount)
  {
    ToNumber(if Truthy(it.amount) then it.amount else Num(0))
  }

  /** `a + b` on numbers, where NaN absorbs. */
  function Add(a: Json, b: Json): (r: Json)
    ensures r.Num? <==> a.Num? && b.Num?
    ensures r.Num? ==> r.n == a.n + b.n
  {
    if a.Num? && b.Num? then Num(a.n + b.n) else NaN
  }

  lemma AddAssociative(a: Json, b: Json, c: Json)
    ensures Add(Add(a, b), c) == Add(a, Add(b, c))
  {
  }

  /** `history.reduce((sum, it) => sum + Number(it.amount || 0), 0)`. */
  function TotalAmount(h: seq<Trx>): (t: Json)
    ensures t.Num? || t.NaN?
    decreases |h|
  {
    if h == [] then Num(0) else Add(TotalAmount(h[..|h| - 1]), Amount(h[|h| - 1]))
  }

  /** The total is NaN exactly when some amount does not read as a number. */
  lemma {:induction false} TotalAmountNaN(h: seq<Trx>)
    ensures TotalAmount(h).NaN? <==> exists i :: 0 <= i < |h| && Amount(h[i]).NaN?
    decreases |h|
  {
    if h != [] {
      var init := h[..|h| - 1];
      TotalAmountNaN(init);
      if exists i :: 0 <= i < |init| && Amount(init[i]).NaN? {
        var i :| 0 <= i < |init| && Amount(init[i]).NaN?;
        assert h[i] == init[i];
      }
      if exists i :: 0 <= i < |h| && Amount(h[i]).NaN? {
        var i :| 0 <= i < |h| && Amount(h[i]).NaN?;
        if i < |init| {
          assert h[i] == init[i];
        }
      }
    }
  }

  /** The total of two histories one after the other is the sum of their totals. */
  lemma {:induction false} TotalAmountAppend(a: seq<Trx>, b: seq<Trx>)
    ensures TotalAmount(a + b) == Add(TotalAmount(a), TotalAmount(b))
    decreases |b|
  {
    if b == [] {
      assert a + b == a;
    } else {
      var init := b[..|b| - 1];
      var x := b[|b| - 1];
      assert (a + b)[..|a + b| - 1] == a + init;
      assert (a + b)[|a + b| - 1] == x;
      TotalAmountAppend(a, init);
      AddAssociative(TotalAmount(a), TotalAmount(init), Amount(x));
    }
  }

  /** A record without an amount does not change the total. */
  lemma MissingAmountAddsNothing(a: seq<Trx>, x: Trx, b: seq<Trx>)
    requires !Truthy(x.amount)
    ensures TotalAmount(a + [x] + b) == TotalAmount(a + b)
  {
    TotalAmountAppend(a + [x], b);
    TotalAmountAppend(a, b);
    assert (a + [x])[..|a + [x]| - 1] == a;
  }

  /** `count ? totalAmount / count : 0`, exactly. */
  datatype Mean = Avg(value: real) | AvgNaN

  function Average(h: seq<Trx>): (avg: Mean)
    ensures |h| == 0 ==> avg == Avg(0.0)
    ensures |h| > 0 ==> (avg.AvgNaN? <==> TotalAmount(h).NaN?)
    ensures |h| > 0 && avg.Avg? ==> avg.value * |h| as real == TotalAmount(h).n as real
  {
    if |h| == 0 then Avg(0.0)
    else match TotalAmount(h)
      case Num(t) => Avg(t as real / |h| as real)
      case _ => AvgNaN
  }

  // ---------------------------------------------------------------------------
  // Tallies

  /** `it.device || '-'` as an object key. */
  function TallyKey(v: Json): (k: string)
    ensures !Truthy(v) ==> k == "-"
    ensures v.Str? && v.s != "" ==> k == v.s
  {
    if Truthy(v) then ToJsString(v) else "-"
  }

  function DeviceKeys(h: seq<Trx>): (keys: seq<string>)
    ensures |keys| == |h|
  {
    seq(|h|, i requires 0 <= i < |h| => TallyKey(h[i].device))
  }

  function TerminalKeys(h: seq<Trx>): (keys: seq<string>)
    ensures |keys| == |h|
  {
    seq(|h|, i requires 0 <= i < |h| => TallyKey(h[i].terminal))
  }

  /** The counts `m[key] = (m[key] || 0) + 1` leaves after the keys in order. */
  function TallyOf(keys: seq<string>): map<string, nat>
    decreases |keys|
  {
    if keys == [] then map[]
    else
      var m := TallyOf(keys[..|keys| - 1]);
      var k := keys[|keys| - 1];
      m[k := (if k in m then m[k] else 0) + 1]
  }

  /** The sum of the counts in a tally. */
  ghost function SumValues(m: map<string, nat>): nat
    decreases |m.Keys|
  {
    if m == map[] then 0
    else
      var k :| k in m;
      assert (m - {k}).Keys < m.Keys;
      m[k] + SumValues(m - {k})
  }

  /** Any key can be taken out first. */
  lemma {:induction false} SumValuesRemove(m: map<string, nat>, k: string)
    requires k in m
    ensures SumValues(m) == m[k] + SumValues(m - {k})
    decreases |m.Keys|
  {
    var j :| j in m && SumValues(m) == m[j] + SumValues(m - {j});
    if j != k {
      assert (m - {j}).Keys < m.Keys;
      assert (m - {k}).Keys < m.Keys;
      SumValuesRemove(m - {j}, k);
      SumValuesRemove(m - {k}, j);
      assert m - {j} - {k} == m - {k} - {j};
    }
  }

  /** The tally counts every key as often as it occurs. */
  lemma {:induction false} TallyCounts(keys: seq<string>)
    ensures forall k :: k in TallyOf(keys) <==> k in multiset(keys)
    ensures forall k :: k in TallyOf(keys) ==> TallyOf(keys)[k] == multiset(keys)[k]
    decreases |keys|
  {
    if keys != [] {
      var init := keys[..|keys| - 1];
      TallyCounts(init);
      assert keys == init + [keys[|keys| - 1]];
      assert multiset(keys) == multiset(init) + multiset{keys[|keys| - 1]};
    }
  }

  /** The counts of a tally add up to the number of keys. */
  lemma {:induction false} TallySum(keys: seq<string>)
    ensures SumValues(TallyOf(keys)) == |keys|
    decreases |keys|
  {
    if keys != [] {
      var init := keys[..|keys| - 1];
      var m := TallyOf(init);
      var k := keys[|keys| - 1];
      var c := if k in m then m[k] else 0;
      TallySum(init);
      SumValuesRemove(m[k := c + 1], k);
      assert m[k := c + 1] - {k} == m - {k};
      if k in m {
        SumValuesRemove(m, k);
      } else {
        assert m - {k} == m;
      }
    }
  }

  /** The reduction that counts the records per key. */
  method Tally(keys: seq<string>) returns (m: map<string, nat>)
    ensures m == TallyOf(keys)
    ensures forall k :: k in m <==> k in multiset(keys)
    ensures forall k :: k in m ==> m[k] == multiset(keys)[k]
  {
    m := map[];
    for i := 0 to |keys|
      invariant m == TallyOf(keys[..i])
    {
      assert keys[..i + 1][..i] == keys[..i];
      var key := keys[i];
      m := m[key := (if key in m then m[key] else 0) + 1];
    }
    assert keys[..|keys|] == keys;
    TallyCounts(keys);
  }

  /** The summary cards of the report. */
  datatype Totals = Totals(
    totalAmount: Json,
    count: nat,
    avg: Mean,
    byDevice: map<string, nat>,
    byTerminal: map<string, nat>)

  /** `totals`: the sum, the count, the mean and the per-device and
      per-terminal counts of the history. */
  method ComputeTotals(h: seq<Trx>) returns (t: Totals)
    ensures t.totalAmount == TotalAmount(h) && t.count == |h| && t.avg == Average(h)
    ensures t.byDevice == TallyOf(DeviceKeys(h)) && t.byTerminal == TallyOf(TerminalKeys(h))
  {
    var byDevice := Tally(DeviceKeys(h));
    var byTerminal := Tally(TerminalKeys(h));
    t := Totals(TotalAmount(h), |h|, Average(h), byDevice, byTerminal);
  }

  /** Each of the two tallies accounts for every record once. */
  lemma TalliesAddUpToCount(h: seq<Trx>)
    ensures SumValues(TallyOf(DeviceKeys(h))) == |h|
    ensures SumValues(TallyOf(TerminalKeys(h))) == |h|
  {
    TallySum(DeviceKeys(h));
    TallySum(TerminalKeys(h));
  }

  /** A record without a device is counted under "-". */
  lemma MissingDeviceCountedAsDash(h: seq<Trx>, i: nat)
    requires i < |h| && !Truthy(h[i].device)
    ensures "-" in TallyOf(DeviceKeys(h)) && TallyOf(DeviceKeys(h))["-"] >= 1
  {
    TallyCounts(DeviceKeys(h));
    assert DeviceKeys(h)[i] == "-";
  }

  // ---------------------------------------------------------------------------
  // Chart series

  /** A point of the chart: a day and the amount booked on it. */
  datatype Point = Point(date: string, amount: Json)

  /** The records of the history booked on day d, in order. */
  function DayItems(h: seq<Trx>, d: string): (items: seq<Trx>)
    ensures |items| <= |h|
    decreases |h|
  {
    if h == [] then []
    else DayItems(h[..|h| - 1], d) + (if h[|h| - 1].day == Some(d) then [h[|h| - 1]] else [])
  }

  /** Day d has at least one record, so the chart has a bucket for it. */
  predicate Booked(h: seq<Trx>, d: string) {
    DayItems(h, d) != []
  }

  /** A day is booked exactly when some record falls on it. */
  lemma {:induction false} BookedIffRecord(h: seq<Trx>, d: string)
    ensures Booked(h, d) <==> exists i :: 0 <= i < |h| && h[i].day == Some(d)
    decreases |h|
  {
    if h != [] {
      var init := h[..|h| - 1];
      BookedIffRecord(init, d);
      if exists i :: 0 <= i < |init| && init[i].day == Some(d) {
        var i :| 0 <= i < |init| && init[i].day == Some(d);
        assert h[i] == init[i];
      }
      if exists i :: 0 <= i < |h| && h[i].day == Some(d) {
        var i :| 0 <= i < |h| && h[i].day == Some(d);
        if i < |init| {
          assert h[i] == init[i];
        }
      }
    }
  }

  /** `v || 0` for a bucket's running amount. */
  function OrZero(v: Json): (r: Json)
    ensures Truthy(v) ==> r == v
    ensures !Truthy(v) ==> r == Num(0)
  {
    if Truthy(v) then v else Num(0)
  }

  /** The amount a bucket holds after the given records of its day:
      `(buckets.get(key) || 0) + Number(it.amount || 0)` record by record. */
  function BucketTotal(items: seq<Trx>): (t: Json)
    ensures t.Num? || t.NaN?
    decreases |items|
  {
    if items == [] then Num(0)
    else Bump(BucketTotal(items[..|items| - 1]), items[|items| - 1])
  }

  /** One record added to a bucket: `(prev || 0) + Number(it.amount || 0)`. */
  function Bump(prev: Json, it: Trx): Json {
    Add(OrZero(prev), Amount(it))
  }

  /** The buckets after one more record, given the buckets before it. */
  lemma BucketsStep(h: seq<Trx>, i: nat, buckets: map<string, Json>, key: string, v: Json,
                    total: seq<Trx> -> Json)
    requires i < |h| && h[i].day == Some(key) && BucketsHold(h[..i], buckets, total)
    requires v == total(DayItems(h[..i + 1], key))
    ensures BucketsHold(h[..i + 1], buckets[key := v], total)
  {
    DayItemsStep(h, i, key);
    forall d | d != key
      ensures DayItems(h[..i + 1], d) == DayItems(h[..i], d)
    {
      OtherDayKept(h, i, d);
    }
  }

  /** Before its first record a day's bucket is unset, which `|| 0` reads as 0. */
  lemma PrevBucket(h: seq<Trx>, buckets: map<string, Json>, key: string)
    requires BucketsHold(h, buckets, BucketTotal)
    ensures OrZero(if key in buckets then buckets[key] else Undefined) ==
            OrZero(BucketTotal(DayItems(h, key)))
  {
  }

  /** The record's own bucket takes its amount. */
  lemma BucketOfKey(h: seq<Trx>, i: nat, prev: Json, key: string)
    requires i < |h| && h[i].day == Some(key)
    requires OrZero(prev) == OrZero(BucketTotal(DayItems(h[..i], key)))
    ensures Bump(prev, h[i]) == BucketTotal(DayItems(h[..i + 1], key))
  {
    DayItemsStep(h, i, key);
    BucketTotalSnoc(DayItems(h[..i], key), h[i]);
  }

  /** A record leaves the records of other days as they were. */
  lemma OtherDayKept(h: seq<Trx>, i: nat, d: string)
    requires i < |h| && h[i].day != Some(d)
    ensures DayItems(h[..i + 1], d) == DayItems(h[..i], d)
  {
    DayItemsStep(h, i, d);
    assert DayItems(h[..i], d) + [] == DayItems(h[..i], d);
  }

  /** A record without a valid day leaves every bucket as it was. */
  lemma BucketsKeep(h: seq<Trx>, i: nat, buckets: map<string, Json>, total: seq<Trx> -> Json)
    requires i < |h| && h[i].day.None? && BucketsHold(h[..i], buckets, total)
    ensures BucketsHold(h[..i + 1], buckets, total)
  {
    forall d
      ensures DayItems(h[..i + 1], d) == DayItems(h[..i], d)
    {
      OtherDayKept(h, i, d);
    }
  }

  /** A bucket's amount after one more record of its day. */
  lemma BucketTotalSnoc(items: seq<Trx>, it: Trx)
    ensures BucketTotal(items + [it]) == Bump(BucketTotal(items), it)
  {
    assert (items + [it])[..|items|] == items;
  }

  /** Strictly ascending dates. */
  predicate Ascending(ps: seq<Point>) {
    forall i, j :: 0 <= i < j < |ps| ==> LexLess(ps[i].date, ps[j].date)
  }

  /** Places p among ascending points. */
  function Insert(p: Point, ps: seq<Point>): (r: seq<Point>)
    ensures multiset(r) == multiset(ps) + multiset{p}
    decreases |ps|
  {
    if ps == [] then [p]
    else if LexLess(ps[0].date, p.date) then
      assert ps == [ps[0]] + ps[1..];
      [ps[0]] + Insert(p, ps[1..])
    else [p] + ps
  }

  /** `.sort((a, b) => (a.date < b.date ? -1 : 1))`, as an insertion sort. */
  function SortByDate(ps: seq<Point>): (r: seq<Point>)
    ensures multiset(r) == multiset(ps)
    decreases |ps|
  {
    if ps == [] then []
    else
      assert ps == [ps[0]] + ps[1..];
      Insert(ps[0], SortByDate(ps[1..]))
  }

  /** Inserting a point with a new date keeps the points ascending. */
  lemma {:induction false} InsertAscending(p: Point, ps: seq<Point>)
    requires Ascending(ps)
    requires forall i :: 0 <= i < |ps| ==> ps[i].date != p.date
    ensures Ascending(Insert(p, ps))
    decreases |ps|
  {
    if ps != [] {
      if LexLess(ps[0].date, p.date) {
        var rest := Insert(p, ps[1..]);
        InsertAscending(p, ps[1..]);
        forall x: Point | x in multiset(rest)
          ensures LexLess(ps[0].date, x.date)
        {
          assert x in multiset(ps[1..]) + multiset{p};
          if x != p {
            var k :| 0 <= k < |ps[1..]| && ps[1..][k] == x;
            assert ps[k + 1] == x;
          }
        }
        AscendingCons(ps[0], rest);
      } else {
        LexLessTotal(ps[0].date, p.date);
        forall j | 0 <= j < |ps|
          ensures LexLess(p.date, ps[j].date)
        {
          if j > 0 {
            LexLessTransitive(p.date, ps[0].date, ps[j].date);
          }
        }
        AscendingCons(p, ps);
      }
    }
  }

  /** A point before all dates of ascending points keeps them ascending. */
  lemma AscendingCons(p: Point, ps: seq<Point>)
    requires Ascending(ps)
    requires forall x :: x in multiset(ps) ==> LexLess(p.date, x.date)
    ensures Ascending([p] + ps)
  {
    var r := [p] + ps;
    forall i, j | 0 <= i < j < |r|
      ensures LexLess(r[i].date, r[j].date)
    {
      assert r[j] == ps[j - 1];
      assert ps[j - 1] in multiset(ps);
      if i > 0 {
        assert r[i] == ps[i - 1];
      }
    }
  }

  /** Points with distinct dates come out strictly ascending. */
  lemma {:induction false} SortAscending(ps: seq<Point>)
    requires forall i, j :: 0 <= i < j < |ps| ==> ps[i].date != ps[j].date
    ensures Ascending(SortByDate(ps))
    decreases |ps|
  {
    if ps != [] {
      var rest := SortByDate(ps[1..]);
      SortAscending(ps[1..]);
      forall i | 0 <= i < |rest|
        ensures rest[i].date != ps[0].date
      {
        assert rest[i] in multiset(ps[1..]);
        var k :| 0 <= k < |ps[1..]| && ps[1..][k] == rest[i];
        assert ps[k + 1] == rest[i];
      }
      InsertAscending(ps[0], rest);
    }
  }

  /** The buckets of `chartData` after the records h: one per listed day,
      holding that day's amount, with each key listed once (CollectBuckets
      also fixes the list to FirstSeenDays, the `Map`'s insertion order). */
  ghost predicate Filled(h: seq<Trx>, buckets: map<string, Json>, order: seq<string>) {
    BucketsHold(h, buckets, BucketTotal) && ListsKeys(buckets, order)
  }

  /** One bucket per booked day, holding what total makes of that day's records. */
  ghost predicate BucketsHold(h: seq<Trx>, buckets: map<string, Json>, total: seq<Trx> -> Json) {
    && (forall d :: d in buckets <==> Booked(h, d))
    && (forall d :: d in buckets ==> buckets[d] == total(DayItems(h, d)))
  }

  /** order lists the keys of buckets, each once. */
  ghost predicate ListsKeys(buckets: map<string, Json>, order: seq<string>) {
    && (forall d :: d in buckets <==> d in order)
    && (forall j, k :: 0 <= j < k < |order| ==> order[j] != order[k])
  }

  /** The map-filling loop of `chartData`. */
  method CollectBuckets(h: seq<Trx>) returns (buckets: map<string, Json>, order: seq<string>)
    ensures Filled(h, buckets, order)
    ensures order == FirstSeenDays(h)
  {
    buckets := map[];
    order := [];
    for i := 0 to |h|
      invariant Filled(h[..i], buckets, order)
      invariant order == FirstSeenDays(h[..i])
    {
      var it := h[i];
      assert h[..i + 1][..i] == h[..i];
      if it.day.None? {
        BucketsKeep(h, i, buckets, BucketTotal);
        continue;
      }
      var key := it.day.value;
      var prev := if key in buckets then buckets[key] else Undefined;
      var order' := if key in buckets then order else order + [key];
      var buckets' := buckets[key := Bump(prev, it)];
      PrevBucket(h[..i], buckets, key);
      BucketOfKey(h, i, prev, key);
      BucketsStep(h, i, buckets, key, Bump(prev, it), BucketTotal);
      OrderStep(buckets, order, key, Bump(prev, it));
      buckets, order := buckets', order';
    }
    assert h[..|h|] == h;
  }

  /** The booked days in the order of their first record: the order in which
      `chartData` first sets each key of its `Map`. */
  function FirstSeenDays(h: seq<Trx>): (days: seq<string>)
    decreases |h|
  {
    if h == [] then []
    else
      var seen := FirstSeenDays(h[..|h| - 1]);
      var it := h[|h| - 1];
      if it.day.None? || it.day.value in seen then seen else seen + [it.day.value]
  }

  /** The first-seen list holds exactly the booked days. */
  lemma {:induction false} FirstSeenBooked(h: seq<Trx>, d: string)
    ensures d in FirstSeenDays(h) <==> Booked(h, d)
    decreases |h|
  {
    if h != [] {
      FirstSeenBooked(h[..|h| - 1], d);
    }
  }

  /** A day listed after another has no record before the other's first
      record: for j < k, every record of day k is preceded by one of day j. */
  lemma {:induction false} FirstSeenOrder(h: seq<Trx>, j: nat, k: nat, m: nat)
    requires j < k < |FirstSeenDays(h)|
    requires m < |h| && h[m].day == Some(FirstSeenDays(h)[k])
    ensures exists m' :: 0 <= m' < m && h[m'].day == Some(FirstSeenDays(h)[j])
    decreases |h|
  {
    var init := h[..|h| - 1];
    var seen := FirstSeenDays(init);
    var days := FirstSeenDays(h);
    if k < |seen| {
      assert days[k] == seen[k] && days[j] == seen[j];
      var mm := m;
      if m == |h| - 1 {
        FirstSeenBooked(init, seen[k]);
        BookedIffRecord(init, seen[k]);
        mm :| 0 <= mm < |init| && init[mm].day == Some(seen[k]);
      }
      assert init[mm] == h[mm];
      FirstSeenOrder(init, j, k, mm);
      var m' :| 0 <= m' < mm && init[m'].day == Some(seen[j]);
      assert h[m'] == init[m'];
    } else {
      assert days[k] !in seen;
      FirstSeenBooked(init, days[k]);
      BookedIffRecord(init, days[k]);
      assert m == |h| - 1;
      assert days[j] == seen[j];
      FirstSeenBooked(init, seen[j]);
      BookedIffRecord(init, seen[j]);
      var m' :| 0 <= m' < |init| && init[m'].day == Some(seen[j]);
      assert h[m'] == init[m'];
    }
  }

  /** Listing a key when it is first set keeps every key listed once. */
  lemma OrderStep(buckets: map<string, Json>, order: seq<string>, key: string, v: Json)
    requires ListsKeys(buckets, order)
    ensures ListsKeys(buckets[key := v], if key in buckets then order else order + [key])
  {
  }

  /** The points of the chart, in any order: one per listed day, with that
      day's bucket amount, and no two for the same day. */
  ghost predicate Charted(h: seq<Trx>, ps: seq<Point>) {
    && (forall i :: 0 <= i < |ps| ==>
          Booked(h, ps[i].date) && ps[i].amount == BucketTotal(DayItems(h, ps[i].date)))
    && (forall d :: Booked(h, d) ==> exists i :: 0 <= i < |ps| && ps[i].date == d)
    && (forall i, j :: 0 <= i < j < |ps| ==> ps[i].date != ps[j].date)
  }

  /** Listing the filled buckets in key order charts every day once. */
  lemma ChartedEntries(h: seq<Trx>, buckets: map<string, Json>, order: seq<string>, entries: seq<Point>)
    requires Filled(h, buckets, order)
    requires |entries| == |order|
    requires forall j :: 0 <= j < |order| ==> entries[j] == Point(order[j], buckets[order[j]])
    ensures Charted(h, entries)
  {
    forall d | Booked(h, d)
      ensures exists i :: 0 <= i < |entries| && entries[i].date == d
    {
      var j :| 0 <= j < |order| && order[j] == d;
      assert entries[j].date == d;
    }
  }

  /** Sorting charted points keeps them charted and puts them in date order. */
  lemma ChartedSorted(h: seq<Trx>, ps: seq<Point>)
    requires Charted(h, ps)
    ensures Charted(h, SortByDate(ps)) && Ascending(SortByDate(ps))
  {
    var r := SortByDate(ps);
    SortAscending(ps);
    RearrangedPointsKept(h, ps, r);
    RearrangedDaysKept(h, ps, r);
    forall i, j | 0 <= i < j < |r|
      ensures r[i].date != r[j].date
    {
      LexLessIrreflexive(r[i].date);
    }
  }

  /** Rearranged points hold the same days and amounts. */
  lemma RearrangedPointsKept(h: seq<Trx>, ps: seq<Point>, r: seq<Point>)
    requires multiset(r) == multiset(ps)
    requires forall i :: 0 <= i < |ps| ==>
      Booked(h, ps[i].date) && ps[i].amount == BucketTotal(DayItems(h, ps[i].date))
    ensures forall i :: 0 <= i < |r| ==>
      Booked(h, r[i].date) && r[i].amount == BucketTotal(DayItems(h, r[i].date))
  {
    forall i | 0 <= i < |r|
      ensures Booked(h, r[i].date) && r[i].amount == BucketTotal(DayItems(h, r[i].date))
    {
      assert r[i] in multiset(ps);
    }
  }

  /** Rearranged points chart the same days. */
  lemma RearrangedDaysKept(h: seq<Trx>, ps: seq<Point>, r: seq<Point>)
    requires multiset(r) == multiset(ps)
    requires forall d :: Booked(h, d) ==> exists i :: 0 <= i < |ps| && ps[i].date == d
    ensures forall d :: Booked(h, d) ==> exists i :: 0 <= i < |r| && r[i].date == d
  {
    forall d | Booked(h, d)
      ensures exists i :: 0 <= i < |r| && r[i].date == d
    {
      var j :| 0 <= j < |ps| && ps[j].date == d;
      assert ps[j] in multiset(r);
      var i :| 0 <= i < |r| && r[i] == ps[j];
    }
  }

  /** `chartData`: one bucket per valid day, filled record by record, listed
      in insertion order and then sorted by date. */
  method ChartData(h: seq<Trx>) returns (points: seq<Point>)
    ensures Ascending(points)
    ensures forall i :: 0 <= i < |points| ==>
      Booked(h, points[i].date) && points[i].amount == BucketTotal(DayItems(h, points[i].date))
    ensures forall d :: Booked(h, d) ==> exists i :: 0 <= i < |points| && points[i].date == d
  {
    var buckets, order := CollectBuckets(h);
    var entries := seq(|order|, j requires 0 <= j < |order| => Point(order[j], buckets[order[j]]));
    points := SortByDate(entries);
    SortedEntriesCharted(h, buckets, order, entries);
  }

  /** Listing the filled buckets and sorting them charts every day once, in
      ascending order. */
  lemma SortedEntriesCharted(h: seq<Trx>, buckets: map<string, Json>, order: seq<string>, entries: seq<Point>)
    requires Filled(h, buckets, order)
    requires |entries| == |order|
    requires forall j :: 0 <= j < |order| ==> entries[j] == Point(order[j], buckets[order[j]])
    ensures Charted(h, SortByDate(entries)) && Ascending(SortByDate(entries))
  {
    ChartedEntries(h, buckets, order, entries);
    ChartedSorted(h, entries);
  }

  /** One more record joins the records of its own day and no other. */
  lemma DayItemsStep(h: seq<Trx>, i: nat, d: string)
    requires i < |h|
    ensures DayItems(h[..i + 1], d) == DayItems(h[..i], d) + (if h[i].day == Some(d) then [h[i]] else [])
  {
    assert h[..i + 1][..i] == h[..i];
  }

  // ---------------------------------------------------------------------------
  // What the chart adds up to

  /** The records with a valid day, in order. */
  function Dated(h: seq<Trx>): (r: seq<Trx>)
    ensures |r| <= |h|
    decreases |h|
  {
    if h == [] then []
    else Dated(h[..|h| - 1]) + (if h[|h| - 1].day.Some? then [h[|h| - 1]] else [])
  }

  /** The day totals of the days ds, added up in order. */
  function DaySum(h: seq<Trx>, ds: seq<string>): (t: Json)
    ensures t.Num? || t.NaN?
    decreases |ds|
  {
    if ds == [] then Num(0) else Add(TotalAmount(DayItems(h, ds[0])), DaySum(h, ds[1..]))
  }

  /** The amounts of chart points, added up in order. */
  function PointsTotal(ps: seq<Point>): Json
    decreases |ps|
  {
    if ps == [] then Num(0) else Add(ps[0].amount, PointsTotal(ps[1..]))
  }

  /** No strings repeat. */
  predicate Distinct(ds: seq<string>) {
    forall i, j :: 0 <= i < j < |ds| ==> ds[i] != ds[j]
  }

  /** What the last record adds to a day's total. */
  function LastShare(h: seq<Trx>, d: string): Json
    requires h != []
  {
    if h[|h| - 1].day == Some(d) then Amount(h[|h| - 1]) else Num(0)
  }

  /** A day's total after one more record. */
  lemma DayTotalSnoc(h: seq<Trx>, d: string)
    requires h != []
    ensures TotalAmount(DayItems(h, d)) == Add(TotalAmount(DayItems(h[..|h| - 1], d)), LastShare(h, d))
  {
    var a := DayItems(h[..|h| - 1], d);
    var x := h[|h| - 1];
    assert (a + [x])[..|a|] == a;
    assert a + [] == a;
  }

  /** The last record adds its amount to the sum of its day, if its day is listed. */
  lemma {:induction false} DaySumSnoc(h: seq<Trx>, ds: seq<string>)
    requires h != [] && Distinct(ds)
    ensures DaySum(h, ds) == Add(DaySum(h[..|h| - 1], ds), ListedShare(h, ds))
    decreases |ds|
  {
    if ds != [] {
      DistinctTail(ds);
      DaySumSnoc(h, ds[1..]);
      DaySumSnocStep(h, ds);
    }
  }

  /** The inductive step of DaySumSnoc: from the days after the first to all. */
  lemma DaySumSnocStep(h: seq<Trx>, ds: seq<string>)
    requires h != [] && ds != [] && ds[0] !in ds[1..]
    requires DaySum(h, ds[1..]) == Add(DaySum(h[..|h| - 1], ds[1..]), ListedShare(h, ds[1..]))
    ensures DaySum(h, ds) == Add(DaySum(h[..|h| - 1], ds), ListedShare(h, ds))
  {
    var d0, x, init := ds[0], h[|h| - 1], h[..|h| - 1];
    DayTotalSnoc(h, d0);
    var t0, s1 := TotalAmount(DayItems(init, d0)), DaySum(init, ds[1..]);
    var l0, r1 := LastShare(h, d0), ListedShare(h, ds[1..]);
    AddRegroup(t0, l0, s1, r1);
    ShareSplit(Amount(x), x.day, ds);
  }

  /** An amount booked on one of distinct days is counted once: at the first
      day or among the rest. */
  lemma ShareSplit(a: Json, day: Option<string>, ds: seq<string>)
    requires a.Num? || a.NaN?
    requires ds != [] && ds[0] !in ds[1..]
    ensures Add(if day == Some(ds[0]) then a else Num(0),
                if day.Some? && day.value in ds[1..] then a else Num(0)) ==
            (if day.Some? && day.value in ds then a else Num(0))
  {
    assert ds == [ds[0]] + ds[1..];
  }

  /** What the last record adds to the sum over the days ds. */
  function ListedShare(h: seq<Trx>, ds: seq<string>): Json
    requires h != []
  {
    var x := h[|h| - 1];
    if x.day.Some? && x.day.value in ds then Amount(x) else Num(0)
  }

  /** 0 is neutral for sums of numbers and NaN. */
  lemma AddZero(v: Json)
    requires v.Num? || v.NaN?
    ensures Add(v, Num(0)) == v && Add(Num(0), v) == v
  {
  }

  /** The first of distinct strings does not come again, and the rest are distinct. */
  lemma DistinctTail(ds: seq<string>)
    requires ds != [] && Distinct(ds)
    ensures ds[0] !in ds[1..] && Distinct(ds[1..])
  {
  }

  /** Sums of numbers may be regrouped. */
  lemma AddRegroup(p: Json, q: Json, r: Json, t: Json)
    ensures Add(Add(p, q), Add(r, t)) == Add(Add(p, r), Add(q, t))
  {
  }

  /** Without records every day sums to 0. */
  lemma {:induction false} DaySumEmpty(ds: seq<string>)
    ensures DaySum([], ds) == Num(0)
    decreases |ds|
  {
    if ds != [] {
      DaySumEmpty(ds[1..]);
    }
  }

  /** Summing the day totals over distinct days that include every listed day
      gives the total of the records with a valid day. */
  lemma {:induction false} DaySumAll(h: seq<Trx>, ds: seq<string>)
    requires Distinct(ds)
    requires forall d :: Booked(h, d) ==> d in ds
    ensures DaySum(h, ds) == TotalAmount(Dated(h))
    decreases |h|
  {
    if h == [] {
      DaySumEmpty(ds);
    } else {
      var init, x := h[..|h| - 1], h[|h| - 1];
      forall d | Booked(init, d)
        ensures d in ds
      {
        assert Booked(h, d);
      }
      if x.day.Some? {
        assert Booked(h, x.day.value);
      }
      DaySumAll(init, ds);
      DaySumSnoc(h, ds);
      DaySumAllStep(h, ds);
    }
  }

  /** The inductive step of DaySumAll: one more record on a listed day. */
  lemma DaySumAllStep(h: seq<Trx>, ds: seq<string>)
    requires h != []
    requires h[|h| - 1].day.Some? ==> h[|h| - 1].day.value in ds
    requires DaySum(h[..|h| - 1], ds) == TotalAmount(Dated(h[..|h| - 1]))
    requires DaySum(h, ds) == Add(DaySum(h[..|h| - 1], ds), ListedShare(h, ds))
    ensures DaySum(h, ds) == TotalAmount(Dated(h))
  {
    var a, x := Dated(h[..|h| - 1]), h[|h| - 1];
    if x.day.Some? {
      assert Dated(h) == a + [x];
      assert (a + [x])[..|a|] == a;
      assert TotalAmount(a + [x]) == Add(TotalAmount(a), Amount(x));
      assert ListedShare(h, ds) == Amount(x);
    } else {
      assert Dated(h) == a + [] == a;
      assert ListedShare(h, ds) == Num(0);
      AddZero(TotalAmount(a));
    }
  }

  /** The records of a day all come from the history. */
  lemma {:induction false} DayItemsFrom(h: seq<Trx>, d: string)
    ensures forall x :: x in DayItems(h, d) ==> x in h
    decreases |h|
  {
    if h != [] {
      DayItemsFrom(h[..|h| - 1], d);
      forall x | x in h[..|h| - 1]
        ensures x in h
      {
        var i :| 0 <= i < |h| - 1 && h[..|h| - 1][i] == x;
        assert h[i] == x;
      }
    }
  }

  /** When every amount reads as a number, a bucket holds its records' total. */
  lemma {:induction false} BucketTotalNumeric(items: seq<Trx>)
    requires forall x :: x in items ==> Amount(x).Num?
    ensures BucketTotal(items) == TotalAmount(items)
    decreases |items|
  {
    if items != [] {
      var init := items[..|items| - 1];
      forall x | x in init
        ensures Amount(x).Num?
      {
        var i :| 0 <= i < |init| && init[i] == x;
        assert items[i] == x;
      }
      BucketTotalNumeric(init);
      TotalAmountNaN(init);
      var last := items[|items| - 1];
      assert OrZero(TotalAmount(init)) == TotalAmount(init);
      assert BucketTotal(items) == Bump(BucketTotal(init), last);
    }
  }

  /** Once a record without a numeric amount has made a bucket NaN, the next
      record of that day starts the bucket afresh (`NaN || 0` is 0), whereas
      the report's total stays NaN from then on. */
  lemma BucketRestartsAfterNaN(items: seq<Trx>, x: Trx, y: Trx)
    requires Amount(x).NaN?
    ensures BucketTotal(items + [x]) == NaN
    ensures BucketTotal(items + [x] + [y]) == Amount(y)
    ensures TotalAmount(items + [x]) == NaN && TotalAmount(items + [x] + [y]) == NaN
  {
    BucketTotalSnoc(items, x);
    BucketTotalSnoc(items + [x], y);
    var a := items + [x];
    assert a[..|a| - 1] == items;
    var b := a + [y];
    assert b[..|b| - 1] == a;
  }

  /** The chart's points add up to the dated records' total when every amount
      reads as a number. */
  lemma {:induction false} ChartAddsUp(h: seq<Trx>, ps: seq<Point>)
    requires Charted(h, ps)
    requires forall x :: x in h ==> Amount(x).Num?
    ensures PointsTotal(ps) == TotalAmount(Dated(h))
  {
    var ds := seq(|ps|, i requires 0 <= i < |ps| => ps[i].date);
    PointsAsDays(h, ps, ds);
    ChartedDays(h, ps, ds);
    DaySumAll(h, ds);
  }

  /** The dates of charted points are distinct and cover every booked day. */
  lemma ChartedDays(h: seq<Trx>, ps: seq<Point>, ds: seq<string>)
    requires Charted(h, ps)
    requires |ds| == |ps| && forall i :: 0 <= i < |ps| ==> ds[i] == ps[i].date
    ensures Distinct(ds)
    ensures forall d :: Booked(h, d) ==> d in ds
  {
    forall d | Booked(h, d)
      ensures d in ds
    {
      var i :| 0 <= i < |ps| && ps[i].date == d;
      assert ds[i] == d;
    }
  }

  /** Each point holds its day's total, so the points add up as the days do. */
  lemma {:induction false} PointsAsDays(h: seq<Trx>, ps: seq<Point>, ds: seq<string>)
    requires forall i :: 0 <= i < |ps| ==> ps[i].amount == BucketTotal(DayItems(h, ps[i].date))
    requires forall x :: x in h ==> Amount(x).Num?
    requires |ds| == |ps| && forall i :: 0 <= i < |ps| ==> ds[i] == ps[i].date
    ensures PointsTotal(ps) == DaySum(h, ds)
    decreases |ps|
  {
    if ps != [] {
      PointsAsDays(h, ps[1..], ds[1..]);
      DayItemsFrom(h, ds[0]);
      BucketTotalNumeric(DayItems(h, ds[0]));
    }
  }

  // ---------------------------------------------------------------------------
  // Account-number mask

  /** The four bullets (U+2022) that stand in for the hidden digits. */
  const Bullets: string := "\U{2022}\U{2022}\U{2022}\U{2022}"

  /** The length of the run of decimal digits that starts at i. */
  function DigitRun(s: string, i: nat): (n: nat)
    requires i <= |s|
    ensures i + n <= |s|
    ensures forall k :: i <= k < i + n ==> IsDigit(s[k])
    ensures i + n == |s| || !IsDigit(s[i + n])
    decreases |s| - i
  {
    if i < |s| && IsDigit(s[i]) then 1 + DigitRun(s, i + 1) else 0
  }

  /** Where `/(\d{4})\d+(\d{4})/` first matches at or after i: the first
      position with nine digits in a row. */
  function FindLongRun(s: string, i: nat): (q: Option<nat>)
    requires i <= |s|
    ensures q.Some? ==> i <= q.value && q.value + 9 <= |s| && DigitRun(s, q.value) >= 9
    decreases |s| - i
  {
    if |s| - i < 9 then None
    else if DigitRun(s, i) >= 9 then Some(i)
    else FindLongRun(s, i + 1)
  }

  /** `s.replace(/(\d{4})\d+(\d{4})/, '$1••••$2')`: the middle of the first run
      of nine or more digits is replaced, keeping its first and last four. */
  function MaskDigits(s: string): (r: string)
    ensures |s| < 9 ==> r == s
    ensures FindLongRun(s, 0).None? ==> r == s
  {
    match FindLongRun(s, 0)
    case None => s
    case Some(q) =>
      var e := q + DigitRun(s, q);
      s[..q + 4] + Bullets + s[e - 4..]
  }

  /** `maskAcc`: "-" for a falsy account, otherwise its string form masked. */
  function MaskAcc(acc: Json): (r: string)
    ensures !Truthy(acc) ==> r == "-"
    ensures acc.Str? && acc.s != "" ==> r == MaskDigits(acc.s)
  {
    if Truthy(acc) then MaskDigits(ToJsString(acc)) else "-"
  }

  /** The search finds the leftmost position with nine digits in a row, and
      finds none only when there is no such position. */
  lemma {:induction false} FindLongRunLeftmost(s: string, i: nat)
    requires i <= |s|
    ensures FindLongRun(s, i).Some? ==>
      var q := FindLongRun(s, i).value;
      && (forall k :: q <= k < q + 9 ==> IsDigit(s[k]))
      && (forall p :: i <= p < q ==> DigitRun(s, p) < 9)
    ensures FindLongRun(s, i).None? ==> forall p :: i <= p <= |s| ==> DigitRun(s, p) < 9
    decreases |s| - i
  {
    if |s| - i >= 9 && DigitRun(s, i) < 9 {
      FindLongRunLeftmost(s, i + 1);
    } else if |s| - i < 9 {
      forall p | i <= p <= |s|
        ensures DigitRun(s, p) < 9
      {
      }
    }
  }

  /** An account of nine or more digits shows its first four and last four. */
  lemma MaskAllDigits(s: string)
    requires AllDigits(s) && |s| >= 9
    ensures MaskDigits(s) == s[..4] + Bullets + s[|s| - 4..]
  {
    AllDigitsRun(s, 0);
  }

  /** A run of digits to the end of the string reaches the end. */
  lemma {:induction false} AllDigitsRun(s: string, i: nat)
    requires i <= |s| && AllDigits(s)
    ensures DigitRun(s, i) == |s| - i
    decreases |s| - i
  {
    if i < |s| {
      AllDigitsRun(s, i + 1);
    }
  }

  /** A numeric account of nine or more digits shows its first four and last
      four; a shorter one is shown whole. */
  lemma MaskAccNumber(n: nat)
    ensures |NatToDecimal(n)| >= 9 <==> n >= Pow10(8)
    ensures var s := NatToDecimal(n);
            && (|s| >= 9 ==> MaskAcc(Num(n)) == s[..4] + Bullets + s[|s| - 4..])
            && (0 < n && |s| < 9 ==> MaskAcc(Num(n)) == s)
  {
    var s := NatToDecimal(n);
    DecimalLength(n, 8);
    if |s| >= 9 {
      MaskAllDigits(s);
    }
  }

  /** A masked account keeps the text before the hidden digits and after them,
      with the four bullets in between. */
  lemma MaskKeepsEnds(s: string)
    requires FindLongRun(s, 0).Some?
    ensures var q := FindLongRun(s, 0).value;
            var e := q + DigitRun(s, q);
            && MaskDigits(s)[..q + 4] == s[..q + 4]
            && MaskDigits(s)[q + 4..q + 8] == Bullets
            && MaskDigits(s)[|MaskDigits(s)| - (|s| - e + 4)..] == s[e - 4..]
            && |MaskDigits(s)| == |s| - (e - q) + 12
  {
    FindLongRunLeftmost(s, 0);
  }

  // ---------------------------------------------------------------------------
  // Fetching the history

  /** The message shown when the range starts after it ends. */
  const RangeError: string := "Tanggal From tidak boleh lebih besar dari To."

  /** The message shown when the history cannot be fetched. */
  const FetchError: string := "Gagal mengambil data. Coba lagi."

  /** How the history request ends: rejected, answered with something that is
      not an array, or answered with the records. */
  datatype Reply = Rejected | NotAnArray | Rows(rows: seq<Trx>)

  /** The path the history is posted to for a merchant. */
  function HistoryPath(merchantId: string): (path: string)
    ensures |path| == |merchantId| + 13
    ensures path[..9] == "/history/" && path[|path| - 4..] == "/trx"
    ensures path[9..|path| - 4] == merchantId
  {
    "/history/" + merchantId + "/trx"
  }

  /** The report page's own state: the chosen range (as milliseconds), the
      loading flag, the error message, the fetched history, and the paths
      of the requests it has sent. */
  class ReportPage {
    var dateFrom: int
    var dateTo: int
    var loadingHistory: bool
    var error: string
    var history: seq<Trx>
    var requests: seq<string>

    /** The page opens on the given range with nothing fetched. */
    constructor(from: int, to: int)
      ensures dateFrom == from && dateTo == to
      ensures !loadingHistory && error == "" && history == [] && requests == []
    {
      dateFrom, dateTo := from, to;
      loadingHistory := false;
      error := "";
      history := [];
      requests := [];
    }

    /** `handleTransactionHistory`. A range that starts after it ends is
        refused before anything else happens. Otherwise a missing session
        user or merchant, or a rejected request, ends in the generic error;
        in mock mode the generated records are taken without a request; else
        the reply's records are taken, or none when the reply is not an
        array. Loading is over in every case. */
    method HandleTransactionHistory(kdUser: Json, merchantId: Json, mockEnabled: bool,
                                    mock: seq<Trx>, reply: Reply)
      modifies this
      ensures dateFrom == old(dateFrom) && dateTo == old(dateTo)
      ensures !loadingHistory
      ensures old(dateFrom) > old(dateTo) ==>
        error == RangeError && history == old(history) && requests == old(requests)
      ensures old(dateFrom) <= old(dateTo) && (!Truthy(kdUser) || !Truthy(merchantId)) ==>
        error == FetchError && history == old(history) && requests == old(requests)
      ensures old(dateFrom) <= old(dateTo) && Truthy(kdUser) && Truthy(merchantId) && mockEnabled ==>
        error == "" && history == mock && requests == old(requests)
      ensures old(dateFrom) <= old(dateTo) && Truthy(kdUser) && Truthy(merchantId) && !mockEnabled ==>
        && requests == old(requests) + [HistoryPath(ToJsString(merchantId))]
        && (reply.Rejected? ==> error == FetchError && history == old(history))
        && (reply.NotAnArray? ==> error == "" && history == [])
        && (reply.Rows? ==> error == "" && history == reply.rows)
    {
      error := "";
      if dateFrom > dateTo {
        error := RangeError;
        loadingHistory := false;
        return;
      }
      loadingHistory := true;
      if !Truthy(kdUser) || !Truthy(merchantId) {
        error := FetchError;
      } else if mockEnabled {
        history := mock;
      } else {
        requests := requests + [HistoryPath(ToJsString(merchantId))];
        match reply
        case Rejected => error := FetchError;
        case NotAnArray => history := [];
        case Rows(rows) => history := rows;
      }
      loadingHistory := false;
    }

    /** `handleTransactionHistoryMock`: the same range check, then the
        generated records are taken without a request. */
    method HandleTransactionHistoryMock(mock: seq<Trx>)
      modifies this
      ensures dateFrom == old(dateFrom) && dateTo == old(dateTo)
      ensures !loadingHistory && requests == old(requests)
      ensures old(dateFrom) > old(dateTo) ==> error == RangeError && history == old(history)
      ensures old(dateFrom) <= old(dateTo) ==> error == "" && history == mock
    {
      error := "";
      if dateFrom > dateTo {
        error := RangeError;
        loadingHistory := false;
        return;
      }
      loadingHistory := true;
      history := mock;
      loadingHistory := false;
    }
  }
}
