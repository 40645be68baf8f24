/**
 * The charts page's aggregation: completion rows folded into a per-day
 * score, the active-day counters of the current week and month, the
 * trailing 30-day series, and the week and month series (bucketed, summed,
 * sorted by key and cut to the newest 12).
 *
 * Days are day numbers (see Calendar); the page keys its maps by the ISO
 * stamp of the day, which DayStamps proves injective and ordered like the
 * day numbers, so keying and sorting by day number is the same thing.
 * `today` is a parameter.
 */
module Charts {
  import opened Calendar
  import opened Percentages

  predicate Distinct(s: seq<int>) {
    forall i, j :: 0 <= i < j < |s| ==> s[i] != s[j]
  }

  /** A JavaScript Map from day to score: its keys in insertion order and its values. */
  datatype DayTally = DayTally(days: seq<int>, score: map<int, nat>)

  ghost predicate WellFormed(t: DayTally) {
    Distinct(t.days) && forall d :: d in t.score <==> d in t.days
  }

  /** `dailyScore.get(day) ?? 0`. */
  function ScoreOn(score: map<int, nat>, d: int): nat {
    if d in score then score[d] else 0
  }

  /** Sum of the scores of the listed days. */
  function DayTotal(days: seq<int>, score: map<int, nat>): nat {
    if days == [] then 0
    else DayTotal(days[..|days| - 1], score) + ScoreOn(score, days[|days| - 1])
  }

  lemma {:induction false} DayTotalOther(days: seq<int>, score: map<int, nat>, d: int, v: nat)
    requires d !in days
    ensures DayTotal(days, score[d := v]) == DayTotal(days, score)
  {
    if days != [] {
      DayTotalOther(days[..|days| - 1], score, d, v);
    }
  }

  lemma {:induction false} DayTotalUpdate(days: seq<int>, score: map<int, nat>, d: int, v: nat)
    requires Distinct(days) && d in days
    ensures DayTotal(days, score[d := v]) + ScoreOn(score, d) == DayTotal(days, score) + v
  {
    var p := days[..|days| - 1];
    if days[|days| - 1] == d {
      assert d !in p;
      DayTotalOther(p, score, d, v);
    } else {
      assert d in p;
      DayTotalUpdate(p, score, d, v);
    }
  }

  /**
   * One step of the fold, `set(day, (get(day) ?? 0) + 1)`: a new key goes to
   * the end of the iteration order, so the keys stay distinct and are
   * exactly the days scored.
   */
  lemma FoldStepKeys(days: seq<int>, score: map<int, nat>, day: int, days': seq<int>, score': map<int, nat>)
    requires Distinct(days) && forall d :: d in score <==> d in days
    requires days' == if day in score then days else days + [day]
    requires score' == score[day := ScoreOn(score, day) + 1]
    ensures Distinct(days') && forall d :: d in score' <==> d in days'
  {
  }

  /** The step counts one more row on `day`: the tally of `seen` becomes the tally of `seen + [day]`. */
  lemma FoldStepCounts(score: map<int, nat>, seen: seq<int>, day: int, score': map<int, nat>)
    requires forall d :: ScoreOn(score, d) == multiset(seen)[d]
    requires score' == score[day := ScoreOn(score, day) + 1]
    ensures forall d :: ScoreOn(score', d) == multiset(seen + [day])[d]
  {
    assert multiset(seen + [day]) == multiset(seen) + multiset{day};
  }

  /** The step adds one to the sum of the scores. */
  lemma FoldStepTotal(days: seq<int>, score: map<int, nat>, day: int, days': seq<int>, score': map<int, nat>)
    requires Distinct(days) && forall d :: d in score <==> d in days
    requires days' == if day in score then days else days + [day]
    requires score' == score[day := ScoreOn(score, day) + 1]
    ensures DayTotal(days', score') == DayTotal(days, score) + 1
  {
    if day in score {
      DayTotalUpdate(days, score, day, ScoreOn(score, day) + 1);
    } else {
      DayTotalOther(days, score, day, 1);
      assert days'[..|days|] == days;
    }
  }

  /**
   * The fold of lines 53-57: each row adds one to its day. The result holds
   * every day that has a row, with the number of its rows; their sum is the
   * number of rows.
   */
  method FoldDailyScore(rows: seq<int>) returns (tally: DayTally)
    ensures WellFormed(tally)
    ensures forall d :: ScoreOn(tally.score, d) == multiset(rows)[d]
    ensures forall d :: d in tally.score ==> tally.score[d] >= 1
    ensures DayTotal(tally.days, tally.score) == |rows|
  {
    var days: seq<int> := [];
    var score: map<int, nat> := map[];
    for i := 0 to |rows|
      invariant Distinct(days) && forall d :: d in score <==> d in days
      invariant forall d :: ScoreOn(score, d) == multiset(rows[..i])[d]
      invariant forall d :: d in score ==> score[d] >= 1
      invariant DayTotal(days, score) == i
    {
      var day := rows[i];
      assert rows[..i + 1] == rows[..i] + [day];
      var prev := if day in score then score[day] else 0;
      var days' := if day in score then days else days + [day];
      var score' := score[day := prev + 1];
      FoldStepKeys(days, score, day, days', score');
      FoldStepCounts(score, rows[..i], day, score');
      FoldStepTotal(days, score, day, days', score');
      days, score := days', score';
    }
    assert rows[..|rows|] == rows;
    tally := DayTally(days, score);
  }

  /** The days from `first` through `last` on which anything was completed. */
  ghost function ActiveDays(score: map<int, nat>, first: int, last: int): set<int> {
    set d | first <= d <= last && ScoreOn(score, d) > 0
  }

  /** Active days in [lo, hi) that are not after `today`: what a counting loop has seen so far. */
  ghost function Seen(score: map<int, nat>, lo: int, hi: int, today: int): set<int> {
    set d | lo <= d < hi && d <= today && ScoreOn(score, d) > 0
  }

  lemma SeenStep(score: map<int, nat>, lo: int, hi: int, today: int)
    requires lo <= hi
    ensures hi <= today && ScoreOn(score, hi) > 0 ==>
      |Seen(score, lo, hi + 1, today)| == |Seen(score, lo, hi, today)| + 1
    ensures !(hi <= today && ScoreOn(score, hi) > 0) ==>
      Seen(score, lo, hi + 1, today) == Seen(score, lo, hi, today)
  {
    if hi <= today && ScoreOn(score, hi) > 0 {
      assert Seen(score, lo, hi + 1, today) == Seen(score, lo, hi, today) + {hi};
    }
  }

  /** At most one active day per calendar day of the window. */
  lemma {:induction false} ActiveDaysBound(score: map<int, nat>, first: int, last: int)
    requires first <= last + 1
    ensures |ActiveDays(score, first, last)| <= last - first + 1
    decreases last - first
  {
    if first <= last {
      ActiveDaysBound(score, first, last - 1);
      if ScoreOn(score, last) > 0 {
        assert ActiveDays(score, first, last) == ActiveDays(score, first, last - 1) + {last};
      } else {
        assert ActiveDays(score, first, last) == ActiveDays(score, first, last - 1);
      }
    } else {
      assert ActiveDays(score, first, last) == {};
    }
  }

  /**
   * `activeDaysThisWeek` (lines 60, 63, 66-70): the days of today's
   * Monday-start week, up to and including today, that have a score.
   */
  method ActiveDaysThisWeek(score: map<int, nat>, today: int) returns (count: nat)
    ensures count == |ActiveDays(score, StartOfWeek(today), today)|
    ensures count <= Weekday(today) + 1 <= 7
  {
    var weekStart := StartOfWeek(today);
    count := 0;
    for i := 0 to 7
      invariant count == |Seen(score, weekStart, weekStart + i, today)|
    {
      var d := weekStart + i;
      SeenStep(score, weekStart, d, today);
      if d <= today && ScoreOn(score, d) > 0 {
        count := count + 1;
      }
    }
    assert Seen(score, weekStart, weekStart + 7, today) == ActiveDays(score, weekStart, today);
    ActiveDaysBound(score, weekStart, today);
  }

  /**
   * `activeDaysThisMonth` (lines 61, 64-65, 72-77): the days of today's
   * month, from the first up to and including today, that have a score.
   */
  method ActiveDaysThisMonth(score: map<int, nat>, today: int) returns (count: nat)
    ensures count == |ActiveDays(score, StartOfMonth(today), today)|
    ensures count <= FromDayNumber(today).day
  {
    var dt := FromDayNumber(today);
    var monthStart := StartOfMonth(today);
    var monthDayCount := MonthLength(today);
    count := 0;
    for i := 0 to monthDayCount
      invariant count == |Seen(score, monthStart, monthStart + i, today)|
    {
      var d := DayNumber(Date(dt.year, dt.month, i + 1));
      assert d == monthStart + i && d + 1 == monthStart + (i + 1);
      SeenStep(score, monthStart, d, today);
      if d < monthStart || d > today {
        continue;
      }
      if ScoreOn(score, d) > 0 {
        count := count + 1;
      }
    }
    assert today < monthStart + monthDayCount;
    assert Seen(score, monthStart, monthStart + monthDayCount, today)
        == ActiveDays(score, monthStart, today);
    ActiveDaysBound(score, monthStart, today);
  }

  /** A chart point: bucket key (a day number), score and percentage. Labels are left out. */
  datatype Point = Point(key: int, score: nat, percent: nat)

  /**
   * `daySeries` (lines 79-90): the 30 days ending today, oldest first, each
   * with its score and its percentage of the habit count.
   */
  method DaySeries(score: map<int, nat>, today: int, totalHabits: nat) returns (series: seq<Point>)
    ensures |series| == 30
    ensures forall k :: 0 <= k < 30 ==> series[k].key == today - 29 + k
    ensures forall k :: 0 <= k < 30 ==>
      series[k].score == ScoreOn(score, series[k].key)
      && series[k].percent == Percent(series[k].score, totalHabits)
  {
    series := [];
    var i := 29;
    while i >= 0
      invariant -1 <= i <= 29
      invariant |series| == 29 - i
      invariant forall k :: 0 <= k < |series| ==>
        series[k].key == today - 29 + k
        && series[k].score == ScoreOn(score, series[k].key)
        && series[k].percent == Percent(series[k].score, totalHabits)
    {
      var d := today - i;
      var s := ScoreOn(score, d);
      series := series + [Point(d, s, Percent(s, totalHabits))];
      i := i - 1;
    }
  }

  datatype Granularity = Week | Month

  /** The bucket a day falls in: its week's Monday, or the first of its month. */
  function BucketKey(g: Granularity, d: int): int {
    match g
    case Week => StartOfWeek(d)
    case Month => StartOfMonth(d)
  }

  /** Days of capacity per habit in a bucket: 7 for a week and a fixed 30 for every month. */
  function BucketDays(g: Granularity): nat {
    match g
    case Week => 7
    case Month => 30
  }

  /** BucketKey at granularity g, as a function of the day. */
  function KeyOf(g: Granularity): int -> int {
    d => BucketKey(g, d)
  }

  /** Buckets that at least one listed day falls in, for any bucketing function `key`. */
  ghost function Buckets(key: int -> int, days: seq<int>): set<int> {
    if days == [] then {} else Buckets(key, days[..|days| - 1]) + {key(days[|days| - 1])}
  }

  lemma {:induction false} InBuckets(key: int -> int, days: seq<int>, w: int)
    ensures w in Buckets(key, days) <==> exists d :: d in days && key(d) == w
  {
    if days != [] {
      var p, last := days[..|days| - 1], days[|days| - 1];
      InBuckets(key, p, w);
      assert days == p + [last];
      if w in Buckets(key, days) {
        if w == key(last) {
          assert last in days;
        } else {
          var d :| d in p && key(d) == w;
          assert d in days;
        }
      } else {
        forall d | d in days ensures key(d) != w {
          assert d in p || d == last;
        }
      }
    }
  }

  /** Day sequences with the same elements fall in the same buckets. */
  lemma BucketsOfSameDays(key: int -> int, a: seq<int>, b: seq<int>)
    requires forall d :: d in a <==> d in b
    ensures Buckets(key, a) == Buckets(key, b)
  {
    forall w ensures w in Buckets(key, a) <==> w in Buckets(key, b) {
      InBuckets(key, a, w);
      InBuckets(key, b, w);
    }
  }

  /** Every week bucket is a Monday and every month bucket a first of the month, each of some listed day. */
  lemma BucketKeyShape(g: Granularity, days: seq<int>, w: int)
    requires w in Buckets(KeyOf(g), days)
    ensures exists d :: d in days && BucketKey(g, d) == w
    ensures g == Week ==> Weekday(w) == 0
    ensures g == Month ==> FromDayNumber(w).day == 1
  {
    InBuckets(KeyOf(g), days, w);
    var d :| d in days && BucketKey(g, d) == w;
  }

  /** Sum of the scores of the listed days that fall in bucket w. */
  function BucketTotal(key: int -> int, days: seq<int>, score: map<int, nat>, w: int): nat {
    if days == [] then 0
    else
      var d := days[|days| - 1];
      BucketTotal(key, days[..|days| - 1], score, w) + (if key(d) == w then ScoreOn(score, d) else 0)
  }

  lemma {:induction false} BucketTotalOutside(key: int -> int, days: seq<int>, score: map<int, nat>, w: int)
    requires w !in Buckets(key, days)
    ensures BucketTotal(key, days, score, w) == 0
  {
    if days != [] {
      var p := days[..|days| - 1];
      BucketTotalOutside(key, p, score, w);
    }
  }

  /** Number of rows whose day falls in bucket w: the reference for a bucket's score. */
  ghost function RowCount(key: int -> int, rows: seq<int>, w: int): nat {
    if rows == [] then 0
    else RowCount(key, rows[..|rows| - 1], w) + (if key(rows[|rows| - 1]) == w then 1 else 0)
  }

  lemma {:induction false} BucketTotalSame(key: int -> int, days: seq<int>, s1: map<int, nat>, s2: map<int, nat>, w: int)
    requires forall d :: d in days ==> ScoreOn(s1, d) == ScoreOn(s2, d)
    ensures BucketTotal(key, days, s1, w) == BucketTotal(key, days, s2, w)
  {
    if days != [] {
      var p := days[..|days| - 1];
      assert forall d :: d in p ==> d in days;
      BucketTotalSame(key, p, s1, s2, w);
      assert days[|days| - 1] in days;
    }
  }

  /** One more row on a listed day r adds one to the total of r's bucket only. */
  lemma {:induction false} BucketTotalBump(key: int -> int, days: seq<int>, s1: map<int, nat>, s2: map<int, nat>, r: int, w: int)
    requires Distinct(days) && r in days
    requires ScoreOn(s1, r) == ScoreOn(s2, r) + 1
    requires forall d :: d != r ==> ScoreOn(s1, d) == ScoreOn(s2, d)
    ensures BucketTotal(key, days, s1, w) == BucketTotal(key, days, s2, w) + (if key(r) == w then 1 else 0)
  {
    var p, last := days[..|days| - 1], days[|days| - 1];
    assert Distinct(p) by {
      forall i, j | 0 <= i < j < |p| ensures p[i] != p[j] {
        assert p[i] == days[i] && p[j] == days[j];
      }
    }
    if last == r {
      assert r !in p by {
        forall i | 0 <= i < |p| ensures p[i] != r {
          assert p[i] == days[i];
        }
      }
      BucketTotalSame(key, p, s1, s2, w);
    } else {
      assert r in p by {
        var i :| 0 <= i < |days| && days[i] == r;
        assert i < |p| && p[i] == r;
      }
      BucketTotalBump(key, p, s1, s2, r, w);
    }
  }

  /**
   * Over distinct days that cover the rows, with each day scored by its
   * number of rows, a bucket's total is its number of rows.
   */
  lemma {:induction false} BucketTotalOfRows(key: int -> int, rows: seq<int>, days: seq<int>, score: map<int, nat>, w: int)
    requires Distinct(days)
    requires forall d :: d in rows ==> d in days
    requires forall d :: ScoreOn(score, d) == multiset(rows)[d]
    ensures BucketTotal(key, days, score, w) == RowCount(key, rows, w)
  {
    if rows == [] {
      BucketTotalSame(key, days, score, map[], w);
      BucketTotalNone(key, days, w);
    } else {
      var p, r := rows[..|rows| - 1], rows[|rows| - 1];
      assert rows == p + [r];
      var before: map<int, nat> := map d | d in p :: multiset(p)[d];
      assert forall d :: ScoreOn(before, d) == multiset(p)[d];
      assert forall d :: d in p ==> d in rows;
      BucketTotalOfRows(key, p, days, before, w);
      assert multiset(rows) == multiset(p) + multiset{r};
      assert r in rows;
      BucketTotalBump(key, days, score, before, r, w);
    }
  }

  lemma {:induction false} BucketTotalNone(key: int -> int, days: seq<int>, w: int)
    ensures BucketTotal(key, days, map[], w) == 0
  {
    if days != [] {
      BucketTotalNone(key, days[..|days| - 1], w);
    }
  }

  /** A bucket's entry: key and summed score, as `Array.from(map.entries())` lists it. */
  type Entry = (int, nat)

  function EntriesOf(keys: seq<int>, m: map<int, nat>): (r: seq<Entry>)
    ensures |r| == |keys|
    ensures forall i :: 0 <= i < |keys| ==> r[i] == (keys[i], ScoreOn(m, keys[i]))
  {
    if keys == [] then [] else [(keys[0], ScoreOn(m, keys[0]))] + EntriesOf(keys[1..], m)
  }

  function ScoreSum(s: seq<Entry>): nat {
    if s == [] then 0 else s[0].1 + ScoreSum(s[1..])
  }

  predicate DistinctKeys(s: seq<Entry>) {
    forall i, j :: 0 <= i < j < |s| ==> s[i].0 != s[j].0
  }

  predicate KeysAscending(s: seq<Entry>) {
    forall i, j :: 0 <= i < j < |s| ==> s[i].0 < s[j].0
  }

  /** Insert e into a key-sorted sequence before the first entry whose key is not smaller. */
  function InsertByKey(e: Entry, s: seq<Entry>): (r: seq<Entry>)
    ensures multiset(r) == multiset(s) + multiset{e}
    ensures |r| == |s| + 1
  {
    if s == [] then [e]
    else if e.0 <= s[0].0 then [e] + s
    else
      assert s == [s[0]] + s[1..];
      [s[0]] + InsertByKey(e, s[1..])
  }

  lemma {:induction false} InsertSum(e: Entry, s: seq<Entry>)
    ensures ScoreSum(InsertByKey(e, s)) == ScoreSum(s) + e.1
  {
    if s == [] {
    } else if e.0 <= s[0].0 {
      assert ([e] + s)[1..] == s;
    } else {
      var r := InsertByKey(e, s);
      assert r[1..] == InsertByKey(e, s[1..]);
      InsertSum(e, s[1..]);
    }
  }

  /** An entry with a smaller key than all of an ascending sequence can go in front. */
  lemma PrependAscending(h: Entry, t: seq<Entry>)
    requires KeysAscending(t)
    requires forall x :: x in t ==> h.0 < x.0
    ensures KeysAscending([h] + t)
  {
    var r := [h] + t;
    forall i, j | 0 <= i < j < |r| ensures r[i].0 < r[j].0 {
      assert r[j] == t[j - 1];
      if i > 0 {
        assert r[i] == t[i - 1];
      } else {
        assert t[j - 1] in t;
      }
    }
  }

  /** Inserting a new key into an ascending sequence keeps it ascending. */
  lemma {:induction false} InsertAscending(e: Entry, s: seq<Entry>)
    requires KeysAscending(s)
    requires forall x :: x in s ==> x.0 != e.0
    ensures KeysAscending(InsertByKey(e, s))
  {
    if s == [] {
    } else if e.0 <= s[0].0 {
      forall x | x in s ensures e.0 < x.0 {
        var j :| 0 <= j < |s| && s[j] == x;
        if j > 0 {
          assert s[0].0 < s[j].0;
        }
      }
      PrependAscending(e, s);
    } else {
      var tail := s[1..];
      assert KeysAscending(tail) by {
        forall i, j | 0 <= i < j < |tail| ensures tail[i].0 < tail[j].0 {
          assert tail[i] == s[i + 1] && tail[j] == s[j + 1];
        }
      }
      assert forall x :: x in tail ==> x in s;
      InsertAscending(e, tail);
      var t := InsertByKey(e, tail);
      forall x | x in t ensures s[0].0 < x.0 {
        assert x in multiset(t);
        if x != e {
          assert x in multiset(tail);
          var j :| 0 <= j < |tail| && tail[j] == x;
          assert s[j + 1] == x;
        }
      }
      PrependAscending(s[0], t);
      assert InsertByKey(e, s) == [s[0]] + t;
    }
  }

  /** `sort(([a], [b]) => a.localeCompare(b))` on entries: a permutation of them. */
  function SortByKey(s: seq<Entry>): (r: seq<Entry>)
    ensures multiset(r) == multiset(s)
    ensures |r| == |s|
  {
    if s == [] then []
    else
      assert s == [s[0]] + s[1..];
      InsertByKey(s[0], SortByKey(s[1..]))
  }

  lemma {:induction false} SortSum(s: seq<Entry>)
    ensures ScoreSum(SortByKey(s)) == ScoreSum(s)
  {
    if s != [] {
      SortSum(s[1..]);
      InsertSum(s[0], SortByKey(s[1..]));
    }
  }

  /** With distinct keys the sorted entries are strictly ascending by key. */
  lemma {:induction false} SortAscending(s: seq<Entry>)
    requires DistinctKeys(s)
    ensures KeysAscending(SortByKey(s))
  {
    if s != [] {
      var t := SortByKey(s[1..]);
      assert DistinctKeys(s[1..]) by {
        forall i, j | 0 <= i < j < |s[1..]| ensures s[1..][i].0 != s[1..][j].0 {
          assert s[1..][i] == s[i + 1] && s[1..][j] == s[j + 1];
        }
      }
      SortAscending(s[1..]);
      forall x | x in t ensures x.0 != s[0].0 {
        assert x in multiset(s[1..]);
        var j :| 0 <= j < |s[1..]| && s[1..][j] == x;
        assert s[j + 1] == x;
      }
      InsertAscending(s[0], t);
    }
  }

  /** `slice(-n)`: the last n elements, or all of them when there are fewer. */
  function TakeLast<T>(s: seq<T>, n: nat): (r: seq<T>)
    ensures |r| == if |s| <= n then |s| else n
    ensures forall i :: 0 <= i < |r| ==> r[i] == s[|s| - |r| + i]
  {
    if |s| <= n then s else s[|s| - n..]
  }

  /** An element that `slice(-n)` does not keep lies before the kept ones. */
  lemma TakeLastDropsOldest<T>(s: seq<T>, n: nat, j: int)
    requires 0 <= j < |s| && s[j] !in TakeLast(s, n)
    ensures j < |s| - |TakeLast(s, n)|
  {
    var t := TakeLast(s, n);
    var cut := |s| - |t|;
    assert forall i :: cut <= i < |s| ==> s[i] == t[i - cut];
  }

  function ToPoints(s: seq<Entry>, capacity: nat): (r: seq<Point>)
    ensures |r| == |s|
    ensures forall k :: 0 <= k < |s| ==> r[k] == Point(s[k].0, s[k].1, Percent(s[k].1, capacity))
  {
    seq(|s|, k requires 0 <= k < |s| => Point(s[k].0, s[k].1, Percent(s[k].1, capacity)))
  }

  /** Lines 101-109 and 120-128: sort by key, keep the newest 12, attach percentages. */
  function SeriesOf(entries: seq<Entry>, capacity: nat): (r: seq<Point>)
    ensures |r| == if |entries| <= 12 then |entries| else 12
  {
    ToPoints(TakeLast(SortByKey(entries), 12), capacity)
  }

  function PointSum(s: seq<Point>): nat {
    if s == [] then 0 else s[0].score + PointSum(s[1..])
  }

  lemma {:induction false} PointSumOfPoints(s: seq<Entry>, capacity: nat)
    ensures PointSum(ToPoints(s, capacity)) == ScoreSum(s)
  {
    if s != [] {
      assert ToPoints(s, capacity)[1..] == ToPoints(s[1..], capacity);
      PointSumOfPoints(s[1..], capacity);
    }
  }

  /** The series is strictly ascending by key. */
  lemma SeriesAscending(entries: seq<Entry>, capacity: nat)
    requires DistinctKeys(entries)
    ensures forall i, j :: 0 <= i < j < |SeriesOf(entries, capacity)| ==>
      SeriesOf(entries, capacity)[i].key < SeriesOf(entries, capacity)[j].key
  {
    SortAscending(entries);
  }

  /** Every point is an entry of the input, with that entry's percentage. */
  lemma SeriesFromEntries(entries: seq<Entry>, capacity: nat)
    ensures forall k :: 0 <= k < |SeriesOf(entries, capacity)| ==>
      var p := SeriesOf(entries, capacity)[k];
      (p.key, p.score) in entries && p.percent == Percent(p.score, capacity)
  {
    var sorted := SortByKey(entries);
    var kept := TakeLast(sorted, 12);
    var series := ToPoints(kept, capacity);
    assert SeriesOf(entries, capacity) == series;
    forall k | 0 <= k < |series|
      ensures (series[k].key, series[k].score) in entries && series[k].percent == Percent(series[k].score, capacity)
    {
      assert series[k] == Point(kept[k].0, kept[k].1, Percent(kept[k].1, capacity));
      assert kept[k] == sorted[|sorted| - |kept| + k];
      assert kept[k] in multiset(entries);
    }
  }

  /** An entry left out of the series is older than every point kept. */
  lemma SeriesKeepsNewest(entries: seq<Entry>, capacity: nat, e: Entry)
    requires DistinctKeys(entries)
    requires e in entries
    requires forall k :: 0 <= k < |SeriesOf(entries, capacity)| ==> SeriesOf(entries, capacity)[k].key != e.0
    ensures forall k :: 0 <= k < |SeriesOf(entries, capacity)| ==> e.0 < SeriesOf(entries, capacity)[k].key
  {
    var sorted := SortByKey(entries);
    var kept := TakeLast(sorted, 12);
    var r := ToPoints(kept, capacity);
    assert SeriesOf(entries, capacity) == r;
    var cut := |sorted| - |kept|;
    SortAscending(entries);
    assert KeysAscending(sorted);
    assert e in multiset(sorted);
    var j :| 0 <= j < |sorted| && sorted[j] == e;
    assert e !in kept by {
      forall i | 0 <= i < |kept| ensures kept[i] != e {
        assert r[i].key == kept[i].0;
      }
    }
    TakeLastDropsOldest(sorted, 12, j);
    forall k | 0 <= k < |r| ensures e.0 < r[k].key {
      assert kept[k] == sorted[cut + k];
      assert r[k].key == kept[k].0;
      assert sorted[j].0 < sorted[cut + k].0;
    }
  }

  /** With 12 or fewer entries nothing is cut, so the points carry the whole score. */
  lemma SeriesSum(entries: seq<Entry>, capacity: nat)
    requires |entries| <= 12
    ensures PointSum(SeriesOf(entries, capacity)) == ScoreSum(entries)
  {
    SortSum(entries);
    PointSumOfPoints(SortByKey(entries), capacity);
  }

  /** Sum over the listed bucket keys of their bucket totals. */
  function SumBuckets(key: int -> int, days: seq<int>, score: map<int, nat>, ks: seq<int>): nat {
    if ks == [] then 0 else BucketTotal(key, days, score, ks[0]) + SumBuckets(key, days, score, ks[1..])
  }

  lemma {:induction false} SumBucketsOfNoDays(key: int -> int, score: map<int, nat>, ks: seq<int>)
    ensures SumBuckets(key, [], score, ks) == 0
  {
    if ks != [] {
      SumBucketsOfNoDays(key, score, ks[1..]);
    }
  }

  lemma {:induction false} SumBucketsSnoc(key: int -> int, p: seq<int>, d: int, score: map<int, nat>, ks: seq<int>)
    requires Distinct(ks)
    ensures SumBuckets(key, p + [d], score, ks)
         == SumBuckets(key, p, score, ks) + (if key(d) in ks then ScoreOn(score, d) else 0)
  {
    if ks != [] {
      assert (p + [d])[..|p|] == p;
      assert Distinct(ks[1..]);
      SumBucketsSnoc(key, p, d, score, ks[1..]);
      assert key(d) in ks <==> key(d) == ks[0] || key(d) in ks[1..] by {
        assert ks == [ks[0]] + ks[1..];
      }
      if key(d) == ks[0] {
        assert ks[0] !in ks[1..];
      }
    }
  }

  /**
   * Every day falls in exactly one bucket, so summing the bucket totals over
   * distinct keys that cover all buckets gives the sum of the day scores.
   */
  lemma {:induction false} BucketsPartitionTotal(key: int -> int, days: seq<int>, score: map<int, nat>, ks: seq<int>)
    requires Distinct(ks)
    requires forall w :: w in Buckets(key, days) ==> w in ks
    ensures SumBuckets(key, days, score, ks) == DayTotal(days, score)
  {
    if days == [] {
      SumBucketsOfNoDays(key, score, ks);
    } else {
      var p, d := days[..|days| - 1], days[|days| - 1];
      assert days == p + [d];
      BucketsPartitionTotal(key, p, score, ks);
      SumBucketsSnoc(key, p, d, score, ks);
    }
  }

  lemma {:induction false} EntriesSum(key: int -> int, days: seq<int>, score: map<int, nat>, ks: seq<int>, m: map<int, nat>)
    requires forall k :: k in ks ==> ScoreOn(m, k) == BucketTotal(key, days, score, k)
    ensures ScoreSum(EntriesOf(ks, m)) == SumBuckets(key, days, score, ks)
  {
    if ks != [] {
      assert ks[0] in ks;
      assert EntriesOf(ks, m)[1..] == EntriesOf(ks[1..], m);
      EntriesSum(key, days, score, ks[1..], m);
    }
  }

  lemma {:induction false} DistinctCard(s: seq<int>)
    requires Distinct(s)
    ensures |set x | x in s| == |s|
  {
    if s != [] {
      var p := s[..|s| - 1];
      assert Distinct(p);
      DistinctCard(p);
      assert (set x | x in s) == (set x | x in p) + {s[|s| - 1]};
      assert s[|s| - 1] !in p;
    }
  }

  /**
   * The grouping loop's result: distinct keys, one per bucket, each mapped
   * to its bucket total.
   */
  ghost predicate Grouped(key: int -> int, days: seq<int>, score: map<int, nat>, order: seq<int>, bucket: map<int, nat>) {
    && Distinct(order)
    && (forall w :: w in bucket <==> w in order)
    && (forall w :: w in order <==> w in Buckets(key, days))
    && (forall w :: w in bucket ==> bucket[w] == BucketTotal(key, days, score, w))
  }

  /** One step of the grouping loop: the next day adds its score to its bucket, a new bucket goes last. */
  lemma GroupStep(key: int -> int, days: seq<int>, score: map<int, nat>, order: seq<int>, bucket: map<int, nat>, i: nat)
    requires i < |days| && Grouped(key, days[..i], score, order, bucket)
    ensures var b := key(days[i]);
      Grouped(key, days[..i + 1], score,
        if b in bucket then order else order + [b],
        bucket[b := ScoreOn(bucket, b) + ScoreOn(score, days[i])])
  {
    var day, b, before := days[i], key(days[i]), days[..i];
    assert days[..i + 1] == before + [day];
    assert (before + [day])[..i] == before;
    if b !in bucket {
      BucketTotalOutside(key, before, score, b);
    }
  }

  /** A grouping's entries have distinct keys. */
  lemma GroupedDistinctKeys(key: int -> int, days: seq<int>, score: map<int, nat>, order: seq<int>, bucket: map<int, nat>)
    requires Grouped(key, days, score, order, bucket)
    ensures DistinctKeys(EntriesOf(order, bucket))
  {
    var entries := EntriesOf(order, bucket);
    forall i, j | 0 <= i < j < |entries| ensures entries[i].0 != entries[j].0 {
      assert entries[i].0 == order[i] && entries[j].0 == order[j];
    }
  }

  /** A grouping has one entry per bucket. */
  lemma GroupedEntryCount(key: int -> int, days: seq<int>, score: map<int, nat>, order: seq<int>, bucket: map<int, nat>)
    requires Grouped(key, days, score, order, bucket)
    ensures |EntriesOf(order, bucket)| == |Buckets(key, days)|
  {
    forall w ensures w in (set w | w in order) <==> w in Buckets(key, days) {
      assert w in order <==> w in Buckets(key, days);
    }
    assert (set w | w in order) == Buckets(key, days);
    DistinctCard(order);
  }

  /** Every entry of a grouping is a bucket with its total. */
  lemma GroupedEntriesInBuckets(key: int -> int, days: seq<int>, score: map<int, nat>, order: seq<int>, bucket: map<int, nat>)
    requires Grouped(key, days, score, order, bucket)
    ensures forall x :: x in EntriesOf(order, bucket) ==>
      x.0 in Buckets(key, days) && x.1 == BucketTotal(key, days, score, x.0)
  {
    var entries := EntriesOf(order, bucket);
    forall x | x in entries
      ensures x.0 in Buckets(key, days) && x.1 == BucketTotal(key, days, score, x.0)
    {
      var k :| 0 <= k < |entries| && entries[k] == x;
      assert x == (order[k], ScoreOn(bucket, order[k]));
      assert order[k] in order;
    }
  }

  /** Every bucket is an entry of the grouping, with its total. */
  lemma GroupedBucketsInEntries(key: int -> int, days: seq<int>, score: map<int, nat>, order: seq<int>, bucket: map<int, nat>)
    requires Grouped(key, days, score, order, bucket)
    ensures forall w :: w in Buckets(key, days) ==> (w, BucketTotal(key, days, score, w)) in EntriesOf(order, bucket)
  {
    var entries := EntriesOf(order, bucket);
    forall w | w in Buckets(key, days) ensures (w, BucketTotal(key, days, score, w)) in entries {
      var k :| 0 <= k < |order| && order[k] == w;
      assert entries[k] == (w, ScoreOn(bucket, w));
    }
  }

  /** The entries of a grouping: one per bucket, with distinct keys, and summing to the day total. */
  lemma GroupedEntries(key: int -> int, days: seq<int>, score: map<int, nat>, order: seq<int>, bucket: map<int, nat>)
    requires Grouped(key, days, score, order, bucket)
    ensures DistinctKeys(EntriesOf(order, bucket))
    ensures |EntriesOf(order, bucket)| == |Buckets(key, days)|
    ensures forall x :: x in EntriesOf(order, bucket) ==>
      x.0 in Buckets(key, days) && x.1 == BucketTotal(key, days, score, x.0)
    ensures forall w :: w in Buckets(key, days) ==> (w, BucketTotal(key, days, score, w)) in EntriesOf(order, bucket)
    ensures ScoreSum(EntriesOf(order, bucket)) == DayTotal(days, score)
  {
    GroupedDistinctKeys(key, days, score, order, bucket);
    GroupedEntryCount(key, days, score, order, bucket);
    GroupedEntriesInBuckets(key, days, score, order, bucket);
    GroupedBucketsInEntries(key, days, score, order, bucket);
    assert forall k :: k in order ==> ScoreOn(bucket, k) == BucketTotal(key, days, score, k);
    EntriesSum(key, days, score, order, bucket);
    BucketsPartitionTotal(key, days, score, order);
  }

  /** A grouping's series has one point per bucket, up to 12, in strictly ascending key order. */
  lemma GroupedSeriesShape(key: int -> int, days: seq<int>, score: map<int, nat>, order: seq<int>, bucket: map<int, nat>, capacity: nat)
    requires Grouped(key, days, score, order, bucket)
    ensures var series := SeriesOf(EntriesOf(order, bucket), capacity);
      && |series| == (if |Buckets(key, days)| <= 12 then |Buckets(key, days)| else 12)
      && (forall i, j :: 0 <= i < j < |series| ==> series[i].key < series[j].key)
  {
    GroupedDistinctKeys(key, days, score, order, bucket);
    GroupedEntryCount(key, days, score, order, bucket);
    SeriesAscending(EntriesOf(order, bucket), capacity);
  }

  /** Each point of a grouping's series is a bucket with its total and that total's percentage. */
  lemma GroupedSeriesPoints(key: int -> int, days: seq<int>, score: map<int, nat>, order: seq<int>, bucket: map<int, nat>, capacity: nat)
    requires Grouped(key, days, score, order, bucket)
    ensures var series := SeriesOf(EntriesOf(order, bucket), capacity);
      forall k :: 0 <= k < |series| ==>
        series[k].key in Buckets(key, days)
        && series[k].score == BucketTotal(key, days, score, series[k].key)
        && series[k].percent == Percent(series[k].score, capacity)
  {
    var entries := EntriesOf(order, bucket);
    var series := SeriesOf(entries, capacity);
    GroupedEntriesInBuckets(key, days, score, order, bucket);
    SeriesFromEntries(entries, capacity);
    forall k | 0 <= k < |series|
      ensures series[k].key in Buckets(key, days) && series[k].score == BucketTotal(key, days, score, series[k].key)
    {
      var x := (series[k].key, series[k].score);
      assert x in entries;
    }
  }

  /** A bucket left out of a grouping's series is older than every bucket kept. */
  lemma GroupedSeriesNewest(key: int -> int, days: seq<int>, score: map<int, nat>, order: seq<int>, bucket: map<int, nat>, capacity: nat)
    requires Grouped(key, days, score, order, bucket)
    ensures var series := SeriesOf(EntriesOf(order, bucket), capacity);
      forall w :: w in Buckets(key, days) && (forall k :: 0 <= k < |series| ==> series[k].key != w) ==>
        forall k :: 0 <= k < |series| ==> w < series[k].key
  {
    var entries := EntriesOf(order, bucket);
    var series := SeriesOf(entries, capacity);
    GroupedDistinctKeys(key, days, score, order, bucket);
    GroupedBucketsInEntries(key, days, score, order, bucket);
    forall w | w in Buckets(key, days) && (forall k :: 0 <= k < |series| ==> series[k].key != w)
      ensures forall k :: 0 <= k < |series| ==> w < series[k].key
    {
      var e := (w, BucketTotal(key, days, score, w));
      assert e in entries;
      assert forall k :: 0 <= k < |series| ==> series[k].key != e.0;
      SeriesKeepsNewest(entries, capacity, e);
    }
  }

  /** With at most 12 buckets the series' scores add up to the day total. */
  lemma GroupedSeriesSum(key: int -> int, days: seq<int>, score: map<int, nat>, order: seq<int>, bucket: map<int, nat>, capacity: nat)
    requires Grouped(key, days, score, order, bucket)
    requires |Buckets(key, days)| <= 12
    ensures PointSum(SeriesOf(EntriesOf(order, bucket), capacity)) == DayTotal(days, score)
  {
    GroupedEntries(key, days, score, order, bucket);
    SeriesSum(EntriesOf(order, bucket), capacity);
  }

  /**
   * The grouping loop of lines 93-100 and 112-119, for a bucketing function
   * `key`: each day adds its score to its bucket's total, and a bucket seen
   * for the first time is appended to the Map's key order.
   */
  method GroupByBucket(key: int -> int, tally: DayTally) returns (order: seq<int>, bucket: map<int, nat>)
    ensures Grouped(key, tally.days, tally.score, order, bucket)
  {
    bucket := map[];
    order := [];
    for i := 0 to |tally.days|
      invariant Grouped(key, tally.days[..i], tally.score, order, bucket)
    {
      var day := tally.days[i];
      var b := key(day);
      var prev := ScoreOn(bucket, b);
      var nextOrder := if b in bucket then order else order + [b];
      var nextBucket := bucket[b := prev + ScoreOn(tally.score, day)];
      GroupStep(key, tally.days, tally.score, order, bucket, i);
      assert Grouped(key, tally.days[..i + 1], tally.score, nextOrder, nextBucket);
      order, bucket := nextOrder, nextBucket;
    }
    assert tally.days[..|tally.days|] == tally.days;
  }

  /**
   * `weekSeries` (lines 92-109) and `monthSeries` (lines 111-128): each day
   * of the tally adds its score to its bucket; the buckets, sorted by key and
   * cut to the newest 12, become points whose percentage is measured against
   * totalHabits * 7 for weeks and totalHabits * 30 for months.
   */
  method BucketSeries(g: Granularity, tally: DayTally, totalHabits: nat) returns (series: seq<Point>)
    ensures |series| == if |Buckets(KeyOf(g), tally.days)| <= 12 then |Buckets(KeyOf(g), tally.days)| else 12
    ensures forall i, j :: 0 <= i < j < |series| ==> series[i].key < series[j].key
    ensures forall k :: 0 <= k < |series| ==>
      series[k].key in Buckets(KeyOf(g), tally.days)
      && series[k].score == BucketTotal(KeyOf(g), tally.days, tally.score, series[k].key)
      && series[k].percent == Percent(series[k].score, totalHabits * BucketDays(g))
    ensures forall w :: w in Buckets(KeyOf(g), tally.days) && (forall k :: 0 <= k < |series| ==> series[k].key != w) ==>
      forall k :: 0 <= k < |series| ==> w < series[k].key
    ensures |Buckets(KeyOf(g), tally.days)| <= 12 ==> PointSum(series) == DayTotal(tally.days, tally.score)
  {
    series := KeyedSeries(KeyOf(g), tally, totalHabits * BucketDays(g));
  }

  /** BucketSeries for any bucketing function `key` and percentage capacity. */
  method KeyedSeries(key: int -> int, tally: DayTally, capacity: nat) returns (series: seq<Point>)
    ensures |series| == if |Buckets(key, tally.days)| <= 12 then |Buckets(key, tally.days)| else 12
    ensures forall i, j :: 0 <= i < j < |series| ==> series[i].key < series[j].key
    ensures forall k :: 0 <= k < |series| ==>
      series[k].key in Buckets(key, tally.days)
      && series[k].score == BucketTotal(key, tally.days, tally.score, series[k].key)
      && series[k].percent == Percent(series[k].score, capacity)
    ensures forall w :: w in Buckets(key, tally.days) && (forall k :: 0 <= k < |series| ==> series[k].key != w) ==>
      forall k :: 0 <= k < |series| ==> w < series[k].key
    ensures |Buckets(key, tally.days)| <= 12 ==> PointSum(series) == DayTotal(tally.days, tally.score)
  {
    var order, bucket := GroupByBucket(key, tally);
    series := SeriesOf(EntriesOf(order, bucket), capacity);
    GroupedSeriesShape(key, tally.days, tally.score, order, bucket, capacity);
    GroupedSeriesPoints(key, tally.days, tally.score, order, bucket, capacity);
    GroupedSeriesNewest(key, tally.days, tally.score, order, bucket, capacity);
    if |Buckets(key, tally.days)| <= 12 {
      GroupedSeriesSum(key, tally.days, tally.score, order, bucket, capacity);
    }
  }

  /** A day is active exactly when some row falls on it. */
  lemma ActiveDaysOfRows(rows: seq<int>, score: map<int, nat>, first: int, last: int)
    requires forall d :: ScoreOn(score, d) == multiset(rows)[d]
    ensures ActiveDays(score, first, last) == set d | first <= d <= last && d in rows
  {
  }

  /** The tally lists exactly the days of the rows. */
  lemma TallyDays(rows: seq<int>, tally: DayTally)
    requires WellFormed(tally)
    requires forall d :: ScoreOn(tally.score, d) == multiset(rows)[d]
    requires forall d :: d in tally.score ==> tally.score[d] >= 1
    ensures forall d :: d in tally.days <==> d in rows
  {
    forall d ensures d in tally.days <==> d in rows {
      assert ScoreOn(tally.score, d) == multiset(rows)[d];
    }
  }

  /** What the charts page hands to its client component. Labels are left out. */
  datatype ChartsData = ChartsData(
    totalHabits: nat,
    activeDaysThisWeek: nat,
    activeDaysThisMonth: nat,
    daySeries: seq<Point>,
    weekSeries: seq<Point>,
    monthSeries: seq<Point>)

  /**
   * Lines 53-90 of the charts page: the per-day tally of the rows, the two
   * active-day counters and the 30-day series, in terms of the rows.
   */
  method DailyFigures(rows: seq<int>, today: int, totalHabits: nat)
    returns (tally: DayTally, week: nat, month: nat, daySeries: seq<Point>)
    ensures Distinct(tally.days) && forall d :: ScoreOn(tally.score, d) == multiset(rows)[d]
    ensures forall d :: d in tally.days <==> d in rows
    ensures DayTotal(tally.days, tally.score) == |rows|
    ensures week == |set d | StartOfWeek(today) <= d <= today && d in rows| && week <= 7
    ensures month == |set d | StartOfMonth(today) <= d <= today && d in rows| && month <= FromDayNumber(today).day
    ensures |daySeries| == 30
    ensures forall k :: 0 <= k < 30 ==>
      daySeries[k].key == today - 29 + k && daySeries[k].score == multiset(rows)[today - 29 + k]
      && daySeries[k].percent == Percent(daySeries[k].score, totalHabits)
  {
    tally := FoldDailyScore(rows);
    daySeries := DaySeries(tally.score, today, totalHabits);
    forall k | 0 <= k < 30 ensures daySeries[k].score == multiset(rows)[today - 29 + k] {
      var d := daySeries[k].key;
      assert d == today - 29 + k && daySeries[k].score == ScoreOn(tally.score, d);
      assert ScoreOn(tally.score, d) == multiset(rows)[d];
    }
    week := ActiveDaysThisWeek(tally.score, today);
    ActiveDaysOfRows(rows, tally.score, StartOfWeek(today), today);
    month := ActiveDaysThisMonth(tally.score, today);
    ActiveDaysOfRows(rows, tally.score, StartOfMonth(today), today);
    TallyDays(rows, tally);
  }

  /**
   * What the page shows as a week or month series, in terms of the rows: the
   * newest min(12, number of buckets) buckets that have rows, in ascending
   * key order, each with its number of rows as score and that score as a
   * percentage of `capacity`; when no bucket is cut, the scores add up to the
   * number of rows.
   */
  ghost predicate IsRowSeries(series: seq<Point>, key: int -> int, rows: seq<int>, capacity: nat) {
    && |series| == (if |Buckets(key, rows)| <= 12 then |Buckets(key, rows)| else 12)
    && (forall i, j :: 0 <= i < j < |series| ==> series[i].key < series[j].key)
    && (forall k :: 0 <= k < |series| ==>
          series[k].key in Buckets(key, rows)
          && series[k].score == RowCount(key, rows, series[k].key)
          && series[k].percent == Percent(series[k].score, capacity))
    && (forall w :: w in Buckets(key, rows) && (forall k :: 0 <= k < |series| ==> series[k].key != w) ==>
          forall k :: 0 <= k < |series| ==> w < series[k].key)
    && (|Buckets(key, rows)| <= 12 ==> PointSum(series) == |rows|)
  }

  /** The week or month series of a tally of the rows, stated in terms of the rows. */
  method RowSeries(g: Granularity, rows: seq<int>, tally: DayTally, totalHabits: nat) returns (series: seq<Point>)
    requires Distinct(tally.days)
    requires forall d :: ScoreOn(tally.score, d) == multiset(rows)[d]
    requires forall d :: d in tally.days <==> d in rows
    requires DayTotal(tally.days, tally.score) == |rows|
    ensures IsRowSeries(series, KeyOf(g), rows, totalHabits * BucketDays(g))
  {
    BucketsOfSameDays(KeyOf(g), tally.days, rows);
    series := BucketSeries(g, tally, totalHabits);
    forall w ensures BucketTotal(KeyOf(g), tally.days, tally.score, w) == RowCount(KeyOf(g), rows, w) {
      BucketTotalOfRows(KeyOf(g), rows, tally.days, tally.score, w);
    }
  }

  /**
   * The charts page's aggregation from line 53: `rows` are the days of the
   * user's completed rows (already limited to the lookback window),
   * `totalHabits` the number of non-archived habits. Scores count every row,
   * archived habit or not, so percentages can exceed 100.
   */
  method ChartsPage(rows: seq<int>, today: int, totalHabits: nat) returns (data: ChartsData)
    ensures data.totalHabits == totalHabits
    ensures data.activeDaysThisWeek == |set d | StartOfWeek(today) <= d <= today && d in rows|
    ensures data.activeDaysThisMonth == |set d | StartOfMonth(today) <= d <= today && d in rows|
    ensures |data.daySeries| == 30
    ensures forall k :: 0 <= k < 30 ==>
      data.daySeries[k].key == today - 29 + k && data.daySeries[k].score == multiset(rows)[today - 29 + k]
      && data.daySeries[k].percent == Percent(data.daySeries[k].score, totalHabits)
    ensures IsRowSeries(data.weekSeries, KeyOf(Week), rows, totalHabits * 7)
    ensures IsRowSeries(data.monthSeries, KeyOf(Month), rows, totalHabits * 30)
  {
    var tally, week, month, daySeries := DailyFigures(rows, today, totalHabits);
    var weekSeries := RowSeries(Week, rows, tally, totalHabits);
    var monthSeries := RowSeries(Month, rows, tally, totalHabits);
    data := ChartsData(totalHabits, week, month, daySeries, weekSeries, monthSeries);
  }
}
