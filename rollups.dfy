/**
 * The two per-station rollups: the daily min/max, reset when the local date
 * changes, and the hourly count/sum/min/max buckets, kept forever.
 */
module Rollups {
  import opened Wrappers
  import opened Samples

  /** A running minimum and maximum of one quantity (`t_min`/`t_max` or `h_min`/`h_max`). */
  datatype Extent = Extent(lo: Option<real>, hi: Option<real>)
  {
    /** Both ends present together, and min <= max. */
    predicate Ordered()
    {
      lo.Some? == hi.Some? && (lo.Some? ==> lo.value <= hi.value)
    }

    /** Takes one optional value into account; an absent value changes nothing. */
    function Include(v: Option<real>): (r: Extent)
      ensures Covers(r, this, Present(v))
      ensures Ordered() ==> r.Ordered()
    {
      match v
      case None => this
      case Some(x) =>
        Extent(Some(if lo.None? || x < lo.value then x else lo.value),
               Some(if hi.None? || x > hi.value then x else hi.value))
    }
  }

  const NoExtent := Extent(None, None)

  /**
   * `e` is `base` widened by exactly the values `xs`: each end is present iff
   * `base`'s end or some value is, and then it is the least (greatest) of
   * `base`'s end and `xs`.
   */
  ghost predicate Covers(e: Extent, base: Extent, xs: seq<real>)
  {
    && (e.lo.Some? <==> base.lo.Some? || xs != [])
    && (e.hi.Some? <==> base.hi.Some? || xs != [])
    && (e.lo.Some? ==>
          && (e.lo == base.lo || e.lo.value in xs)
          && (base.lo.Some? ==> e.lo.value <= base.lo.value)
          && (forall x :: x in xs ==> e.lo.value <= x))
    && (e.hi.Some? ==>
          && (e.hi == base.hi || e.hi.value in xs)
          && (base.hi.Some? ==> base.hi.value <= e.hi.value)
          && (forall x :: x in xs ==> x <= e.hi.value))
  }

  lemma CoversTrans(e0: Extent, e1: Extent, e2: Extent, xs: seq<real>, ys: seq<real>)
    requires Covers(e1, e0, xs) && Covers(e2, e1, ys)
    ensures Covers(e2, e0, xs + ys)
  {
    forall x | x in xs + ys ensures x in xs || x in ys {}
    if e2.lo.Some? && e2.lo == e1.lo && e1.lo.Some? && e1.lo != e0.lo {
      assert e2.lo.value in xs + ys;
    }
    if e2.hi.Some? && e2.hi == e1.hi && e1.hi.Some? && e1.hi != e0.hi {
      assert e2.hi.value in xs + ys;
    }
  }

  /** `station["daily"]`: the calendar day it describes and that day's extrema. */
  datatype Daily = Daily(date: Option<string>, t: Extent, h: Extent)
  {
    predicate Ordered()
    {
      t.Ordered() && h.Ordered()
    }

    function Of(q: Quantity): Extent
    {
      if q == Temperature then t else h
    }

    /**
     * `_update_daily` for a reading on local day `today`: a different stored
     * date clears all four extrema first; present values then widen them.
     */
    function Record(today: string, tv: Option<real>, hv: Option<real>): (r: Daily)
      ensures r.date == Some(today)
      ensures date == Some(today) ==> Covers(r.t, t, Present(tv)) && Covers(r.h, h, Present(hv))
      ensures date != Some(today) ==> Covers(r.t, NoExtent, Present(tv)) && Covers(r.h, NoExtent, Present(hv))
      ensures Ordered() ==> r.Ordered()
    {
      var base := if date != Some(today) then Daily(Some(today), NoExtent, NoExtent) else this;
      base.(t := base.t.Include(tv), h := base.h.Include(hv))
    }
  }

  const EmptyDaily := Daily(None, NoExtent, NoExtent)

  /** One hourly bucket; `_default_hour_bucket` is `EmptyBucket`. */
  datatype HourBucket = HourBucket(count: nat, tSum: real, hSum: real, t: Extent, h: Extent)
  {
    predicate Ordered()
    {
      t.Ordered() && h.Ordered()
    }

    function Of(q: Quantity): Extent
    {
      if q == Temperature then t else h
    }

    function SumOf(q: Quantity): real
    {
      if q == Temperature then tSum else hSum
    }

    /** Counts the reading whatever it holds; sums and extrema take only present values. */
    function Add(tv: Option<real>, hv: Option<real>): (r: HourBucket)
      ensures r.count == count + 1
      ensures r.tSum == tSum + Sum(Present(tv)) && r.hSum == hSum + Sum(Present(hv))
      ensures Covers(r.t, t, Present(tv)) && Covers(r.h, h, Present(hv))
      ensures Ordered() ==> r.Ordered()
    {
      HourBucket(count + 1,
                 if tv.Some? then tSum + tv.value else tSum,
                 if hv.Some? then hSum + hv.value else hSum,
                 t.Include(tv), h.Include(hv))
    }
  }

  const EmptyBucket := HourBucket(0, 0.0, 0.0, NoExtent, NoExtent)

  /** Reading a `defaultdict(_default_hour_bucket)`: a missing key reads as an empty bucket. */
  function BucketAt(m: map<string, HourBucket>, key: string): HourBucket
  {
    if key in m then m[key] else EmptyBucket
  }

  /** `_update_hourly` for a reading in local hour `key`. */
  function RecordHourly(m: map<string, HourBucket>, key: string, tv: Option<real>, hv: Option<real>)
    : (r: map<string, HourBucket>)
    ensures r.Keys == m.Keys + {key}
    ensures forall k :: k in m && k != key ==> r[k] == m[k]
    ensures r[key].count == BucketAt(m, key).count + 1
    ensures r[key] == BucketAt(m, key).Add(tv, hv)
    ensures (forall k :: k in m ==> m[k].Ordered()) ==> forall k :: k in r ==> r[k].Ordered()
  {
    m[key := BucketAt(m, key).Add(tv, hv)]
  }

  /** The daily rollup after the readings `rs`, oldest first, starting from `d`. */
  function DailyAfter(d: Daily, rs: seq<Sample>, dayKey: int -> string): Daily
  {
    if rs == [] then d
    else
      var last := rs[|rs| - 1];
      DailyAfter(d, rs[..|rs| - 1], dayKey).Record(dayKey(last.recvAt), last.t, last.h)
  }

  /** The longest run at the end of `rs` of readings received on local day `day`. */
  function DayRun(rs: seq<Sample>, dayKey: int -> string, day: string): (run: seq<Sample>)
    ensures |run| <= |rs| && run == rs[|rs| - |run|..]
    ensures forall i :: 0 <= i < |run| ==> dayKey(run[i].recvAt) == day
    ensures |run| < |rs| ==> dayKey(rs[|rs| - |run| - 1].recvAt) != day
  {
    if rs == [] || dayKey(rs[|rs| - 1].recvAt) != day then []
    else DayRun(rs[..|rs| - 1], dayKey, day) + [rs[|rs| - 1]]
  }

  /** One `Record` widens the kept extent (or a cleared one, on a new day) by the reading's value. */
  lemma RecordCovers(prev: Daily, today: string, s: Sample, q: Quantity)
    ensures prev.Record(today, s.t, s.h).date == Some(today)
    ensures Covers(prev.Record(today, s.t, s.h).Of(q),
                   if prev.date == Some(today) then prev.Of(q) else NoExtent,
                   Present(Reading(s, q)))
  {
  }

  /** Appending one reading of day `day` extends the run of that day by it. */
  lemma DayRunValues(rs: seq<Sample>, dayKey: int -> string, day: string, q: Quantity)
    requires rs != [] && dayKey(rs[|rs| - 1].recvAt) == day
    ensures DayRun(rs, dayKey, day) == DayRun(rs[..|rs| - 1], dayKey, day) + [rs[|rs| - 1]]
    ensures Values(DayRun(rs, dayKey, day), q)
         == Values(DayRun(rs[..|rs| - 1], dayKey, day), q) + Present(Reading(rs[|rs| - 1], q))
  {
    var run := DayRun(rs, dayKey, day);
    assert run[..|run| - 1] == DayRun(rs[..|rs| - 1], dayKey, day);
  }

  /** What the daily extent of `q` starts from for the readings of `DayRun`: the kept extent only when the whole history fell on the starting rollup's day. */
  function DayBase(d: Daily, rs: seq<Sample>, dayKey: int -> string, q: Quantity): Extent
    requires rs != []
  {
    var day := dayKey(rs[|rs| - 1].recvAt);
    if |DayRun(rs, dayKey, day)| == |rs| && d.date == Some(day) then d.Of(q) else NoExtent
  }

  /** The step of `DailyAfterCoversDay` for a reading on the same day as the one before it. */
  lemma SameDayStep(d: Daily, rs: seq<Sample>, dayKey: int -> string, q: Quantity)
    requires |rs| > 1
    requires dayKey(rs[|rs| - 2].recvAt) == dayKey(rs[|rs| - 1].recvAt)
    requires var init := rs[..|rs| - 1];
             && DailyAfter(d, init, dayKey).date == Some(dayKey(init[|init| - 1].recvAt))
             && Covers(DailyAfter(d, init, dayKey).Of(q), DayBase(d, init, dayKey, q),
                       Values(DayRun(init, dayKey, dayKey(init[|init| - 1].recvAt)), q))
    ensures Covers(DailyAfter(d, rs, dayKey).Of(q), DayBase(d, rs, dayKey, q),
                   Values(DayRun(rs, dayKey, dayKey(rs[|rs| - 1].recvAt)), q))
  {
    var init, last := rs[..|rs| - 1], rs[|rs| - 1];
    var day := dayKey(last.recvAt);
    var prev := DailyAfter(d, init, dayKey);
    var next := prev.Record(day, last.t, last.h);
    assert DailyAfter(d, rs, dayKey) == next;
    var p := Present(Reading(last, q));
    RecordCovers(prev, day, last, q);
    assert Covers(next.Of(q), prev.Of(q), p);
    DayRunValues(rs, dayKey, day, q);
    var base := DayBase(d, init, dayKey, q);
    assert DayBase(d, rs, dayKey, q) == base;
    var xs := Values(DayRun(init, dayKey, day), q);
    assert Covers(prev.Of(q), base, xs);
    CoversTrans(base, prev.Of(q), next.Of(q), xs, p);
  }

  /** The step of `DailyAfterCoversDay` for a reading that starts a run of its day. */
  lemma NewRunStep(d: Daily, rs: seq<Sample>, dayKey: int -> string, q: Quantity)
    requires rs != []
    requires var day := dayKey(rs[|rs| - 1].recvAt);
             |rs| > 1 ==> dayKey(rs[|rs| - 2].recvAt) != day && DailyAfter(d, rs[..|rs| - 1], dayKey).date != Some(day)
    ensures Covers(DailyAfter(d, rs, dayKey).Of(q), DayBase(d, rs, dayKey, q),
                   Values(DayRun(rs, dayKey, dayKey(rs[|rs| - 1].recvAt)), q))
  {
    var init, last := rs[..|rs| - 1], rs[|rs| - 1];
    var day := dayKey(last.recvAt);
    RecordCovers(DailyAfter(d, init, dayKey), day, last, q);
    DayRunValues(rs, dayKey, day, q);
    var before := DayRun(init, dayKey, day);
    assert before == [] && Values(before, q) == [];
    assert Values(before, q) + Present(Reading(last, q)) == Present(Reading(last, q));
  }

  /**
   * After any history, the daily rollup describes the day of the newest
   * reading, and its extrema are exactly those of the readings received
   * since the date last changed (plus the starting rollup's, when the whole
   * history fell on its day).
   */
  lemma {:induction false} DailyAfterCoversDay(d: Daily, rs: seq<Sample>, dayKey: int -> string, q: Quantity)
    requires rs != []
    ensures DailyAfter(d, rs, dayKey).date == Some(dayKey(rs[|rs| - 1].recvAt))
    ensures Covers(DailyAfter(d, rs, dayKey).Of(q), DayBase(d, rs, dayKey, q),
                   Values(DayRun(rs, dayKey, dayKey(rs[|rs| - 1].recvAt)), q))
    decreases |rs|
  {
    var init := rs[..|rs| - 1];
    if |rs| > 1 {
      DailyAfterCoversDay(d, init, dayKey, q);
      if dayKey(init[|init| - 1].recvAt) == dayKey(rs[|rs| - 1].recvAt) {
        SameDayStep(d, rs, dayKey, q);
      } else {
        NewRunStep(d, rs, dayKey, q);
      }
    } else {
      NewRunStep(d, rs, dayKey, q);
    }
  }

  /** The hourly buckets after the readings `rs`, oldest first, starting from `m`. */
  function HourlyAfter(m: map<string, HourBucket>, rs: seq<Sample>, hourKey: int -> string): map<string, HourBucket>
  {
    if rs == [] then m
    else
      var last := rs[|rs| - 1];
      RecordHourly(HourlyAfter(m, rs[..|rs| - 1], hourKey), hourKey(last.recvAt), last.t, last.h)
  }

  /** The readings of `rs` received in local hour `key`, oldest first. */
  function InHour(rs: seq<Sample>, hourKey: int -> string, key: string): (mine: seq<Sample>)
    ensures |mine| <= |rs|
  {
    if rs == [] then []
    else
      InHour(rs[..|rs| - 1], hourKey, key)
        + (if hourKey(rs[|rs| - 1].recvAt) == key then [rs[|rs| - 1]] else [])
  }

  /** One `RecordHourly` step seen from one key: its own bucket takes the reading, any other is untouched. */
  lemma RecordHourlyAt(m: map<string, HourBucket>, k: string, tv: Option<real>, hv: Option<real>, key: string)
    ensures var r := RecordHourly(m, k, tv, hv);
            && (key in r <==> key in m || k == key)
            && BucketAt(r, key) == if k == key then BucketAt(m, key).Add(tv, hv) else BucketAt(m, key)
  {
  }

  /**
   * Every hourly bucket is the aggregate of exactly the readings received in
   * its hour: it exists iff one arrived, it counts all of them (absent values
   * included), and its sums and extrema are over their present values.
   */
  lemma {:induction false} HourlyAfterAggregates(m: map<string, HourBucket>, rs: seq<Sample>,
                                                 hourKey: int -> string, key: string, q: Quantity)
    ensures var b, b0, mine := BucketAt(HourlyAfter(m, rs, hourKey), key), BucketAt(m, key), InHour(rs, hourKey, key);
            && (key in HourlyAfter(m, rs, hourKey) <==> key in m || mine != [])
            && b.count == b0.count + |mine|
            && b.SumOf(q) == b0.SumOf(q) + Sum(Values(mine, q))
            && Covers(b.Of(q), b0.Of(q), Values(mine, q))
    decreases |rs|
  {
    var b0 := BucketAt(m, key);
    if rs == [] {
      assert Covers(b0.Of(q), b0.Of(q), []);
    } else {
      var init, last := rs[..|rs| - 1], rs[|rs| - 1];
      HourlyAfterAggregates(m, init, hourKey, key, q);
      RecordHourlyAt(HourlyAfter(m, init, hourKey), hourKey(last.recvAt), last.t, last.h, key);
      var before := InHour(init, hourKey, key);
      var prev := BucketAt(HourlyAfter(m, init, hourKey), key);
      if hourKey(last.recvAt) == key {
        var mine := before + [last];
        assert mine[..|mine| - 1] == before;
        var p := Present(Reading(last, q));
        assert Values(mine, q) == Values(before, q) + p;
        SumConcat(Values(before, q), p);
        CoversTrans(b0.Of(q), prev.Of(q), prev.Add(last.t, last.h).Of(q), Values(before, q), p);
      } else {
        assert InHour(rs, hourKey, key) == before;
      }
    }
  }
}
