/**
 * The station store of the dashboard (`App`): a map from station id to the
 * station's state, filled by message ingestion and read by the render pass.
 * Each station's state dictionary is a value here; an update computes the
 * new state and stores it back under its id.
 */
module Store {
  import opened Wrappers
  import opened Samples
  import opened RecentBuffer
  import opened Rollups
  import opened Validation
  import opened Liveness
  import opened StationOrder

  /** `maxlen` of every station's recent-sample deque. */
  const BufferCapacity: nat := 2000

  /** The trailing window of the dashboard's averages, `_avg_last_minutes`'s default. */
  const WindowMinutes: int := 5

  /**
   * A decoded message. `stationId` is absent when the key is missing or its
   * value is not a string; `timestamp` is absent when it is not a string.
   */
  datatype Message = Message(stationId: Option<string>, temperature: RawField, humidity: RawField,
                             timestamp: Option<string>)

  /** One line of the dashboard, before formatting. */
  datatype Row = Row(stationId: string, temperature: Option<RawField>, humidity: Option<RawField>,
                     avgTemperature: Option<real>, avgHumidity: Option<real>,
                     payloadTs: Option<int>, recvAt: Option<int>, status: Status)

  /** The state dictionary of one station. */
  datatype Station = Station(temperature: Option<RawField>, humidity: Option<RawField>,
                             payloadTs: Option<int>, recvAt: Option<int>, valid: bool,
                             errors: seq<string>, buffer: seq<Sample>, daily: Daily,
                             hourly: map<string, HourBucket>)
  {
    /** The buffer respects its bound, the extrema are ordered, and every bucket counted a reading. */
    predicate Valid()
    {
      && |buffer| <= BufferCapacity
      && daily.Ordered()
      && (forall k :: k in hourly ==> hourly[k].Ordered() && hourly[k].count > 0)
    }
  }

  /** The state `_ensure_station` creates: nothing seen yet. */
  const NewStation := Station(None, None, None, None, false, [], [], EmptyDaily, map[])

  /** The state of `sid` in `m`, as `_ensure_station` would find or create it. */
  function StationAt(m: map<string, Station>, sid: string): Station
  {
    if sid in m then m[sid] else NewStation
  }

  /** Every stored station state is well formed. */
  ghost predicate AllValid(m: map<string, Station>)
  {
    forall sid :: sid in m ==> m[sid].Valid()
  }

  class App {
    var stations: map<string, Station>
    /** Local calendar day of an instant (`_local_day`). */
    const dayKey: int -> string
    /** Local date and hour of an instant (`_local_hour_key`). */
    const hourKey: int -> string
    /** ISO 8601 parsing to UTC seconds (`parse_iso` on a string). */
    const parseIso: string -> Option<int>
    /** The f-string rendering of a float used in problem messages. */
    const show: real -> string

    ghost predicate Valid()
      reads this
    {
      AllValid(stations)
    }

    constructor (dayKey: int -> string, hourKey: int -> string, parseIso: string -> Option<int>,
                 show: real -> string)
      ensures Valid() && stations == map[]
      ensures this.dayKey == dayKey && this.hourKey == hourKey && this.parseIso == parseIso && this.show == show
    {
      this.dayKey, this.hourKey, this.parseIso, this.show := dayKey, hourKey, parseIso, show;
      stations := map[];
    }

    /** `_ensure_station`: the state of `sid`, stored empty first when absent. */
    method EnsureStation(sid: string) returns (station: Station)
      requires Valid()
      modifies this
      ensures Valid()
      ensures sid in old(stations) ==> stations == old(stations)
      ensures sid !in old(stations) ==> stations == old(stations)[sid := NewStation]
      ensures sid in stations && station == stations[sid]
    {
      if sid !in stations {
        stations := stations[sid := NewStation];
      }
      station := stations[sid];
    }

    /** `_update_daily`: roll over to the reading's local day if needed, then widen the extrema. */
    method UpdateDaily(station: Station, recvAt: int, t: Option<real>, h: Option<real>) returns (updated: Station)
      ensures updated == station.(daily := station.daily.Record(dayKey(recvAt), t, h))
    {
      var today := dayKey(recvAt);
      var daily := station.daily;
      if daily.date != Some(today) {
        daily := Daily(Some(today), NoExtent, NoExtent);
      }
      if t.Some? {
        daily := daily.(t := daily.t.Include(t));
      }
      if h.Some? {
        daily := daily.(h := daily.h.Include(h));
      }
      updated := station.(daily := daily);
    }

    /** `_update_hourly`: count the reading in its local hour's bucket and fold in its present values. */
    method UpdateHourly(station: Station, recvAt: int, t: Option<real>, h: Option<real>) returns (updated: Station)
      ensures updated == station.(hourly := RecordHourly(station.hourly, hourKey(recvAt), t, h))
    {
      var key := hourKey(recvAt);
      var bucket := BucketAt(station.hourly, key);
      bucket := bucket.(count := bucket.count + 1);
      if t.Some? {
        bucket := bucket.(tSum := bucket.tSum + t.value, t := bucket.t.Include(t));
      }
      if h.Some? {
        bucket := bucket.(hSum := bucket.hSum + h.value, h := bucket.h.Include(h));
      }
      assert bucket == BucketAt(station.hourly, key).Add(t, h);
      updated := station.(hourly := station.hourly[key := bucket]);
    }

    /**
     * The state the locked block of `on_message` leaves for a station whose
     * state was `prev`, given the verdict, the parsed payload time and the
     * receive time computed before the lock: the last-value fields are this
     * message's, the buffer has taken the coerced sample, and both rollups
     * have counted it.
     */
    function Receive(prev: Station, temp: RawField, hum: RawField, verdict: Verdict, payloadTs: Option<int>,
                     now: int): Station
      requires prev.Valid()
    {
      var s := Sample(now, temp.number, hum.number);
      prev.(temperature := Some(temp), humidity := Some(hum), payloadTs := payloadTs, recvAt := Some(now),
            valid := verdict.ok, errors := verdict.problems,
            buffer := Push(prev.buffer, s, BufferCapacity),
            daily := prev.daily.Record(dayKey(now), s.t, s.h),
            hourly := RecordHourly(prev.hourly, hourKey(now), s.t, s.h))
    }

    /** Receiving a message keeps a station's state well formed. */
    lemma ReceiveKeepsValid(prev: Station, temp: RawField, hum: RawField, verdict: Verdict, payloadTs: Option<int>,
                            now: int)
      requires prev.Valid()
      ensures Receive(prev, temp, hum, verdict, payloadTs, now).Valid()
    {
      var r := Receive(prev, temp, hum, verdict, payloadTs, now);
      assert |r.buffer| <= BufferCapacity;
      assert r.daily.Ordered();
      forall k | k in r.hourly
        ensures r.hourly[k].Ordered() && r.hourly[k].count > 0
      {
        if k != hourKey(now) {
          assert k in prev.hourly;
        }
      }
    }

    /**
     * Right after a message, and for `StaleAfterSeconds` seconds more, the
     * station shows OK when `validate` accepted the reading and INVALID when
     * it did not; its buffer ends with the reading and both rollups are on
     * the reading's day and hour.
     */
    lemma StatusAfterReceive(prev: Station, temp: RawField, hum: RawField, payloadTs: Option<int>, now: int, later: int)
      requires prev.Valid()
      requires now <= later <= now + StaleAfterSeconds
      ensures var r := Receive(prev, temp, hum, Validate(temp, hum, show), payloadTs, now);
              && (r.errors == [] <==> Acceptable(temp, hum))
              && StatusFor(r.recvAt, r.valid, later, StaleAfterSeconds) == (if Acceptable(temp, hum) then Ok else Invalid)
              && r.buffer[|r.buffer| - 1] == Sample(now, temp.number, hum.number)
              && r.daily.date == Some(dayKey(now))
              && hourKey(now) in r.hourly
    {
    }

    /**
     * The locked block of `on_message`: find or create the station, overwrite
     * its last values, push the coerced sample and update both rollups.
     */
    method Deliver(sid: string, temp: RawField, hum: RawField, verdict: Verdict, payloadTs: Option<int>, now: int)
      requires Valid()
      modifies this
      ensures Valid()
      ensures stations == old(stations)[sid := Receive(StationAt(old(stations), sid), temp, hum, verdict, payloadTs, now)]
    {
      var tF, hF := temp.number, hum.number;
      ghost var before, prev := stations, StationAt(stations, sid);
      var station := EnsureStation(sid);
      assert station == prev;
      station := station.(temperature := Some(temp), humidity := Some(hum), payloadTs := payloadTs,
                          recvAt := Some(now), valid := verdict.ok, errors := verdict.problems);
      station := station.(buffer := Push(station.buffer, Sample(now, tF, hF), BufferCapacity));
      station := UpdateDaily(station, now, tF, hF);
      station := UpdateHourly(station, now, tF, hF);
      assert station == Receive(prev, temp, hum, verdict, payloadTs, now);
      ReceiveKeepsValid(prev, temp, hum, verdict, payloadTs, now);
      StoreBack(before, stations, sid, station);
      stations := stations[sid := station];
    }

    /**
     * `on_message` for a decoded message received at `now`: a message without
     * a string station id changes nothing; otherwise it is validated, its
     * fields coerced and its timestamp parsed, and the station's state is
     * replaced by what `Receive` makes of it, every other station untouched.
     */
    method OnMessage(msg: Message, now: int)
      requires Valid()
      modifies this
      ensures Valid()
      ensures msg.stationId.None? ==> stations == old(stations)
      ensures msg.stationId.Some? ==>
                var sid, ts := msg.stationId.value, msg.timestamp;
                stations == old(stations)[sid := Receive(StationAt(old(stations), sid), msg.temperature, msg.humidity,
                                                         Validate(msg.temperature, msg.humidity, show),
                                                         if ts.Some? then parseIso(ts.value) else None, now)]
    {
      if msg.stationId.None? {
        return;
      }
      var sid, temp, hum, ts := msg.stationId.value, msg.temperature, msg.humidity, msg.timestamp;
      var verdict := Validate(temp, hum, show);
      var payloadDt := if ts.Some? then parseIso(ts.value) else None;
      Deliver(sid, temp, hum, verdict, payloadDt, now);
    }

    /**
     * The render pass over the store: one row per station, in sorted id
     * order, with its status and trailing-window averages at time `now`.
     */
    method Snapshot(now: int) returns (rows: seq<Row>)
      ensures |rows| == |stations|
      ensures forall i, j :: 0 <= i < j < |rows| ==> Below(rows[i].stationId, rows[j].stationId)
      ensures forall sid :: sid in stations ==> exists i :: 0 <= i < |rows| && rows[i].stationId == sid
      ensures forall i :: 0 <= i < |rows| ==>
                rows[i].stationId in stations && rows[i] == RowFor(rows[i].stationId, stations[rows[i].stationId], now)
    {
      var ids := SortedIds(stations.Keys);
      rows := RowsOf(ids, now);
      assert |stations.Keys| == |stations|;
      forall sid | sid in stations
        ensures exists i :: 0 <= i < |rows| && rows[i].stationId == sid
      {
        var i :| 0 <= i < |ids| && ids[i] == sid;
        assert rows[i].stationId == sid;
      }
    }

    /** The rows of the stations `ids`, in that order. */
    method RowsOf(ids: seq<string>, now: int) returns (rows: seq<Row>)
      requires forall i :: 0 <= i < |ids| ==> ids[i] in stations
      ensures |rows| == |ids|
      ensures forall j :: 0 <= j < |ids| ==> rows[j].stationId == ids[j]
      ensures forall j :: 0 <= j < |ids| ==> rows[j] == RowFor(ids[j], stations[ids[j]], now)
    {
      rows := [];
      var i := 0;
      while i < |ids|
        invariant 0 <= i <= |ids| && |rows| == i
        invariant forall j :: 0 <= j < i ==> rows[j].stationId == ids[j]
        invariant forall j :: 0 <= j < i ==> rows[j] == RowFor(ids[j], stations[ids[j]], now)
      {
        var row := RowOf(ids[i], stations[ids[i]], now);
        rows := rows + [row];
        i := i + 1;
      }
    }

    /** One row of the render pass: `_status_for` and the trailing-window averages of `station`. */
    method RowOf(sid: string, station: Station, now: int) returns (row: Row)
      ensures row.stationId == sid
      ensures row == RowFor(sid, station, now)
    {
      var tAvg, hAvg := AvgLastMinutes(station, now, WindowMinutes);
      row := Row(sid, station.temperature, station.humidity, tAvg, hAvg, station.payloadTs, station.recvAt,
                 StatusFor(station.recvAt, station.valid, now, StaleAfterSeconds));
    }

    /**
     * `_avg_last_minutes`: nothing buffered gives no averages; otherwise the
     * newest-first scan to the cutoff `now - minutes * 60` and the mean of
     * the present values of each quantity met.
     */
    method AvgLastMinutes(station: Station, now: int, minutes: int) returns (tAvg: Option<real>, hAvg: Option<real>)
      ensures tAvg == WindowMean(station.buffer, now - minutes * 60, Temperature)
      ensures hAvg == WindowMean(station.buffer, now - minutes * 60, Humidity)
    {
      var buf := station.buffer;
      if |buf| == 0 {
        return None, None;
      }
      var cutoff := now - minutes * 60;
      var i, tSum, tCount, hSum, hCount := Scan(buf, cutoff);
      ScanResult(buf, cutoff, i, Temperature, tSum, tCount);
      ScanResult(buf, cutoff, i, Humidity, hSum, hCount);
      tAvg := if tCount == 0 then None else Some(tSum / (tCount as real));
      hAvg := if hCount == 0 then None else Some(hSum / (hCount as real));
    }
  }

  /** Storing a state under `sid` after `_ensure_station` is storing it into the map as it was before. */
  lemma StoreBack(before: map<string, Station>, after: map<string, Station>, sid: string, st: Station)
    requires sid in before ==> after == before
    requires sid !in before ==> after == before[sid := NewStation]
    ensures after[sid := st] == before[sid := st]
  {
    if sid !in before {
      assert after[sid := st].Keys == before[sid := st].Keys;
    }
  }

  /** The row the render pass shows for station `sid` at time `now`. */
  ghost function RowFor(sid: string, st: Station, now: int): Row
  {
    var cutoff := now - WindowMinutes * 60;
    Row(sid, st.temperature, st.humidity, WindowMean(st.buffer, cutoff, Temperature),
        WindowMean(st.buffer, cutoff, Humidity), st.payloadTs, st.recvAt,
        StatusFor(st.recvAt, st.valid, now, StaleAfterSeconds))
  }

  /** `total` and `n` are the sum and the number of the present values of `q` in `w`. */
  ghost predicate Tally(w: seq<Sample>, q: Quantity, total: real, n: int)
  {
    total == Sum(Values(w, q)) && n == |Values(w, q)|
  }

  /** Taking in the entry the scan visits next adds its value, when present, to the tally. */
  lemma ScanStep(buf: seq<Sample>, i: int, q: Quantity, total: real, n: int)
    requires 0 < i <= |buf| && Tally(buf[i..], q, total, n)
    ensures var v := Reading(buf[i - 1], q);
            Tally(buf[i - 1..], q, if v.Some? then v.value + total else total, if v.Some? then n + 1 else n)
  {
    var p := Present(Reading(buf[i - 1], q));
    assert buf[i - 1..] == [buf[i - 1]] + buf[i..];
    ValuesConcat([buf[i - 1]], buf[i..], q);
    assert [buf[i - 1]][..0] == [];
    assert Values([buf[i - 1]], q) == p;
    SumConcat(p, Values(buf[i..], q));
    if p != [] {
      assert p[..0] == [];
    }
  }

  /**
   * The scan of `_avg_last_minutes`: from the newest entry back to the first
   * one received before `cutoff`, summing and counting the present values.
   */
  method Scan(buf: seq<Sample>, cutoff: int) returns (i: int, tSum: real, tCount: int, hSum: real, hCount: int)
    ensures 0 <= i <= |buf|
    ensures forall j :: i <= j < |buf| ==> buf[j].recvAt >= cutoff
    ensures i > 0 ==> buf[i - 1].recvAt < cutoff
    ensures Tally(buf[i..], Temperature, tSum, tCount) && Tally(buf[i..], Humidity, hSum, hCount)
  {
    tSum, tCount, hSum, hCount := 0.0, 0, 0.0, 0;
    i := |buf|;
    assert buf[i..] == [];
    // The `break` at the first entry older than the cutoff is the loop guard.
    while i > 0 && buf[i - 1].recvAt >= cutoff
      invariant 0 <= i <= |buf|
      invariant forall j :: i <= j < |buf| ==> buf[j].recvAt >= cutoff
      invariant Tally(buf[i..], Temperature, tSum, tCount)
      invariant Tally(buf[i..], Humidity, hSum, hCount)
    {
      var s := buf[i - 1];
      ScanStep(buf, i, Temperature, tSum, tCount);
      ScanStep(buf, i, Humidity, hSum, hCount);
      if s.t.Some? {
        tSum, tCount := s.t.value + tSum, tCount + 1;
      }
      if s.h.Some? {
        hSum, hCount := s.h.value + hSum, hCount + 1;
      }
      i := i - 1;
    }
  }

  /** Where the scan stops, its tally is that of the window, so its quotient is the window's mean. */
  lemma ScanResult(buf: seq<Sample>, cutoff: int, i: int, q: Quantity, total: real, n: int)
    requires 0 <= i <= |buf|
    requires forall j :: i <= j < |buf| ==> buf[j].recvAt >= cutoff
    requires i > 0 ==> buf[i - 1].recvAt < cutoff
    requires Tally(buf[i..], q, total, n)
    ensures WindowMean(buf, cutoff, q) == if n == 0 then None else Some(total / (n as real))
  {
    WindowFrom(buf, cutoff, i);
    WindowMeanIsMean(buf, cutoff, q);
  }
}
