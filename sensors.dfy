/**
 * The per-device records the dashboard shows (server/main.go, `loadSensorData`):
 * each configured device's latest row is scaled, classified and labelled, and
 * the records are sorted by device address.
 */
module Sensors {
  import opened Wrappers
  import LexOrder
  import Freshness

  type int8 = x: int | -128 <= x < 128
  type int16 = x: int | -32768 <= x < 32768

  /**
   * A row as `Scan` leaves it: the latest sample when the query succeeds,
   * zero or partly filled fields when it fails. Temperature and humidity are
   * in hundredths of a degree and of a percent.
   */
  datatype Scanned = Scanned(
    temp: int, humidity: int, batteryMV: int16, batteryLevel: int8, timestamp: string)

  /** The outcome of the latest-row query of one device's store. */
  datatype Query = Query(ok: bool, row: Scanned)

  /** A configured device: its display location and what its store returned. */
  datatype Device = Device(loc: string, query: Query)

  /**
   * What the builder takes from outside: the clock in Unix seconds, the
   * RFC 3339 timestamp parser (Unix seconds, or None when it fails), and the
   * floating-point dew point and absolute humidity formulas, all given
   * humidity first and temperature second.
   */
  datatype Externals = Externals(
    now: int,
    parse: string -> Option<int>,
    dewPoint: (real, real) -> real,
    absHum: (real, real) -> real)

  /** One record of the result, field for field as the source's `SensorData`. */
  datatype SensorData = SensorData(
    temp: real, humidity: real, batteryMV: int16, batteryLevel: int8, timestamp: string,
    dewPoint: real, absHum: real, batteryIcon: string, dewPointText: string,
    mac: string, loc: string, timeRelative: string)

  const BatteryIcons: seq<string> := [
    "fa-battery-empty red", "fa-battery-empty yellow", "fa-battery-quarter",
    "fa-battery-half", "fa-battery-three-quarters", "fa-battery-full green"]

  /** The lower bound of every band above the lowest one. */
  const BatteryThresholds: seq<int> := [5, 15, 35, 65, 85]

  /** The value the source assigns first; every branch of the chain replaces it. */
  const UnknownBatteryIcon := "fa-battery-exclamation"

  /** The battery icon, by the first band whose upper bound the level is below. */
  function BatteryIcon(level: int): (icon: string)
    ensures icon in BatteryIcons && icon != UnknownBatteryIcon
  {
    if level < 5 then "fa-battery-empty red"
    else if level < 15 then "fa-battery-empty yellow"
    else if level < 35 then "fa-battery-quarter"
    else if level < 65 then "fa-battery-half"
    else if level < 85 then "fa-battery-three-quarters"
    else "fa-battery-full green"
  }

  /** How many of the thresholds the level has reached. */
  function Reached(level: int, thresholds: seq<int>): (k: nat)
    ensures k <= |thresholds|
  {
    if thresholds == [] then 0
    else (if thresholds[0] <= level then 1 else 0) + Reached(level, thresholds[1..])
  }

  /** The icon is the one indexed by the number of thresholds reached. */
  lemma {:induction false} BatteryIconByThresholds(level: int)
    ensures BatteryIcon(level) == BatteryIcons[Reached(level, BatteryThresholds)]
  {
    var t := BatteryThresholds;
    assert t[1..][1..][1..][1..][1..] == [];
    assert Reached(level, t[1..][1..][1..][1..]) == if 85 <= level then 1 else 0;
    assert Reached(level, t[1..][1..][1..]) == (if 65 <= level then 1 else 0) + (if 85 <= level then 1 else 0);
    assert Reached(level, t[1..][1..]) ==
      (if 35 <= level then 1 else 0) + (if 65 <= level then 1 else 0) + (if 85 <= level then 1 else 0);
  }

  /** A higher level never reaches fewer thresholds. */
  lemma {:induction false} ReachedMonotone(low: int, high: int, thresholds: seq<int>)
    requires low <= high
    ensures Reached(low, thresholds) <= Reached(high, thresholds)
  {
    if thresholds != [] {
      ReachedMonotone(low, high, thresholds[1..]);
    }
  }

  /** The icons at each band's edges. */
  lemma BatteryIconEdges()
    ensures BatteryIcon(-128) == BatteryIcon(4) == "fa-battery-empty red"
    ensures BatteryIcon(5) == BatteryIcon(14) == "fa-battery-empty yellow"
    ensures BatteryIcon(15) == BatteryIcon(34) == "fa-battery-quarter"
    ensures BatteryIcon(35) == BatteryIcon(64) == "fa-battery-half"
    ensures BatteryIcon(65) == BatteryIcon(84) == "fa-battery-three-quarters"
    ensures BatteryIcon(85) == BatteryIcon(127) == "fa-battery-full green"
  {
  }

  /** The caption of the dew point field; it does not depend on the dew point itself. */
  function DewPointText(temp: real): (text: string)
    ensures text == "Freezing point" <==> temp < 0.0
    ensures text == "Dew point" <==> temp >= 0.0
  {
    if temp < 0.0 then "Freezing point" else "Dew point"
  }

  /** The record of one device, whether or not its query succeeded. */
  function BuildSensor(mac: string, device: Device, ext: Externals): (s: SensorData)
    ensures s.mac == mac && s.loc == device.loc
    ensures var row := device.query.row;
      && s.temp * 100.0 == row.temp as real && s.humidity * 100.0 == row.humidity as real
      && s.batteryMV == row.batteryMV && s.batteryLevel == row.batteryLevel
      && s.timestamp == row.timestamp
    ensures s.batteryIcon == BatteryIcons[Reached(device.query.row.batteryLevel, BatteryThresholds)]
    ensures s.dewPoint == ext.dewPoint(s.humidity, s.temp) && s.absHum == ext.absHum(s.humidity, s.temp)
    ensures s.dewPointText == "Freezing point" <==> device.query.row.temp < 0
    ensures s.dewPointText == "Dew point" <==> device.query.row.temp >= 0
    ensures ext.parse(device.query.row.timestamp).None? ==> s.timeRelative == s.timestamp
    ensures ext.parse(device.query.row.timestamp).Some? ==>
      s.timeRelative == Freshness.AgeText(Freshness.AgeOf(ext.now - ext.parse(s.timestamp).value))
    ensures ext.parse(device.query.row.timestamp).Some? ==>
      Freshness.ReadAge(s.timeRelative) == Some(Freshness.AgeOf(ext.now - ext.parse(s.timestamp).value))
  {
    var row := device.query.row;
    var humidity := row.humidity as real / 100.0;
    var temp := row.temp as real / 100.0;
    BatteryIconByThresholds(row.batteryLevel);
    SensorData(
      temp := temp,
      humidity := humidity,
      batteryMV := row.batteryMV,
      batteryLevel := row.batteryLevel,
      timestamp := row.timestamp,
      dewPoint := ext.dewPoint(humidity, temp),
      absHum := ext.absHum(humidity, temp),
      batteryIcon := BatteryIcon(row.batteryLevel),
      dewPointText := DewPointText(temp),
      mac := mac,
      loc := device.loc,
      timeRelative := Freshness.RelativeTime(ext.parse(row.timestamp), row.timestamp, ext.now))
  }

  /**
   * A device whose query failed on an empty store still gets a record: zero
   * readings, the lowest battery icon and, since an empty timestamp does not
   * parse, an empty relative time.
   */
  lemma FailedQueryRecord(mac: string, loc: string, ext: Externals)
    requires ext.parse("").None?
    ensures var s := BuildSensor(mac, Device(loc, Query(false, Scanned(0, 0, 0, 0, ""))), ext);
      && s.mac == mac && s.temp == 0.0 && s.humidity == 0.0
      && s.batteryIcon == "fa-battery-empty red" && s.dewPointText == "Dew point"
      && s.timeRelative == ""
  {
  }

  predicate SortedByMac(s: seq<SensorData>) {
    forall i, j :: 0 <= i < j < |s| ==> !LexOrder.Less(s[j].mac, s[i].mac)
  }

  predicate StrictlyAscending(s: seq<SensorData>) {
    forall i, j :: 0 <= i < j < |s| ==> LexOrder.Less(s[i].mac, s[j].mac)
  }

  /** Every record is the one built for its address from the configuration. */
  predicate FromConfig(s: seq<SensorData>, config: map<string, Device>, ext: Externals) {
    forall i :: 0 <= i < |s| ==>
      s[i].mac in config && s[i] == BuildSensor(s[i].mac, config[s[i].mac], ext)
  }

  /** Every address in `macs` has a record. */
  predicate Covers(s: seq<SensorData>, macs: set<string>) {
    forall mac :: mac in macs ==> exists i :: 0 <= i < |s| && s[i].mac == mac
  }

  lemma FromConfigAppend(s: seq<SensorData>, mac: string, config: map<string, Device>, ext: Externals)
    requires FromConfig(s, config, ext) && mac in config
    ensures FromConfig(s + [BuildSensor(mac, config[mac], ext)], config, ext)
  {
  }

  lemma CoversAppend(s: seq<SensorData>, r: SensorData, macs: set<string>)
    requires Covers(s, macs)
    ensures Covers(s + [r], macs + {r.mac})
  {
    forall mac | mac in macs + {r.mac} ensures exists i :: 0 <= i < |s + [r]| && (s + [r])[i].mac == mac {
      if mac == r.mac {
        assert (s + [r])[|s|].mac == mac;
      } else {
        var i :| 0 <= i < |s| && s[i].mac == mac;
        assert (s + [r])[i].mac == mac;
      }
    }
  }

  predicate Distinct<T(==)>(s: seq<T>) {
    forall i, j :: 0 <= i < j < |s| ==> s[i] != s[j]
  }

  lemma {:induction false} DistinctOccursOnce<T>(s: seq<T>, x: T)
    requires Distinct(s)
    ensures multiset(s)[x] <= 1
  {
    if s != [] {
      var init, last := s[..|s| - 1], s[|s| - 1];
      assert s == init + [last];
      DistinctOccursOnce(init, x);
      if x == last {
        assert x !in init;
      }
    }
  }

  /** Reordering keeps the elements pairwise different. */
  lemma DistinctPermutation<T>(s: seq<T>, t: seq<T>)
    requires multiset(s) == multiset(t) && Distinct(s)
    ensures Distinct(t)
  {
    forall i, j | 0 <= i < j < |t| ensures t[i] != t[j] {
      if t[i] == t[j] {
        var x := t[i];
        assert t == t[..i] + [t[i]] + t[i + 1..j] + [t[j]] + t[j + 1..];
        assert multiset(t)[x] >= 2;
        DistinctOccursOnce(s, x);
        assert false;
      }
    }
  }

  /**
   * Sorting the records of distinct devices keeps them the configured
   * devices' records and orders them strictly by address.
   */
  lemma SortedRecords(buf: seq<SensorData>, data: seq<SensorData>, config: map<string, Device>, ext: Externals)
    requires multiset(buf) == multiset(data)
    requires FromConfig(buf, config, ext) && Covers(buf, config.Keys) && Distinct(buf)
    requires SortedByMac(data)
    ensures FromConfig(data, config, ext) && Covers(data, config.Keys)
    ensures StrictlyAscending(data)
  {
    forall i | 0 <= i < |data|
      ensures data[i].mac in config && data[i] == BuildSensor(data[i].mac, config[data[i].mac], ext)
    {
      assert data[i] in multiset(buf);
    }
    DistinctPermutation(buf, data);
    forall i, j | 0 <= i < j < |data| ensures LexOrder.Less(data[i].mac, data[j].mac) {
      LexOrder.Total(data[i].mac, data[j].mac);
    }
    forall mac | mac in config ensures exists i :: 0 <= i < |data| && data[i].mac == mac {
      var k :| 0 <= k < |buf| && buf[k].mac == mac;
      assert buf[k] in multiset(data);
    }
  }

  /** The position of a record with the least address among `a[from..]`. */
  method MinByMac(a: array<SensorData>, from: nat) returns (m: nat)
    requires from < a.Length
    ensures from <= m < a.Length
    ensures forall k :: from <= k < a.Length ==> !LexOrder.Less(a[k].mac, a[m].mac)
  {
    m := from;
    LexOrder.Irreflexive(a[m].mac);
    var k := from + 1;
    while k < a.Length
      invariant from <= m < k <= a.Length
      invariant forall j :: from <= j < k ==> !LexOrder.Less(a[j].mac, a[m].mac)
    {
      if LexOrder.Less(a[k].mac, a[m].mac) {
        forall j | from <= j < k ensures !LexOrder.Less(a[j].mac, a[k].mac) {
          if LexOrder.Less(a[j].mac, a[k].mac) {
            LexOrder.Transitive(a[j].mac, a[k].mac, a[m].mac);
          }
        }
        LexOrder.Irreflexive(a[k].mac);
        m := k;
      }
      k := k + 1;
    }
  }

  method SwapRecords(a: array<SensorData>, i: nat, j: nat)
    requires i < a.Length && j < a.Length
    modifies a
    ensures a[..] == old(a[..])[i := old(a[j])][j := old(a[i])]
    ensures multiset(a[..]) == old(multiset(a[..]))
  {
    a[i], a[j] := a[j], a[i];
  }

  /** The first `n` records are in order. */
  predicate SortedUpTo(s: seq<SensorData>, n: nat) {
    forall p, q :: 0 <= p < q < n && q < |s| ==> !LexOrder.Less(s[q].mac, s[p].mac)
  }

  /** No record from position `n` on precedes one before it. */
  predicate SplitAt(s: seq<SensorData>, n: nat) {
    forall p, q :: 0 <= p < n <= q < |s| ==> !LexOrder.Less(s[q].mac, s[p].mac)
  }

  /** Swapping the least remaining record into place `i` extends the ordered prefix. */
  lemma SelectionStep(s: seq<SensorData>, i: nat, m: nat)
    requires i <= m < |s|
    requires SortedUpTo(s, i) && SplitAt(s, i)
    requires forall k :: i <= k < |s| ==> !LexOrder.Less(s[k].mac, s[m].mac)
    ensures SortedUpTo(s[i := s[m]][m := s[i]], i + 1) && SplitAt(s[i := s[m]][m := s[i]], i + 1)
  {
  }

  /** `sort.Slice` by address: in place, ordered, the same records. */
  method SortByMac(a: array<SensorData>)
    modifies a
    ensures SortedByMac(a[..])
    ensures multiset(a[..]) == old(multiset(a[..]))
  {
    var i := 0;
    while i < a.Length
      invariant 0 <= i <= a.Length
      invariant SortedUpTo(a[..], i) && SplitAt(a[..], i)
      invariant multiset(a[..]) == old(multiset(a[..]))
    {
      var m := MinByMac(a, i);
      ghost var before := a[..];
      SelectionStep(before, i, m);
      SwapRecords(a, i, m);
      i := i + 1;
    }
  }

  /**
   * What the loop of `loadSensorData` has built once the addresses outside
   * `pending` are done: one record for each of them, none for the others.
   */
  predicate Collected(buf: seq<SensorData>, pending: set<string>, config: map<string, Device>, ext: Externals) {
    && pending <= config.Keys
    && FromConfig(buf, config, ext)
    && (forall i :: 0 <= i < |buf| ==> buf[i].mac !in pending)
    && (forall i, j :: 0 <= i < j < |buf| ==> buf[i].mac != buf[j].mac)
    && Covers(buf, config.Keys - pending)
  }

  lemma CollectStep(buf: seq<SensorData>, pending: set<string>, mac: string, config: map<string, Device>, ext: Externals)
    requires Collected(buf, pending, config, ext) && mac in pending
    ensures Collected(buf + [BuildSensor(mac, config[mac], ext)], pending - {mac}, config, ext)
  {
    var record := BuildSensor(mac, config[mac], ext);
    FromConfigAppend(buf, mac, config, ext);
    CoversAppend(buf, record, config.Keys - pending);
    assert config.Keys - (pending - {mac}) == (config.Keys - pending) + {mac};
  }

  /**
   * The loop of `loadSensorData`: one record per configured device, visited
   * in whatever order the map yields. A failed query is reported but still
   * yields its record.
   */
  method CollectRecords(config: map<string, Device>, ext: Externals)
    returns (buf: seq<SensorData>, failed: bool)
    ensures failed <==> exists mac :: mac in config && !config[mac].query.ok
    ensures |buf| == |config|
    ensures FromConfig(buf, config, ext) && Covers(buf, config.Keys)
    ensures forall i, j :: 0 <= i < j < |buf| ==> buf[i].mac != buf[j].mac
  {
    buf := [];
    failed := false;
    var pending := config.Keys;
    while pending != {}
      invariant Collected(buf, pending, config, ext)
      invariant |buf| + |pending| == |config|
      invariant failed <==> exists mac :: mac in config.Keys - pending && !config[mac].query.ok
    {
      var mac :| mac in pending;
      var device := config[mac];
      if !device.query.ok {
        failed := true;
      }
      CollectStep(buf, pending, mac, config, ext);
      buf := buf + [BuildSensor(mac, device, ext)];
      pending := pending - {mac};
    }
    assert config.Keys - pending == config.Keys;
  }

  /**
   * `loadSensorData`: the configured devices' records, sorted strictly by
   * address, and whether any device's query failed.
   */
  method LoadSensorData(config: map<string, Device>, ext: Externals)
    returns (data: seq<SensorData>, failed: bool)
    ensures failed <==> exists mac :: mac in config && !config[mac].query.ok
    ensures |data| == |config|
    ensures StrictlyAscending(data)
    ensures forall i :: 0 <= i < |data| ==>
      data[i].mac in config && data[i] == BuildSensor(data[i].mac, config[data[i].mac], ext)
    ensures forall mac :: mac in config ==> exists i :: 0 <= i < |data| && data[i].mac == mac
  {
    var buf;
    buf, failed := CollectRecords(config, ext);
    assert Distinct(buf);
    var a := new SensorData[|buf|](i requires 0 <= i < |buf| => buf[i]);
    assert a[..] == buf;
    SortByMac(a);
    data := a[..];
    SortedRecords(buf, data, config, ext);
  }
}
