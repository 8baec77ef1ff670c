/**
 * The BLE logger (logger/logger.py): decodes the service data a Mijia
 * thermometer running the custom firmware advertises, and stores a reading
 * only when the packet counter of its device has changed.
 */
module Logger {
  import opened Wrappers
  import opened Unpack

  type uint16 = x: int | 0 <= x < 65536

  /** The field widths of the payload after the six address bytes: `<HHHBBB`. */
  const Layout: seq<nat> := [2, 2, 2, 1, 1, 1]

  /** The service payload's length: six address bytes and the fields of `Layout`. */
  const PayloadLength := 15

  datatype Packet = Packet(
    temp: uint16, humidity: uint16, batteryMv: uint16,
    batteryLevel: byte, counter: byte, flags: byte)

  lemma LayoutSize()
    ensures Size(Layout) == 9
  {
    assert Layout[1..][1..][1..][1..][1..][1..] == [];
  }

  lemma LittleEndianShort(lo: byte, hi: byte)
    ensures LittleEndian([lo]) == lo
    ensures LittleEndian([lo, hi]) == lo as int + 256 * hi as int
  {
    assert [lo][1..] == [];
    assert [lo, hi][1..] == [hi];
  }

  /** Unpacking the nine field bytes, field by field. */
  lemma UnpackFields(data: seq<byte>)
    requires |data| == 9
    ensures Unpacked(Layout, data) == Some([
      data[0] as int + 256 * data[1] as int, data[2] as int + 256 * data[3] as int,
      data[4] as int + 256 * data[5] as int, data[6], data[7], data[8]])
  {
    LayoutSize();
    assert Layout[1..] == [2, 2, 1, 1, 1] && Layout[1..][1..] == [2, 1, 1, 1];
    assert [2, 1, 1, 1][1..] == [1, 1, 1] && [1, 1, 1][1..] == [1, 1] && [1, 1][1..] == [1];
    assert [1][1..] == [];
    assert data[8..][1..] == [] && data[7..][1..] == data[8..] && data[6..][1..] == data[7..];
    assert data[4..][2..] == data[6..] && data[2..][2..] == data[4..];
    assert data[8..][..1] == [data[8]] && data[7..][..1] == [data[7]] && data[6..][..1] == [data[6]];
    assert data[4..][..2] == [data[4], data[5]] && data[2..][..2] == [data[2], data[3]];
    assert data[..2] == [data[0], data[1]];
    LittleEndianShort(data[8], 0);
    LittleEndianShort(data[7], 0);
    LittleEndianShort(data[6], 0);
    LittleEndianShort(data[4], data[5]);
    LittleEndianShort(data[2], data[3]);
    LittleEndianShort(data[0], data[1]);
    var f6: seq<nat> := [];
    var f5 := [data[8] as nat] + f6;
    var f4 := [data[7] as nat] + f5;
    var f3 := [data[6] as nat] + f4;
    var f2 := [data[4] as int + 256 * data[5] as int] + f3;
    var f1 := [data[2] as int + 256 * data[3] as int] + f2;
    assert Unpacked([], data[9..]) == Some(f6);
    assert Unpacked([1], data[8..]) == Some(f5);
    assert Unpacked([1, 1], data[7..]) == Some(f4);
    assert Unpacked([1, 1, 1], data[6..]) == Some(f3);
    assert Unpacked([2, 1, 1, 1], data[4..]) == Some(f2);
    assert Unpacked([2, 2, 1, 1, 1], data[2..]) == Some(f1);
    assert Unpacked(Layout, data) == Some([data[0] as int + 256 * data[1] as int] + f1);
    assert [data[0] as int + 256 * data[1] as int] + f1 == [
      data[0] as int + 256 * data[1] as int, data[2] as int + 256 * data[3] as int,
      data[4] as int + 256 * data[5] as int, data[6], data[7], data[8]];
  }

  /**
   * The length check and `struct.unpack("<HHHBBB", data[6:])` of `callback`;
   * the six leading bytes are the sender's address and are not decoded.
   */
  function Decode(payload: seq<byte>): (p: Option<Packet>)
    ensures p.Some? <==> |payload| == PayloadLength
    ensures p.Some? ==>
      && p.value.temp == payload[6] as int + 256 * payload[7] as int
      && p.value.humidity == payload[8] as int + 256 * payload[9] as int
      && p.value.batteryMv == payload[10] as int + 256 * payload[11] as int
      && p.value.batteryLevel == payload[12]
      && p.value.counter == payload[13]
      && p.value.flags == payload[14]
  {
    if |payload| != PayloadLength then None
    else
      LayoutSize();
      UnpackFields(payload[6..]);
      var f := Unpacked(Layout, payload[6..]).value;
      Some(Packet(f[0], f[1], f[2], f[3], f[4], f[5]))
  }

  /** The payload a sensor with these six address bytes sends for this packet. */
  function Encode(address: seq<byte>, p: Packet): (payload: seq<byte>)
    requires |address| == 6
  {
    LayoutSize();
    address + Packed(Layout, [p.temp, p.humidity, p.batteryMv, p.batteryLevel, p.counter, p.flags])
  }

  lemma DecodeEncode(address: seq<byte>, p: Packet)
    requires |address| == 6
    ensures Decode(Encode(address, p)) == Some(p)
  {
    var values := [p.temp, p.humidity, p.batteryMv, p.batteryLevel, p.counter, p.flags];
    LayoutSize();
    UnpackPacked(Layout, values);
    assert Encode(address, p)[6..] == Packed(Layout, values);
  }

  lemma EncodeDecode(payload: seq<byte>)
    requires |payload| == PayloadLength
    ensures Encode(payload[..6], Decode(payload).value) == payload
  {
    LayoutSize();
    UnpackFields(payload[6..]);
    PackUnpacked(Layout, payload[6..]);
    assert payload == payload[..6] + payload[6..];
  }

  /** What the scanner hands the callback: the sender's address and its service data. */
  datatype Advertisement = Advertisement(
    address: string, serviceUuids: seq<string>, serviceData: map<string, seq<byte>>)

  /** The columns the callback inserts; the counter and flags are not stored. */
  datatype Row = Row(temp: uint16, humidity: uint16, batteryMv: uint16, batteryLevel: byte)

  /** What the callback does with one advertisement. */
  datatype Verdict =
    | NotConfigured            // the address is not a configured device
    | WrongUuidCount           // not exactly one service UUID
    | NoServiceData            // no service data under that UUID (a KeyError in the source)
    | WrongLength              // the service data is not 15 bytes long
    | Repeated                 // the counter equals the stored one: nothing is stored
    | Insert(mac: string, row: Row, counter: byte)

  /** `str.lower` on the ASCII letters an address is made of. */
  function LowerChar(c: char): (d: char)
    ensures !('A' <= d <= 'Z')
    ensures 'A' <= c <= 'Z' ==> 'a' <= d <= 'z' && d as int - 'a' as int == c as int - 'A' as int
    ensures !('A' <= c <= 'Z') ==> d == c
  {
    if 'A' <= c <= 'Z' then (c as int + 32) as char else c
  }

  function Lower(s: string): (t: string)
    ensures |t| == |s| && forall i :: 0 <= i < |s| ==> t[i] == LowerChar(s[i])
  {
    if s == [] then [] else [LowerChar(s[0])] + Lower(s[1..])
  }

  /** Lower-casing an address twice is lower-casing it once. */
  lemma {:induction false} LowerIdempotent(s: string)
    ensures Lower(Lower(s)) == Lower(s)
  {
    if s != [] {
      LowerIdempotent(s[1..]);
      assert Lower(s)[1..] == Lower(s[1..]);
    }
  }

  /** The checks and the counter comparison of `callback`, in the source's order. */
  function Judge(counters: map<string, int>, adv: Advertisement): (v: Verdict)
    ensures v.Insert? ==>
      && v.mac == Lower(adv.address) && v.mac in counters && counters[v.mac] != v.counter
  {
    var mac := Lower(adv.address);
    if mac !in counters then NotConfigured
    else if |adv.serviceUuids| != 1 then WrongUuidCount
    else if adv.serviceUuids[0] !in adv.serviceData then NoServiceData
    else
      match Decode(adv.serviceData[adv.serviceUuids[0]])
      case None => WrongLength
      case Some(p) =>
        if counters[mac] != p.counter
        then Insert(mac, Row(p.temp, p.humidity, p.batteryMv, p.batteryLevel), p.counter)
        else Repeated
  }

  /** The counters after a verdict: only an insert records its packet's counter. */
  function Apply(counters: map<string, int>, v: Verdict): (next: map<string, int>)
    requires v.Insert? ==> v.mac in counters
    ensures next.Keys == counters.Keys
    ensures forall mac :: mac in counters && !(v.Insert? && mac == v.mac) ==> next[mac] == counters[mac]
    ensures v.Insert? ==> next[v.mac] == v.counter
  {
    if v.Insert? then counters[v.mac := v.counter] else counters
  }

  /** Every configured device starts with counter 0, as `main` sets them. */
  function StartCounters(macs: set<string>): (counters: map<string, int>)
    ensures counters.Keys == macs
    ensures forall mac :: mac in counters ==> counters[mac] == 0
  {
    map mac | mac in macs :: 0
  }

  /** The logger's state: the last counter seen per configured device. */
  class MijiaLogger {
    var counters: map<string, int>

    /** The loop of `main` that resets every configured device's counter. */
    constructor (macs: set<string>)
      ensures counters == StartCounters(macs)
    {
      var reset: map<string, int> := map[];
      var rest := macs;
      while rest != {}
        invariant rest <= macs
        invariant reset == StartCounters(macs - rest)
      {
        var mac :| mac in rest;
        reset := reset[mac := 0];
        rest := rest - {mac};
      }
      assert macs - rest == macs;
      counters := reset;
    }

    /** `callback`: returns what it does with the advertisement and updates the counter. */
    method Handle(adv: Advertisement) returns (v: Verdict)
      modifies this
      ensures v == Judge(old(counters), adv)
      ensures counters == Apply(old(counters), v)
    {
      var mac := Lower(adv.address);
      if mac !in counters {
        return NotConfigured;
      }
      if |adv.serviceUuids| != 1 {
        return WrongUuidCount;
      }
      var uuid := adv.serviceUuids[0];
      if uuid !in adv.serviceData {
        return NoServiceData;
      }
      var data := adv.serviceData[uuid];
      if |data| != PayloadLength {
        return WrongLength;
      }
      var p := Decode(data).value;
      if counters[mac] != p.counter {
        v := Insert(mac, Row(p.temp, p.humidity, p.batteryMv, p.batteryLevel), p.counter);
        counters := counters[mac := p.counter];
      } else {
        v := Repeated;
      }
    }
  }

  /** An advertisement from an address that is not configured is ignored. */
  lemma IgnoredUnlessConfigured(counters: map<string, int>, adv: Advertisement)
    requires Lower(adv.address) !in counters
    ensures Judge(counters, adv) == NotConfigured
    ensures Apply(counters, Judge(counters, adv)) == counters
  {
  }

  /** A packet that fails a check stores nothing and changes no counter. */
  lemma RejectedPackets(counters: map<string, int>, adv: Advertisement)
    requires Lower(adv.address) in counters
    ensures |adv.serviceUuids| != 1 ==> Judge(counters, adv) == WrongUuidCount
    ensures (|adv.serviceUuids| == 1 && adv.serviceUuids[0] in adv.serviceData &&
             |adv.serviceData[adv.serviceUuids[0]]| != PayloadLength) ==>
      Judge(counters, adv) == WrongLength
    ensures !Judge(counters, adv).Insert? ==> Apply(counters, Judge(counters, adv)) == counters
  {
  }

  /** A configured device's well-formed packet. */
  predicate WellFormed(counters: map<string, int>, adv: Advertisement) {
    && Lower(adv.address) in counters
    && |adv.serviceUuids| == 1
    && adv.serviceUuids[0] in adv.serviceData
    && |adv.serviceData[adv.serviceUuids[0]]| == PayloadLength
  }

  function PayloadOf(adv: Advertisement): seq<byte>
    requires |adv.serviceUuids| == 1 && adv.serviceUuids[0] in adv.serviceData
  {
    adv.serviceData[adv.serviceUuids[0]]
  }

  /**
   * A well-formed packet is stored exactly when its counter differs from the
   * stored one; the row holds the decoded temperature, humidity, battery
   * voltage and level, and the stored counter becomes the packet's.
   */
  lemma InsertIffCounterChanged(counters: map<string, int>, adv: Advertisement)
    requires WellFormed(counters, adv)
    ensures var mac, p := Lower(adv.address), Decode(PayloadOf(adv)).value;
      var v := Judge(counters, adv);
      && (v.Insert? <==> counters[mac] != p.counter)
      && (v.Insert? ==> v.row == Row(p.temp, p.humidity, p.batteryMv, p.batteryLevel))
      && Apply(counters, v)[mac] == p.counter
  {
  }

  /** The same advertisement handled twice in a row is stored at most once. */
  lemma RepeatStoredOnce(counters: map<string, int>, adv: Advertisement)
    ensures var once := Apply(counters, Judge(counters, adv));
      && !Judge(once, adv).Insert?
      && Apply(once, Judge(once, adv)) == once
  {
    var v := Judge(counters, adv);
    if v.Insert? {
      var once := Apply(counters, v);
      assert once.Keys == counters.Keys;
      assert once[v.mac] == v.counter;
    }
  }

  /** Only the sender's counter can change; no device is added or removed. */
  lemma OnlySenderChanges(counters: map<string, int>, adv: Advertisement, other: string)
    requires other in counters && other != Lower(adv.address)
    ensures var next := Apply(counters, Judge(counters, adv));
      next.Keys == counters.Keys && next[other] == counters[other]
  {
  }

  /** Right after start-up a packet carrying counter 0 is not stored. */
  lemma FirstZeroCounterSkipped(macs: set<string>, adv: Advertisement)
    requires WellFormed(StartCounters(macs), adv)
    requires Decode(PayloadOf(adv)).value.counter == 0
    ensures Judge(StartCounters(macs), adv) == Repeated
  {
  }

  /**
   * Right after start-up, a configured sensor's encoded packet under any single
   * service UUID, with a non-zero counter, is stored with its own readings, and
   * the same advertisement handled again is a repeat and is not stored.
   */
  lemma SensorPacketStored(macs: set<string>, adv: Advertisement, u: string, address: seq<byte>, p: Packet)
    requires |address| == 6 && Lower(adv.address) in macs
    requires adv.serviceUuids == [u] && u in adv.serviceData && adv.serviceData[u] == Encode(address, p)
    requires p.counter != 0
    ensures var v := Judge(StartCounters(macs), adv);
      && v == Insert(Lower(adv.address), Row(p.temp, p.humidity, p.batteryMv, p.batteryLevel), p.counter)
      && Judge(Apply(StartCounters(macs), v), adv) == Repeated
  {
    DecodeEncode(address, p);
    RepeatStoredOnce(StartCounters(macs), adv);
  }
}
