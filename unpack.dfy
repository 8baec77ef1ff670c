/**
 * Little-endian unpacking of unsigned fields, as Python's `struct.unpack`
 * does for a format of `<` followed by `B` and `H` codes, and the packing it
 * inverts. A layout lists the width in bytes of each field.
 */
module Unpack {
  import opened Wrappers

  type byte = x: int | 0 <= x < 256

  function Pow256(width: nat): (p: nat)
    ensures p >= 1
  {
    if width == 0 then 1 else 256 * Pow256(width - 1)
  }

  /** The unsigned number whose least significant byte comes first. */
  function LittleEndian(bytes: seq<byte>): (v: nat)
    ensures v < Pow256(|bytes|)
  {
    if bytes == [] then 0 else bytes[0] + 256 * LittleEndian(bytes[1..])
  }

  /** The `width` bytes of `v`, least significant first. */
  function ToLittleEndian(v: nat, width: nat): (bytes: seq<byte>)
    requires v < Pow256(width)
    ensures |bytes| == width
  {
    if width == 0 then [] else [v % 256] + ToLittleEndian(v / 256, width - 1)
  }

  lemma {:induction false} LittleEndianOfBytes(v: nat, width: nat)
    requires v < Pow256(width)
    ensures LittleEndian(ToLittleEndian(v, width)) == v
  {
    if width > 0 {
      var bytes := ToLittleEndian(v, width);
      assert bytes[1..] == ToLittleEndian(v / 256, width - 1);
      LittleEndianOfBytes(v / 256, width - 1);
    }
  }

  lemma {:induction false} BytesOfLittleEndian(bytes: seq<byte>)
    ensures ToLittleEndian(LittleEndian(bytes), |bytes|) == bytes
  {
    if bytes != [] {
      var v := LittleEndian(bytes);
      assert v % 256 == bytes[0] && v / 256 == LittleEndian(bytes[1..]);
      BytesOfLittleEndian(bytes[1..]);
    }
  }

  /** The number of bytes a layout covers (`struct.calcsize`). */
  function Size(layout: seq<nat>): nat {
    if layout == [] then 0 else layout[0] + Size(layout[1..])
  }

  /** Each value fits the width the layout gives it. */
  predicate Fits(layout: seq<nat>, values: seq<nat>) {
    |values| == |layout| && forall i :: 0 <= i < |layout| ==> values[i] < Pow256(layout[i])
  }

  /** `struct.unpack`: fails unless the data is exactly as long as the layout. */
  function Unpacked(layout: seq<nat>, data: seq<byte>): (r: Option<seq<nat>>)
    ensures r.Some? <==> |data| == Size(layout)
    ensures r.Some? ==> Fits(layout, r.value)
  {
    if layout == [] then (if data == [] then Some([]) else None)
    else if |data| < layout[0] then None
    else
      match Unpacked(layout[1..], data[layout[0]..])
      case None => None
      case Some(rest) => Some([LittleEndian(data[..layout[0]])] + rest)
  }

  /** `struct.pack`: each value in its width, one after the other. */
  function Packed(layout: seq<nat>, values: seq<nat>): (data: seq<byte>)
    requires Fits(layout, values)
    ensures |data| == Size(layout)
  {
    if layout == [] then []
    else ToLittleEndian(values[0], layout[0]) + Packed(layout[1..], values[1..])
  }

  lemma {:induction false} UnpackPacked(layout: seq<nat>, values: seq<nat>)
    requires Fits(layout, values)
    ensures Unpacked(layout, Packed(layout, values)) == Some(values)
  {
    if layout != [] {
      var head := ToLittleEndian(values[0], layout[0]);
      var data := Packed(layout, values);
      assert data[..layout[0]] == head;
      assert data[layout[0]..] == Packed(layout[1..], values[1..]);
      LittleEndianOfBytes(values[0], layout[0]);
      UnpackPacked(layout[1..], values[1..]);
      assert values == [values[0]] + values[1..];
    }
  }

  lemma {:induction false} PackUnpacked(layout: seq<nat>, data: seq<byte>)
    requires |data| == Size(layout)
    ensures Packed(layout, Unpacked(layout, data).value) == data
  {
    if layout != [] {
      var values := Unpacked(layout, data).value;
      BytesOfLittleEndian(data[..layout[0]]);
      PackUnpacked(layout[1..], data[layout[0]..]);
      assert values[1..] == Unpacked(layout[1..], data[layout[0]..]).value;
      assert data == data[..layout[0]] + data[layout[0]..];
    }
  }
}
