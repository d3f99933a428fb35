/** Bytes as small integers, and the fixed-width little-endian fields that the
    release tooling writes and reads. */
module Bytes {
  type Byte = x: int | 0 <= x < 256

  /** Node's writeUInt16LE / writeUInt32LE for an in-range value. */
  function LittleEndian(value: nat, width: nat): (field: seq<Byte>)
    ensures |field| == width
  {
    if width == 0 then [] else [value % 256] + LittleEndian(value / 256, width - 1)
  }

  /** readUInt16LE / readUInt32LE. */
  function FromLittleEndian(field: seq<Byte>): nat {
    if field == [] then 0 else field[0] + 256 * FromLittleEndian(field[1..])
  }

  function Pow256(width: nat): (p: nat)
    ensures p > 0
  {
    if width == 0 then 1 else 256 * Pow256(width - 1)
  }

  /** A field that was wide enough for its value reads back unchanged. */
  lemma {:induction false} FieldRoundTrip(value: nat, width: nat)
    requires value < Pow256(width)
    ensures FromLittleEndian(LittleEndian(value, width)) == value
  {
    if width > 0 {
      FieldRoundTrip(value / 256, width - 1);
      assert LittleEndian(value, width)[1..] == LittleEndian(value / 256, width - 1);
    }
  }
}
