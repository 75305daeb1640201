/** Bytes, little-endian integers and the option type shared by the other modules. */
module Bytes {

  type byte = x: int | 0 <= x < 0x100
  type u16 = x: int | 0 <= x < 0x1_0000
  type u32 = x: int | 0 <= x < 0x1_0000_0000

  /** Little-endian values of two and of four bytes. */
  function Join2(b0: int, b1: int): int {
    b0 + 0x100 * b1
  }

  function Join4(b0: int, b1: int, b2: int, b3: int): int {
    b0 + 0x100 * b1 + 0x1_0000 * b2 + 0x100_0000 * b3
  }

  datatype Option<+T> = None | Some(value: T)

  /** `data[0] | data[1] << 8`: the shifted bytes share no bit, so the disjunction is a sum. */
  function Le16(data: seq<byte>): u16
    requires |data| >= 2
  {
    data[0] as int + 0x100 * data[1] as int
  }

  function Le32(data: seq<byte>): u32
    requires |data| >= 4
  {
    data[0] as int + 0x100 * data[1] as int + 0x1_0000 * data[2] as int + 0x100_0000 * data[3] as int
  }

  function Put32(v: u32): (r: seq<byte>)
    ensures |r| == 4
  {
    [v % 0x100, v / 0x100 % 0x100, v / 0x1_0000 % 0x100, v / 0x100_0000]
  }

  lemma Le32OfPut32(v: u32)
    ensures Le32(Put32(v)) == v
  {
    var a := v / 0x100;
    var b := a / 0x100;
    assert v / 0x1_0000 == b;
    assert v / 0x100_0000 == b / 0x100;
  }

  lemma Put32OfLe32(d: seq<byte>)
    requires |d| == 4
    ensures Put32(Le32(d)) == d
  {
    var v := Le32(d);
    var a: int := d[1] as int + 0x100 * d[2] as int + 0x1_0000 * d[3] as int;
    var b: int := d[2] as int + 0x100 * d[3] as int;
    assert v == d[0] as int + 0x100 * a && v / 0x100 == a && v % 0x100 == d[0];
    assert a == d[1] as int + 0x100 * b && a / 0x100 == b && a % 0x100 == d[1];
    assert b / 0x100 == d[3] && b % 0x100 == d[2];
    assert v / 0x1_0000 == b && v / 0x100_0000 == d[3];
  }

  /** Python's `int.from_bytes(data, "little")` for any length. */
  function FromBytesLittle(data: seq<byte>): nat
  {
    if data == [] then 0 else data[0] as int + 0x100 * FromBytesLittle(data[1..])
  }

  lemma LittleEndianReadersAgree(data: seq<byte>)
    ensures |data| == 2 ==> FromBytesLittle(data) == Le16(data)
    ensures |data| == 4 ==> FromBytesLittle(data) == Le32(data)
  {
    if |data| == 2 {
      assert data[1..][1..] == [];
    }
    if |data| == 4 {
      assert FromBytesLittle(data) == data[0] as int + 0x100 * FromBytesLittle(data[1..]);
      assert FromBytesLittle(data[1..]) == data[1] as int + 0x100 * FromBytesLittle(data[2..]) by {
        assert data[1..][1..] == data[2..];
      }
      assert FromBytesLittle(data[2..]) == data[2] as int + 0x100 * FromBytesLittle(data[3..]) by {
        assert data[2..][1..] == data[3..];
      }
      assert FromBytesLittle(data[3..]) == data[3] as int by {
        assert data[3..][1..] == [];
      }
    }
  }
}
