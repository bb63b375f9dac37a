/** Bytes on the wire: fixed-width integers, big-endian fields, slices written in place. */
module Wire {

  type byte = x: int | 0 <= x < 0x100
  type u16 = x: int | 0 <= x < 0x1_0000
  type u32 = x: int | 0 <= x < 0x1_0000_0000
  type u64 = x: int | 0 <= x < 0x1_0000_0000_0000_0000
  type Mac = m: seq<byte> | |m| == 6 witness [0, 0, 0, 0, 0, 0]

  datatype Option<+T> = None | Some(value: T)

  function Be16(b: seq<byte>, off: nat): u16
    requires off + 2 <= |b|
  {
    b[off] as int * 0x100 + b[off + 1]
  }

  function Be32(b: seq<byte>, off: nat): u32
    requires off + 4 <= |b|
  {
    b[off] as int * 0x100_0000 + b[off + 1] as int * 0x1_0000 + b[off + 2] as int * 0x100 + b[off + 3]
  }

  function BytesOf16(x: u16): (s: seq<byte>)
    ensures |s| == 2 && Be16(s, 0) == x
  {
    [x / 0x100, x % 0x100]
  }

  function BytesOf32(x: u32): (s: seq<byte>)
    ensures |s| == 4 && Be32(s, 0) == x
  {
    var high, low := x / 0x1_0000, x % 0x1_0000;
    assert x == high * 0x1_0000 + low;
    assert high == high / 0x100 * 0x100 + high % 0x100;
    assert low == low / 0x100 * 0x100 + low % 0x100;
    [high / 0x100, high % 0x100, low / 0x100, low % 0x100]
  }

  lemma Be32Injective(a: seq<byte>, i: nat, b: seq<byte>, j: nat)
    requires i + 4 <= |a| && j + 4 <= |b|
    requires Be32(a, i) == Be32(b, j)
    ensures a[i..i + 4] == b[j..j + 4]
  {
    assert a[i] == b[j] && a[i + 1] == b[j + 1] && a[i + 2] == b[j + 2] && a[i + 3] == b[j + 3];
  }

  /** `b` with `data` copied over it from offset `off`: what `copy_from_slice` leaves. */
  function Put(b: seq<byte>, off: nat, data: seq<byte>): (r: seq<byte>)
    requires off + |data| <= |b|
    ensures |r| == |b|
    ensures forall i :: 0 <= i < |b| ==> r[i] == if off <= i < off + |data| then data[i - off] else b[i]
  {
    b[..off] + data + b[off + |data|..]
  }

  method CopyFromSlice(buf: array<byte>, off: nat, data: seq<byte>)
    requires off + |data| <= buf.Length
    modifies buf
    ensures buf[..] == Put(old(buf[..]), off, data)
  {
    for k := 0 to |data|
      invariant buf[..] == Put(old(buf[..]), off, data[..k])
    {
      buf[off + k] := data[k];
    }
    assert data[..|data|] == data;
  }

  /** Stores a big-endian word: its high byte at `off`, its low byte after it. */
  method StoreBe16(buf: array<byte>, off: nat, v: u16)
    requires off + 2 <= buf.Length
    modifies buf
    ensures buf[..] == Put(old(buf[..]), off, BytesOf16(v))
  {
    buf[off] := v / 0x100;
    buf[off + 1] := v % 0x100;
  }
}
