/** Guest physical memory as the accelerator sees it (accelerator/include/memory_interface.h):
    bytes at addresses, some absent, some read-only. An access succeeds exactly when every byte
    it touches allows it. */
module GuestMemory {

  const UINT16_MAX: nat := 0xffff
  const UINT32_MAX: nat := 0xffff_ffff
  const UINT64_MAX: nat := 0xffff_ffff_ffff_ffff

  type Byte = x: int | 0 <= x < 256

  datatype Memory = Memory(cells: map<int, Byte>, rom: set<int>)

  predicate Readable(m: Memory, address: nat, n: nat) {
    forall x :: address <= x < address + n ==> x in m.cells
  }

  predicate Writable(m: Memory, address: nat, n: nat) {
    forall x :: address <= x < address + n ==> x in m.cells && x !in m.rom
  }

  function ByteAt(m: Memory, x: int): Byte { if x in m.cells then m.cells[x] else 0 }

  function Bytes(m: Memory, address: nat, n: nat): (bytes: seq<Byte>)
    ensures |bytes| == n
    ensures forall i :: 0 <= i < n ==> bytes[i] == ByteAt(m, address + i)
  {
    seq<Byte>(n, i => ByteAt(m, address + i))
  }

  /** `m` with the bytes stored at `address`. */
  function Stored(m: Memory, address: nat, bytes: seq<Byte>): (r: Memory)
    ensures r.cells.Keys == m.cells.Keys && r.rom == m.rom
    ensures forall x :: x in m.cells ==>
              ByteAt(r, x) == if address <= x < address + |bytes| then bytes[x - address] else ByteAt(m, x)
  {
    m.(cells := map x | x in m.cells ::
         if address <= x < address + |bytes| then bytes[x - address] else m.cells[x])
  }

  /** Two stores to adjacent pieces are one store. */
  lemma StoredAppend(m: Memory, address: nat, left: seq<Byte>, right: seq<Byte>)
    ensures Stored(Stored(m, address, left), address + |left|, right) == Stored(m, address, left + right)
  {
    var a, b := Stored(Stored(m, address, left), address + |left|, right), Stored(m, address, left + right);
    assert a.cells.Keys == b.cells.Keys;
    forall x | x in a.cells ensures a.cells[x] == b.cells[x] {
      assert ByteAt(a, x) == ByteAt(b, x);
    }
    assert a.cells == b.cells;
  }

  lemma StoredNothing(m: Memory, address: nat)
    ensures Stored(m, address, []) == m
  {
    assert Stored(m, address, []).cells == m.cells;
  }

  /** Two halves of a span can be read exactly when the whole can, and give its bytes. */
  lemma ReadAppend(m: Memory, address: nat, n: nat, k: nat)
    ensures Readable(m, address, n) && Readable(m, address + n, k) <==> Readable(m, address, n + k)
    ensures Bytes(m, address, n) + Bytes(m, address + n, k) == Bytes(m, address, n + k)
  {
  }

  lemma WriteAppend(m: Memory, address: nat, n: nat, k: nat)
    ensures Writable(m, address, n) && Writable(m, address + n, k) <==> Writable(m, address, n + k)
  {
  }

  predicate Overlaps(a: nat, aEnd: nat, b: nat, bEnd: nat) { a < bEnd && b < aEnd }

  // ----------------------------------------------------------- little endian

  function Power(n: nat): nat { if n == 0 then 1 else 256 * Power(n - 1) }

  /** The low `n` bytes of `value`, least significant first. */
  function ToBytes(value: nat, n: nat): (bytes: seq<Byte>)
    ensures |bytes| == n
  {
    if n == 0 then [] else [value % 256] + ToBytes(value / 256, n - 1)
  }

  function FromBytes(bytes: seq<Byte>): nat {
    if |bytes| == 0 then 0 else bytes[0] + 256 * FromBytes(bytes[1..])
  }

  lemma {:induction false} FromBytesBound(bytes: seq<Byte>)
    ensures FromBytes(bytes) < Power(|bytes|)
  {
    if |bytes| > 0 {
      FromBytesBound(bytes[1..]);
    }
  }

  /** Reading back what was stored. */
  lemma {:induction false} FromToBytes(value: nat, n: nat)
    requires value < Power(n)
    ensures FromBytes(ToBytes(value, n)) == value
  {
    if n > 0 {
      FromToBytes(value / 256, n - 1);
      assert ToBytes(value, n)[1..] == ToBytes(value / 256, n - 1);
    }
  }

  /** Storing back what was read. */
  lemma {:induction false} ToFromBytes(bytes: seq<Byte>)
    ensures ToBytes(FromBytes(bytes), |bytes|) == bytes
  {
    if |bytes| > 0 {
      ToFromBytes(bytes[1..]);
      var rest := FromBytes(bytes[1..]);
      assert (bytes[0] + 256 * rest) % 256 == bytes[0] && (bytes[0] + 256 * rest) / 256 == rest;
    }
  }

  lemma Powers()
    ensures Power(2) == UINT16_MAX + 1 && Power(4) == UINT32_MAX + 1 && Power(8) == UINT64_MAX + 1
  {
    assert Power(1) == 256;
    assert Power(2) == 0x1_0000;
    assert Power(3) == 0x100_0000;
    assert Power(4) == 0x1_0000_0000;
    assert Power(5) == 0x100_0000_0000;
    assert Power(6) == 0x1_0000_0000_0000;
    assert Power(7) == 0x100_0000_0000_0000;
  }

  /** 32-bit two's complement. */
  function Signed(bits: nat): int { if bits >= 0x8000_0000 then bits - 0x1_0000_0000 else bits }

  function Unsigned(value: int): (bits: nat)
    requires -0x8000_0000 <= value < 0x8000_0000
    ensures bits <= UINT32_MAX && Signed(bits) == value
  {
    if value < 0 then value + 0x1_0000_0000 else value
  }
}
