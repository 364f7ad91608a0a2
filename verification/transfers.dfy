/** Beat-limited memory transfers and operand loads of the L2 engine
    (accelerator/src/l2_accelerator.cpp: transfer, load). */
module Transfers {
  import opened Basics
  import opened Costs
  import opened GuestMemory
  import opened Commands
  import opened Semantics
  import opened Meters

  /** An address the engine may touch: not null, addressable, outside its own registers. */
  predicate ByteAllowed(c: Config, x: int) {
    0 < x < UINT64_MAX && !(c.mmioBase <= x < c.mmioBase + MMIO_SIZE)
  }

  ghost predicate Allowed(c: Config, address: nat, n: nat) {
    forall x {:trigger ByteAllowed(c, x)} :: address <= x < address + n ==> ByteAllowed(c, x)
  }

  /** The engine's test before a transfer. */
  predicate Rejects(c: Config, address: nat, n: nat) {
    address == 0 || n > UINT64_MAX || address > UINT64_MAX - n
    || Overlaps(address, address + n, c.mmioBase, c.mmioBase + MMIO_SIZE)
  }

  /** The test accepts a transfer exactly when every byte of it is allowed. */
  lemma RejectsExactly(c: Config, address: nat, n: nat)
    requires n > 0
    ensures Rejects(c, address, n) <==> !Allowed(c, address, n)
  {
    if Allowed(c, address, n) {
      assert ByteAllowed(c, address) && ByteAllowed(c, address + n - 1);
      var x := if address < c.mmioBase then c.mmioBase else address;
      assert x < address + n ==> ByteAllowed(c, x);
    }
  }

  /** A span that may be touched and can be read. */
  ghost predicate Touchable(c: Config, m: Memory, address: nat, n: nat) {
    Allowed(c, address, n) && Readable(m, address, n)
  }

  lemma TouchAppend(c: Config, m: Memory, address: nat, n: nat, k: nat)
    ensures Touchable(c, m, address, n) && Touchable(c, m, address + n, k) <==> Touchable(c, m, address, n + k)
    ensures Allowed(c, address, n) && Allowed(c, address + n, k) <==> Allowed(c, address, n + k)
  {
    ReadAppend(m, address, n, k);
  }

  // -------------------------------------------------------------------- beats

  /** Requests of these sizes cover `[address, address + n)` in order, none empty, none crossing
      an aligned beat. */
  ghost predicate Tiles(beat: nat, address: nat, sizes: seq<nat>, n: nat)
    requires beat > 0
    decreases |sizes|
  {
    if |sizes| == 0 then n == 0
    else
      var last := |sizes| - 1;
      && 1 <= sizes[last] <= n && Tiles(beat, address, sizes[..last], n - sizes[last])
      && (address + n - sizes[last]) % beat + sizes[last] <= beat
  }

  lemma TilesAppend(beat: nat, address: nat, sizes: seq<nat>, n: nat, size: nat)
    requires beat > 0 && Tiles(beat, address, sizes, n) && size >= 1
    requires (address + n) % beat + size <= beat
    ensures Tiles(beat, address, sizes + [size], n + size)
  {
    assert (sizes + [size])[..|sizes|] == sizes;
  }

  /** The size of the next request: up to the end of the transfer or of the beat. */
  function RequestSize(beat: nat, address: nat, left: nat): (size: nat)
    requires beat > 0 && left > 0
    ensures 1 <= size <= left && address % beat + size <= beat
  {
    var room := beat - address % beat;
    if left < room then left else room
  }

  /** Reads the bytes one request at a time. */
  method TransferRead(c: Config, m: Memory, address: nat, n: nat, role: Role, meter: Meter)
    returns (ok: bool, data: seq<Byte>, sizes: seq<nat>)
    requires c.Valid() && n > 0 && Fair(meter.stats, c)
    modifies meter
    ensures ok <==> Allowed(c, address, n) && Readable(m, address, n)
    ensures ok ==> data == Bytes(m, address, n) && Tiles(c.memBytes, address, sizes, n)
    ensures Fair(meter.stats, c)
    ensures ok ==> Moving(old(meter.stats), meter.stats, role, n, 0)
    ensures ok ==> meter.stats.requests == old(meter.stats.requests) + |sizes|
  {
    ghost var before := meter.stats;
    data, sizes := [], [];
    RejectsExactly(c, address, n);
    if Rejects(c, address, n) {
      return false, [], [];
    }
    meter.Open(c, role, n);
    var offset := 0;
    while offset < n
      invariant offset <= n && Readable(m, address, offset) && data == Bytes(m, address, offset)
      invariant Tiles(c.memBytes, address, sizes, offset)
      invariant Moving(before, meter.stats, role, n, n - offset) && Fair(meter.stats, c)
      invariant meter.stats.requests == before.requests + |sizes|
    {
      var request := address + offset;
      var size := RequestSize(c.memBytes, request, n - offset);
      meter.Request(c, role, size, before, n, n - offset);
      if !Readable(m, request, size) {
        return false, [], [];
      }
      ReadAppend(m, address, offset, size);
      TilesAppend(c.memBytes, address, sizes, offset, size);
      data := data + Bytes(m, request, size);
      sizes := sizes + [size];
      offset := offset + size;
    }
    ok := true;
  }

  lemma StoredMore(m: Memory, address: nat, data: seq<Byte>, from: nat, to: nat)
    requires from <= to <= |data|
    ensures Stored(Stored(m, address, data[..from]), address + from, data[from..to])
            == Stored(m, address, data[..to])
  {
    StoredAppend(m, address, data[..from], data[from..to]);
    assert data[..from] + data[from..to] == data[..to];
  }

  /** One write request. */
  method WriteRequest(c: Config, ghost m: Memory, now: Memory, address: nat, data: seq<Byte>, offset: nat,
                      size: nat, ghost before: Stats, meter: Meter)
    returns (ok: bool, after: Memory)
    requires size > 0 && offset + size <= |data| && now == Stored(m, address, data[..offset])
    requires Writable(m, address, offset) && Fair(before, c) && Fair(meter.stats, c)
    requires Moving(before, meter.stats, ForResult, |data|, |data| - offset)
    modifies meter
    ensures ok ==> Writable(m, address, offset + size) && after == Stored(m, address, data[..offset + size])
    ensures !ok ==> !Writable(m, address, |data|) && after == now
    ensures Fair(meter.stats, c) && Moving(before, meter.stats, ForResult, |data|, |data| - offset - size)
  {
    meter.Request(c, ForResult, size, before, |data|, |data| - offset);
    WriteAppend(m, address, offset, size);
    ok := Writable(now, address + offset, size);
    after := now;
    if ok {
      StoredMore(m, address, data, offset, offset + size);
      after := Stored(now, address + offset, data[offset..offset + size]);
    } else {
      assert !Writable(m, address + offset, size);
    }
  }

  /** Writes the bytes one request at a time; a refused request leaves the earlier ones stored. */
  method TransferWrite(c: Config, m: Memory, address: nat, data: seq<Byte>, meter: Meter)
    returns (ok: bool, after: Memory, ghost written: nat)
    requires c.Valid() && |data| > 0 && Fair(meter.stats, c)
    modifies meter
    ensures ok <==> Allowed(c, address, |data|) && Writable(m, address, |data|)
    ensures written <= |data| && Writable(m, address, written) && after == Stored(m, address, data[..written])
    ensures ok ==> after == Stored(m, address, data)
    ensures Fair(meter.stats, c)
    ensures ok ==> Charged(old(meter.stats), meter.stats, ResultBill(|data|))
  {
    ghost var before := meter.stats;
    after, written := m, 0;
    RejectsExactly(c, address, |data|);
    StoredNothing(m, address);
    if Rejects(c, address, |data|) {
      return false, m, 0;
    }
    meter.Open(c, ForResult, |data|);
    var offset := 0;
    while offset < |data|
      invariant offset == written <= |data| && after == Stored(m, address, data[..offset])
      invariant Writable(m, address, offset)
      invariant Moving(before, meter.stats, ForResult, |data|, |data| - offset) && Fair(meter.stats, c)
    {
      var size := RequestSize(c.memBytes, address + offset, |data| - offset);
      ok, after := WriteRequest(c, m, after, address, data, offset, size, before, meter);
      if !ok {
        return false, after, written;
      }
      offset := offset + size;
      written := offset;
    }
    assert data[..|data|] == data;
    MovedCharge(before, meter.stats, ForResult, |data|);
    ok := true;
  }

  // -------------------------------------------------------------------- loads

  /** The address of element `i` of a strided operand. */
  function At(base: nat, stride: nat, i: nat): nat { base + 4 * Offset(i, stride) }

  /** The costs of elements `start .. start + count`. */
  function Loaded(m: Memory, base: nat, stride: nat, start: nat, count: nat): (costs: seq<int>)
    ensures |costs| == count
  {
    if count == 0 then []
    else Loaded(m, base, stride, start, count - 1)
         + [ValueOf(CostAt(m, At(base, stride, start + count - 1)))]
  }

  predicate LoadFine(m: Memory, base: nat, stride: nat, start: nat, count: nat) {
    count == 0 || (LoadFine(m, base, stride, start, count - 1)
                   && CostAt(m, At(base, stride, start + count - 1)).Some?)
  }

  /** The engine may touch every element. */
  ghost predicate LoadAllowed(c: Config, base: nat, stride: nat, start: nat, count: nat) {
    count == 0 || (LoadAllowed(c, base, stride, start, count - 1)
                   && Allowed(c, At(base, stride, start + count - 1), 4))
  }

  method LoadElement(c: Config, m: Memory, base: nat, stride: nat, i: nat, meter: Meter)
    returns (ok: bool, value: int)
    requires c.Valid() && Fair(meter.stats, c)
    modifies meter
    ensures ok <==> ElementLoads(c, m, At(base, stride, i))
    ensures ok ==> Some(value) == CostAt(m, At(base, stride, i))
    ensures Fair(meter.stats, c) && (ok ==> Charged(old(meter.stats), meter.stats, OperandBill(4)))
  {
    OffsetIsProduct(i, stride);
    var data, sizes;
    ghost var before := meter.stats;
    value := 0;
    ok, data, sizes := TransferRead(c, m, base + i * stride * 4, 4, ForOperand, meter);
    if ok {
      MovedCharge(before, meter.stats, ForOperand, 4);
      value := Signed(FromBytes(data));
    }
  }

  /** Every element can be read and may be touched. */
  ghost predicate Loadable(c: Config, m: Memory, base: nat, stride: nat, start: nat, count: nat) {
    count == 0 || (Loadable(c, m, base, stride, start, count - 1)
                   && ElementLoads(c, m, At(base, stride, start + count - 1)))
  }

  ghost predicate ElementLoads(c: Config, m: Memory, address: nat) {
    CostAt(m, address).Some? && Allowed(c, address, 4)
  }

  lemma {:induction false} LoadablePrefix(c: Config, m: Memory, base: nat, stride: nat, start: nat, k: nat, count: nat)
    requires k <= count && Loadable(c, m, base, stride, start, count)
    ensures Loadable(c, m, base, stride, start, k)
  {
    if k < count {
      LoadablePrefix(c, m, base, stride, start, k, count - 1);
    }
  }

  lemma {:induction false} LoadableIs(c: Config, m: Memory, base: nat, stride: nat, start: nat, count: nat)
    ensures Loadable(c, m, base, stride, start, count) <==>
              LoadFine(m, base, stride, start, count) && LoadAllowed(c, base, stride, start, count)
  {
    if count > 0 {
      LoadableIs(c, m, base, stride, start, count - 1);
    }
  }

  lemma LoadStops(c: Config, m: Memory, base: nat, stride: nat, start: nat, i: nat, count: nat)
    requires i < count && !ElementLoads(c, m, At(base, stride, start + i))
    ensures !Loadable(c, m, base, stride, start, count)
  {
    if Loadable(c, m, base, stride, start, count) {
      LoadablePrefix(c, m, base, stride, start, i + 1, count);
    }
  }

  /** One transfer per element. */
  method LoadStrided(c: Config, m: Memory, base: nat, stride: nat, start: nat, count: nat, meter: Meter)
    returns (ok: bool, bank: seq<int>)
    requires c.Valid() && Fair(meter.stats, c)
    modifies meter
    ensures ok <==> Loadable(c, m, base, stride, start, count)
    ensures ok ==> bank == Loaded(m, base, stride, start, count)
    ensures Fair(meter.stats, c)
    ensures ok ==> Charged(old(meter.stats), meter.stats, OperandBill(4 * count))
  {
    bank := [];
    ghost var before := meter.stats;
    ChargeNothing(before, c);
    for i := 0 to count
      invariant Loadable(c, m, base, stride, start, i) && bank == Loaded(m, base, stride, start, i)
      invariant Fair(meter.stats, c) && Charged(before, meter.stats, OperandBill(4 * i))
    {
      ghost var now := meter.stats;
      var value;
      ok, value := LoadElement(c, m, base, stride, start + i, meter);
      if !ok {
        LoadStops(c, m, base, stride, start, i, count);
        return;
      }
      bank := bank + [value];
      OperandCharge(before, now, meter.stats, 4 * i, 4);
    }
    ok := true;
  }

  /** A contiguous operand is one byte range. */
  lemma {:induction false} ContiguousRange(c: Config, m: Memory, base: nat, start: nat, count: nat)
    ensures LoadFine(m, base, 1, start, count) <==> Readable(m, base + 4 * start, 4 * count)
    ensures LoadAllowed(c, base, 1, start, count) <==> Allowed(c, base + 4 * start, 4 * count)
  {
    if count > 0 {
      ContiguousRange(c, m, base, start, count - 1);
      OffsetUnit(start + count - 1);
      ReadAppend(m, base + 4 * start, 4 * (count - 1), 4);
      TouchAppend(c, m, base + 4 * start, 4 * (count - 1), 4);
    }
  }

  /** Whole costs decoded so far and the bytes of the next one. */
  ghost predicate Assembled(m: Memory, base: nat, start: nat, bank: seq<int>, cost: seq<Byte>) {
    && bank == Loaded(m, base, 1, start, |bank|) && |cost| < 4
    && cost == Bytes(m, base + 4 * start + 4 * |bank|, |cost|)
  }

  /** Feeds the bytes of one transfer through the 4-byte assembly register. */
  method Assemble(m: Memory, base: nat, start: nat, data: seq<Byte>, bank: seq<int>, cost: seq<Byte>)
    returns (bank': seq<int>, cost': seq<Byte>)
    requires Assembled(m, base, start, bank, cost)
    requires var filled := 4 * |bank| + |cost|; data == Bytes(m, base + 4 * start + filled, |data|)
    requires Readable(m, base + 4 * start, 4 * |bank| + |cost| + |data|)
    ensures Assembled(m, base, start, bank', cost')
    ensures 4 * |bank'| + |cost'| == 4 * |bank| + |cost| + |data|
  {
    bank', cost' := bank, cost;
    for i := 0 to |data|
      invariant Assembled(m, base, start, bank', cost')
      invariant 4 * |bank'| + |cost'| == 4 * |bank| + |cost| + i
    {
      ghost var a := base + 4 * start + 4 * |bank'|;
      ReadAppend(m, a, |cost'|, 1);
      assert data[i] == ByteAt(m, a + |cost'|);
      assert cost' + [data[i]] == Bytes(m, a, |cost'| + 1);
      cost' := cost' + [data[i]];
      if |cost'| == 4 {
        OffsetUnit(start + |bank'|);
        assert At(base, 1, start + |bank'|) == a;
        bank', cost' := bank' + [Signed(FromBytes(cost'))], [];
      }
    }
  }

  /** Maximal beat-limited spans, assembled into costs across beat boundaries. */
  method LoadContiguous(c: Config, m: Memory, base: nat, start: nat, count: nat, meter: Meter)
    returns (ok: bool, bank: seq<int>)
    requires c.Valid() && Fair(meter.stats, c)
    modifies meter
    ensures ok <==> LoadFine(m, base, 1, start, count) && LoadAllowed(c, base, 1, start, count)
    ensures ok ==> bank == Loaded(m, base, 1, start, count)
    ensures Fair(meter.stats, c)
    ensures ok ==> Charged(old(meter.stats), meter.stats, OperandBill(4 * count))
  {
    ContiguousRange(c, m, base, start, count);
    bank := [];
    ghost var before := meter.stats;
    ChargeNothing(before, c);
    var cost: seq<Byte> := [];
    var first, filled := base + 4 * start, 0;
    while filled < 4 * count
      invariant filled <= 4 * count && Touchable(c, m, first, filled)
      invariant Assembled(m, base, start, bank, cost) && 4 * |bank| + |cost| == filled
      invariant Fair(meter.stats, c) && Charged(before, meter.stats, OperandBill(filled))
    {
      ghost var now := meter.stats;
      var bytes := RequestSize(c.memBytes, first + filled, 4 * count - filled);
      TouchAppend(c, m, first, filled, bytes);
      TouchAppend(c, m, first, filled + bytes, 4 * count - filled - bytes);
      var data, sizes;
      ok, data, sizes := TransferRead(c, m, first + filled, bytes, ForOperand, meter);
      if !ok {
        return;
      }
      bank, cost := Assemble(m, base, start, data, bank, cost);
      MovedCharge(now, meter.stats, ForOperand, bytes);
      ChargeBoth(before, now, meter.stats, OperandBill(filled), OperandBill(bytes));
      filled := filled + bytes;
    }
    ok := true;
  }

  /** Loads part of a vector into a bank. */
  method Load(c: Config, m: Memory, base: nat, stride: nat, start: nat, count: nat, meter: Meter)
    returns (ok: bool, bank: seq<int>)
    requires c.Valid() && Fair(meter.stats, c)
    modifies meter
    ensures ok <==> LoadFine(m, base, stride, start, count) && LoadAllowed(c, base, stride, start, count)
    ensures ok ==> bank == Loaded(m, base, stride, start, count)
    ensures Fair(meter.stats, c)
    ensures ok ==> Charged(old(meter.stats), meter.stats, OperandBill(4 * count))
  {
    if stride == 1 {
      ok, bank := LoadContiguous(c, m, base, start, count, meter);
    } else {
      LoadableIs(c, m, base, stride, start, count);
      ok, bank := LoadStrided(c, m, base, stride, start, count, meter);
    }
  }
}
