/**
 * The Amlogic USB updater (`update.cpp`): writing a byte stream into device
 * memory in 64-byte control transfers, and choosing the device to talk to.
 *
 * C++ unsigned integers are modelled as bounded integers. On unsigned
 * values `x >> 16` is `x / 0x10000` and `x & 0xFFFF` is `x % 0x10000`, and
 * the wrap of `size_t` and `uint32_t` arithmetic is written out with `%`.
 */
module AmlUpdate {
  import opened Wrappers

  newtype u8 = x: int | 0 <= x < 0x100
  newtype u16 = x: int | 0 <= x < 0x1_0000
  newtype u32 = x: int | 0 <= x < 0x1_0000_0000

  /** `std::size_t` on a 64-bit target. */
  const SIZE_MAX_PLUS_ONE: int := 0x1_0000_0000_0000_0000
  const U32_MODULUS: int := 0x1_0000_0000

  const AML_ID_VENDOR: u16 := 0x1B8E
  const AML_ID_PRODUCT: u16 := 0xC003

  /** Fixed parameters of every chunk transfer of `write_large_memory`. */
  const REQUEST_TYPE: u8 := 0x40
  const REQUEST: u8 := 1
  const CHUNK: nat := 64
  const TIMEOUT_MS: nat := 1000

  /** One `usb::control_transfer` call: setup fields, the data stage and the timeout. */
  datatype ControlTransfer = ControlTransfer(
    requestType: u8, request: u8, value: u16, index: u16, data: seq<u8>, timeoutMs: nat)

  /** `i += 64` on a `size_t`. */
  function NextOffset(i: nat): nat
  {
    (i + CHUNK) % SIZE_MAX_PLUS_ONE
  }

  /**
   * `std::uint32_t address = base_address + i`: the `uint32_t` base is
   * widened to `size_t`, added with wrap-around there, and the sum is
   * narrowed back to 32 bits.
   */
  function Address(base: u32, i: nat): (a: u32)
    ensures a as int == (base as int + i) % U32_MODULUS
  {
    NarrowAfterWrap(base as int + i);
    (((base as int + i) % SIZE_MAX_PLUS_ONE) % U32_MODULUS) as u32
  }

  /** `std::uint16_t value = (address >> 16) & 0xFFFF`. */
  function High16(a: u32): (r: u16)
    ensures r as int == a as int / 0x1_0000
  {
    ((a as int / 0x1_0000) % 0x1_0000) as u16
  }

  /** `std::uint16_t index = address & 0xFFFF`. */
  function Low16(a: u32): u16
  {
    (a as int % 0x1_0000) as u16
  }

  /** The 16-bit halves put back together, high half first, give the address. */
  lemma SplitRecombines(a: u32)
    ensures High16(a) as int * 0x1_0000 + Low16(a) as int == a as int
  {
  }

  /** The value of `i` before the k-th chunk (from 0): 64 added k times in `size_t`. */
  function OffsetBefore(k: nat): nat
  {
    if k == 0 then 0 else NextOffset(OffsetBefore(k - 1))
  }

  lemma {:induction false} OffsetBeforeIs(k: nat)
    ensures OffsetBefore(k) == (CHUNK * k) % SIZE_MAX_PLUS_ONE
  {
    if k > 0 {
      OffsetBeforeIs(k - 1);
      var x := CHUNK * (k - 1);
      assert CHUNK * k == x + CHUNK;
      SizeTModAdd(x, CHUNK);
    }
  }

  /** Reducing a summand modulo 2^64 first does not change a `size_t` sum. */
  lemma SizeTModAdd(x: int, c: int)
    requires x >= 0 && c >= 0
    ensures ((x % SIZE_MAX_PLUS_ONE) + c) % SIZE_MAX_PLUS_ONE == (x + c) % SIZE_MAX_PLUS_ONE
  {
    var q := x / SIZE_MAX_PLUS_ONE;
    assert x + c == q * SIZE_MAX_PLUS_ONE + ((x % SIZE_MAX_PLUS_ONE) + c);
  }

  lemma NarrowAfterWrap(x: int)
    requires x >= 0
    ensures (x % SIZE_MAX_PLUS_ONE) % U32_MODULUS == x % U32_MODULUS
  {
    var q := x / SIZE_MAX_PLUS_ONE;
    var r := x % SIZE_MAX_PLUS_ONE;
    assert x == q * SIZE_MAX_PLUS_ONE + r;
    assert q * SIZE_MAX_PLUS_ONE == (q * U32_MODULUS) * U32_MODULUS;
    assert (q * U32_MODULUS * U32_MODULUS + r) % U32_MODULUS == r % U32_MODULUS;
  }

  /**
   * Chunk k is written to `base + 64 * k` modulo 2^32: the wrap of `i` in
   * `size_t` never shows in the 32-bit address.
   */
  lemma ChunkAddress(base: u32, k: nat)
    ensures Address(base, OffsetBefore(k)) as int == (base as int + CHUNK * k) % U32_MODULUS
  {
    OffsetBeforeIs(k);
    var x := CHUNK * k;
    var b := base as int;
    SizeTModAdd(x, b);
    assert b + x % SIZE_MAX_PLUS_ONE == x % SIZE_MAX_PLUS_ONE + b;
    assert (b + OffsetBefore(k)) % SIZE_MAX_PLUS_ONE == (x + b) % SIZE_MAX_PLUS_ONE;
    NarrowAfterWrap(x + b);
  }

  /** The k-th transfer of `write_large_memory` (from 0), sending the k-th 64-byte chunk. */
  function ChunkTransfer(base: u32, input: seq<u8>, k: nat): (t: ControlTransfer)
    requires CHUNK * (k + 1) <= |input|
    ensures t.requestType == 0x40 && t.request == 1 && t.timeoutMs == 1000
    ensures |t.data| == 64 && t.data == input[64 * k .. 64 * k + 64]
    ensures t.value as int * 0x1_0000 + t.index as int == (base as int + 64 * k) % 0x1_0000_0000
  {
    var address := Address(base, OffsetBefore(k));
    SplitRecombines(address);
    ChunkAddress(base, k);
    ControlTransfer(REQUEST_TYPE, REQUEST, High16(address), Low16(address),
                    input[CHUNK * k .. CHUNK * k + CHUNK], TIMEOUT_MS)
  }

  /**
   * The chunk loop of `write_large_memory`: read 64 bytes at a time and send
   * each full chunk to `base_address + i`, `i` growing by 64; the first read
   * that cannot fill the buffer ends the loop, and its bytes are not sent.
   */
  method WriteLargeMemory(base: u32, input: seq<u8>) returns (transfers: seq<ControlTransfer>)
    ensures |transfers| == |input| / 64
    ensures forall k :: 0 <= k < |transfers| ==> transfers[k] == ChunkTransfer(base, input, k)
  {
    transfers := [];
    var position := 0;  // the stream's read position
    var i: nat := 0;
    while true
      invariant position == CHUNK * |transfers| <= |input|
      invariant i == OffsetBefore(|transfers|)
      invariant forall k :: 0 <= k < |transfers| ==> transfers[k] == ChunkTransfer(base, input, k)
      decreases |input| - position
    {
      if |input| - position < CHUNK {
        break;
      }
      var buffer := input[position .. position + CHUNK];
      position := position + CHUNK;
      var address := Address(base, i);
      var value := High16(address);
      var index := Low16(address);
      transfers := transfers + [ControlTransfer(REQUEST_TYPE, REQUEST, value, index, buffer, TIMEOUT_MS)];
      i := NextOffset(i);
    }
  }

  /** The payloads of `transfers`, concatenated in order. */
  function Payload(transfers: seq<ControlTransfer>): seq<u8>
  {
    if transfers == [] then [] else Payload(transfers[..|transfers| - 1]) + transfers[|transfers| - 1].data
  }

  /** The transfers carry the input in stream order, chunk after chunk. */
  lemma {:induction false} PayloadIsWholeChunks(base: u32, input: seq<u8>, transfers: seq<ControlTransfer>)
    requires CHUNK * |transfers| <= |input|
    requires forall k :: 0 <= k < |transfers| ==> transfers[k] == ChunkTransfer(base, input, k)
    ensures Payload(transfers) == input[..CHUNK * |transfers|]
  {
    if transfers != [] {
      var n := |transfers| - 1;
      PayloadIsWholeChunks(base, input, transfers[..n]);
      assert input[..CHUNK * n] + input[CHUNK * n .. CHUNK * n + CHUNK] == input[..CHUNK * (n + 1)];
    }
  }

  /**
   * What `write_large_memory` sends is the input without its last
   * `|input| % 64` bytes: every whole chunk, in order, and nothing of a
   * trailing partial one.
   */
  lemma SentIsInputWithoutTail(base: u32, input: seq<u8>, transfers: seq<ControlTransfer>)
    requires |transfers| == |input| / 64
    requires forall k :: 0 <= k < |transfers| ==> transfers[k] == ChunkTransfer(base, input, k)
    ensures Payload(transfers) == input[..|input| - |input| % 64]
  {
    PayloadIsWholeChunks(base, input, transfers);
  }

  /** A base 64 bytes below the top of the address space: the second chunk goes to address 0. */
  lemma WrapExample(input: seq<u8>)
    requires |input| >= 128
    ensures ChunkTransfer(0xFFFF_FFC0, input, 1).value == 0
    ensures ChunkTransfer(0xFFFF_FFC0, input, 1).index == 0
  {
  }

  /** The fields of `libusb_device_descriptor` that device selection looks at. */
  datatype UsbDescriptor = UsbDescriptor(idVendor: u16, idProduct: u16)

  /**
   * What the `find_if` lambda in `main` stores in its copy's `idVendor`:
   * `descriptor.idVendor = AML_ID_VENDOR && descriptor.idProduct == AML_ID_PRODUCT`
   * parses as an assignment of the `&&`, whose left operand is the nonzero
   * vendor constant (true), so 1 or 0 is stored.
   */
  function StoredVendor(d: UsbDescriptor): (r: u16)
    ensures r == 0 || r == 1
    ensures r == 1 <==> d.idProduct == 0xC003
  {
    if AML_ID_VENDOR != 0 && d.idProduct == AML_ID_PRODUCT then 1 else 0
  }

  /** The lambda as written: the stored value, tested as a `bool` by `find_if`. */
  function AsWrittenPredicate(d: UsbDescriptor): (r: bool)
    ensures r <==> d.idProduct == 0xC003
  {
    StoredVendor(d) != 0
  }

  /** The comparison the constants evidently call for: both ids must match. */
  function IntendedPredicate(d: UsbDescriptor): (r: bool)
    ensures r <==> d.idVendor == 0x1B8E && d.idProduct == 0xC003
  {
    d.idVendor == AML_ID_VENDOR && d.idProduct == AML_ID_PRODUCT
  }

  /** The vendor is never compared: a device of another vendor with product 0xC003 is accepted. */
  lemma AsWrittenIgnoresVendor()
    ensures AsWrittenPredicate(UsbDescriptor(0x18D1, 0xC003))
    ensures !IntendedPredicate(UsbDescriptor(0x18D1, 0xC003))
  {
  }

  /** `std::find_if`: the first position whose device satisfies `p`, if any. */
  method FindIf(devices: seq<UsbDescriptor>, p: UsbDescriptor -> bool) returns (r: Option<nat>)
    ensures r.Some? ==> r.value < |devices| && p(devices[r.value])
                        && forall j :: 0 <= j < r.value ==> !p(devices[j])
    ensures r.None? ==> forall j :: 0 <= j < |devices| ==> !p(devices[j])
  {
    var k := 0;
    while k < |devices|
      invariant 0 <= k <= |devices|
      invariant forall j :: 0 <= j < k ==> !p(devices[j])
    {
      if p(devices[k]) {
        return Some(k);
      }
      k := k + 1;
    }
    return None;
  }

  /**
   * The device selection of `main`: exit status 1 and nothing opened when no
   * device passes the predicate as written; otherwise the first device that
   * does is opened and the status is 0 (the memory write and the `go`
   * command after it are commented out).
   */
  method SelectDevice(devices: seq<UsbDescriptor>) returns (status: int, chosen: Option<nat>)
    ensures status == 1 <==> forall j :: 0 <= j < |devices| ==> devices[j].idProduct != 0xC003
    ensures status == 1 ==> chosen == None
    ensures status != 1 ==>
      && status == 0 && chosen.Some? && chosen.value < |devices|
      && devices[chosen.value].idProduct == 0xC003
      && forall j :: 0 <= j < chosen.value ==> devices[j].idProduct != 0xC003
  {
    var device := FindIf(devices, AsWrittenPredicate);
    if device.None? {
      return 1, None;
    }
    return 0, device;
  }

  /**
   * The selection with the intended predicate: the first attached device
   * with both Amlogic ids.
   */
  method SelectIntended(devices: seq<UsbDescriptor>) returns (status: int, chosen: Option<nat>)
    ensures status == 1 <==> forall j :: 0 <= j < |devices| ==> devices[j] != UsbDescriptor(0x1B8E, 0xC003)
    ensures status == 1 ==> chosen == None
    ensures status != 1 ==>
      && status == 0 && chosen.Some? && chosen.value < |devices|
      && devices[chosen.value] == UsbDescriptor(0x1B8E, 0xC003)
      && forall j :: 0 <= j < chosen.value ==> devices[j] != UsbDescriptor(0x1B8E, 0xC003)
  {
    var device := FindIf(devices, IntendedPredicate);
    if device.None? {
      return 1, None;
    }
    return 0, device;
  }

  /**
   * When every attached device with product id 0xC003 is an Amlogic one,
   * the predicate as written and the intended one agree on every device.
   */
  lemma AgreeWithoutForeignProduct(devices: seq<UsbDescriptor>)
    requires forall j :: 0 <= j < |devices| && devices[j].idProduct == 0xC003 ==> devices[j].idVendor == 0x1B8E
    ensures forall j :: 0 <= j < |devices| ==> (AsWrittenPredicate(devices[j]) <==> IntendedPredicate(devices[j]))
  {
  }
}
