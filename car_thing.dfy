/**
 * car-thing-lib: classifying a USB device as a Car Thing by its vendor and
 * product id, and the iterator that picks the Car Things out of the list of
 * attached devices.
 */
module CarThingLib {
  import opened Wrappers

  newtype u16 = x: int | 0 <= x < 0x1_0000

  /** Ids of a Car Thing booted in USB burn (development) mode. */
  const DEV_ID_VENDOR: u16 := 0x1B8E
  const DEV_ID_PRODUCT: u16 := 0xC003
  /** Ids of a Car Thing booted normally. */
  const NORMAL_ID_VENDOR: u16 := 0x18D1
  const NORMAL_ID_PRODUCT: u16 := 0x4E40

  datatype Mode = Normal | Development

  /** `rusb::Error`, the error of every libusb call. */
  datatype UsbError =
    | Io | InvalidParam | Access | NoDevice | NotFound | Busy | Timeout
    | Overflow | Pipe | Interrupted | NoMem | NotSupported | BadDescriptor | Other

  datatype Descriptor = Descriptor(vendorId: u16, productId: u16)

  /**
   * An attached device: `address` tells devices apart, `descriptor` is what
   * reading its device descriptor gives (the same on every read).
   */
  datatype Device = Device(address: nat, descriptor: Result<Descriptor, UsbError>)

  /** The id test in `CarThings::next`: one of the two Car Thing id pairs. */
  predicate IsCarThingId(d: Descriptor)
  {
    (d.vendorId == DEV_ID_VENDOR && d.productId == DEV_ID_PRODUCT)
    || (d.vendorId == NORMAL_ID_VENDOR && d.productId == NORMAL_ID_PRODUCT)
  }

  /** `CarThing::mode`: read the descriptor, then classify its ids. */
  function DeviceMode(device: Device): Result<Mode, UsbError>
  {
    match device.descriptor
    case Err(e) => Err(e)
    case Ok(d) =>
      if d.vendorId == DEV_ID_VENDOR && d.productId == DEV_ID_PRODUCT then Ok(Development)
      else if d.vendorId == NORMAL_ID_VENDOR && d.productId == NORMAL_ID_PRODUCT then Ok(Normal)
      else Err(NotSupported)
  }

  /** Development mode exactly for the burn-mode ids. */
  lemma DevelopmentIff(device: Device)
    ensures DeviceMode(device) == Ok(Development) <==>
      device.descriptor.Ok? && device.descriptor.value == Descriptor(0x1B8E, 0xC003)
  {
  }

  /** Normal mode exactly for the normal-boot ids. */
  lemma NormalIff(device: Device)
    ensures DeviceMode(device) == Ok(Normal) <==>
      device.descriptor.Ok? && device.descriptor.value == Descriptor(0x18D1, 0x4E40)
  {
  }

  /** Any other id pair is NotSupported; a failed descriptor read is passed on unchanged. */
  lemma ModeErrors(device: Device)
    ensures device.descriptor.Err? ==> DeviceMode(device) == Err(device.descriptor.error)
    ensures device.descriptor.Ok? ==>
      (DeviceMode(device) == Err(NotSupported) <==> !IsCarThingId(device.descriptor.value))
    ensures device.descriptor.Ok? ==> (DeviceMode(device).Ok? <==> IsCarThingId(device.descriptor.value))
  {
  }

  /** Where a scan from a position stops, and why. */
  datatype Stop = Found(at: nat) | ReadFailed(at: nat) | Exhausted

  /** A device that is read without error and is not a Car Thing: one `next` skips. */
  predicate Skipped(device: Device)
  {
    device.descriptor.Ok? && !IsCarThingId(device.descriptor.value)
  }

  /** Where `next`, started at position `from`, stops. */
  function Scan(devices: seq<Device>, from: nat): (s: Stop)
    requires from <= |devices|
    ensures s.Found? ==> from <= s.at < |devices| && devices[s.at].descriptor.Ok?
                         && IsCarThingId(devices[s.at].descriptor.value)
    ensures s.ReadFailed? ==> from <= s.at < |devices| && devices[s.at].descriptor.Err?
    ensures (s.Found? || s.ReadFailed?) ==> forall k :: from <= k < s.at ==> Skipped(devices[k])
    ensures s.Exhausted? ==> forall k :: from <= k < |devices| ==> Skipped(devices[k])
    decreases |devices| - from
  {
    if from == |devices| then Exhausted
    else match devices[from].descriptor
      case Err(_) => ReadFailed(from)
      case Ok(d) => if IsCarThingId(d) then Found(from) else Scan(devices, from + 1)
  }

  /** `CarThings`: the Car Thing filter over the device list iterator. */
  class CarThings {
    /** The devices the underlying `Devices` iterator yields, in its order. */
    const devices: seq<Device>
    /** How many of them the underlying iterator has already yielded. */
    var cursor: nat

    ghost predicate Valid()
      reads this
    {
      cursor <= |devices|
    }

    constructor (devices: seq<Device>)
      ensures Valid() && this.devices == devices && cursor == 0
    {
      this.devices := devices;
      cursor := 0;
    }

    /**
     * `Iterator::next`: skip devices that are not Car Things, yield the first
     * that is; end on exhaustion or on the first descriptor read that fails.
     * The underlying iterator is advanced up to and including the device
     * yielded or failed on.
     */
    method Next() returns (r: Option<Device>)
      requires Valid()
      modifies this
      ensures Valid()
      ensures match Scan(devices, old(cursor))
        case Found(at) => r == Some(devices[at]) && cursor == at + 1
        case ReadFailed(at) => r == None && cursor == at + 1
        case Exhausted => r == None && cursor == |devices|
    {
      while true
        invariant old(cursor) <= cursor <= |devices|
        invariant Scan(devices, cursor) == Scan(devices, old(cursor))
        decreases |devices| - cursor
      {
        if cursor == |devices| {
          return None;
        }
        var device := devices[cursor];
        cursor := cursor + 1;
        match device.descriptor {
          case Ok(descriptor) =>
            if IsCarThingId(descriptor) {
              return Some(device);
            }
          case Err(_) =>
            return None;
        }
      }
    }
  }

  /** The devices a `for` loop over `CarThings` sees, starting at position `from`. */
  function Yielded(devices: seq<Device>, from: nat): seq<Device>
    requires from <= |devices|
    decreases |devices| - from
  {
    match Scan(devices, from)
    case Found(at) => [devices[at]] + Yielded(devices, at + 1)
    case _ => []
  }

  /** The devices before the first failing descriptor read (all of them if none fails). */
  function UpToFailure(devices: seq<Device>): seq<Device>
  {
    if devices == [] || devices[0].descriptor.Err? then []
    else [devices[0]] + UpToFailure(devices[1..])
  }

  /** The Car Things among `devices`, in order. */
  function CarThingsAmong(devices: seq<Device>): seq<Device>
  {
    if devices == [] then []
    else
      var rest := CarThingsAmong(devices[1..]);
      if devices[0].descriptor.Ok? && IsCarThingId(devices[0].descriptor.value)
      then [devices[0]] + rest else rest
  }

  /**
   * Iterating `CarThings` to its end yields, in input order and each once,
   * exactly the Car Things that come before the first failing descriptor read.
   */
  lemma {:induction false} YieldedAreCarThingsInOrder(devices: seq<Device>, from: nat)
    requires from <= |devices|
    ensures Yielded(devices, from) == CarThingsAmong(UpToFailure(devices[from..]))
    decreases |devices| - from
  {
    if from < |devices| {
      var d := devices[from];
      assert devices[from..][0] == d && devices[from..][1..] == devices[from + 1..];
      if d.descriptor.Ok? && !IsCarThingId(d.descriptor.value) {
        YieldedAreCarThingsInOrder(devices, from + 1);
        assert Scan(devices, from) == Scan(devices, from + 1);
      } else if d.descriptor.Ok? {
        YieldedAreCarThingsInOrder(devices, from + 1);
        assert UpToFailure(devices[from..])[1..] == UpToFailure(devices[from + 1..]);
      }
    }
  }

  /** Every device the iterator yields has a mode: `car_thing.mode()?` never fails on one. */
  lemma {:induction false} YieldedHaveMode(devices: seq<Device>, from: nat)
    requires from <= |devices|
    ensures forall k :: 0 <= k < |Yielded(devices, from)| ==> DeviceMode(Yielded(devices, from)[k]).Ok?
    decreases |devices| - from
  {
    var s := Scan(devices, from);
    if s.Found? {
      YieldedHaveMode(devices, s.at + 1);
    }
  }

  /** From `from`, the search stops at the first device that is not skipped. */
  lemma {:induction false} ScanStopsAtFirst(devices: seq<Device>, from: nat, j: nat)
    requires from <= j < |devices| && !Skipped(devices[j])
    requires forall k :: from <= k < j ==> Skipped(devices[k])
    ensures Scan(devices, from) == (if devices[j].descriptor.Ok? then Found(j) else ReadFailed(j))
    decreases j - from
  {
    if from < j {
      ScanStopsAtFirst(devices, from + 1, j);
    }
  }

  /**
   * `next` is not fused: after it ends on a failing descriptor read at
   * position `at` (leaving the cursor at `at + 1`), calling it again goes on
   * with the devices after the failing one, and stops at the first of them
   * that is a Car Thing or fails to read.
   */
  lemma ResumesAfterReadFailure(devices: seq<Device>, from: nat, j: nat)
    requires from <= |devices| && Scan(devices, from).ReadFailed?
    requires Scan(devices, from).at < j < |devices| && !Skipped(devices[j])
    requires forall k :: Scan(devices, from).at < k < j ==> Skipped(devices[k])
    ensures Scan(devices, Scan(devices, from).at + 1)
            == (if devices[j].descriptor.Ok? then Found(j) else ReadFailed(j))
  {
    ScanStopsAtFirst(devices, Scan(devices, from).at + 1, j);
  }

  /**
   * The `find-device` loop of the car-thing-bin tool: iterate `CarThings` and
   * take the mode of each Car Thing yielded, stopping when `next` returns None.
   */
  method FindDevices(devices: seq<Device>) returns (found: seq<(Device, Mode)>)
    ensures |found| == |CarThingsAmong(UpToFailure(devices))|
    ensures forall k :: 0 <= k < |found| ==>
      found[k].0 == CarThingsAmong(UpToFailure(devices))[k] && DeviceMode(found[k].0) == Ok(found[k].1)
  {
    var things := new CarThings(devices);
    found := [];
    YieldedAreCarThingsInOrder(devices, 0);
    assert devices[0..] == devices;
    while true
      invariant things.Valid() && things.devices == devices
      invariant forall k :: 0 <= k < |found| ==> DeviceMode(found[k].0) == Ok(found[k].1)
      invariant |found| + |Yielded(devices, things.cursor)| == |Yielded(devices, 0)|
      invariant forall k :: 0 <= k < |found| ==> found[k].0 == Yielded(devices, 0)[k]
      invariant Yielded(devices, 0)[|found|..] == Yielded(devices, things.cursor)
      decreases |devices| - things.cursor
    {
      ghost var before := things.cursor;
      var next := things.Next();
      if next.None? {
        assert Yielded(devices, before) == [];
        return;
      }
      YieldedHaveMode(devices, before);
      assert next.value == Yielded(devices, before)[0];
      var mode := DeviceMode(next.value);
      found := found + [(next.value, mode.value)];
    }
  }
}
