/**
  The table of discovered Tilts that the CoreBluetooth discovery callback
  keeps: `discovered_devices` and its update in
  `CentralManagerDelegate.centralManager_didDiscoverPeripheral_advertisementData_RSSI_`.
 */
module Devices {
  import opened Wrappers
  import opened Bytes
  import opened Hex
  import opened Tilt

  /** `peripheral.identifier()`: an opaque token naming one physical device. */
  type DeviceId = string

  /**
    One entry of `discovered_devices`: the fields of the reading, `raw_hex`
    (the whole payload as lower-case hex) and `last_seen` (a wall-clock
    string supplied by the caller).
   */
  datatype DeviceRecord = DeviceRecord(reading: Reading, rawHex: string, lastSeen: string)

  /** Python's `if not manufacturer_data`: the entry is missing or empty. */
  predicate NoManufacturerData(manufacturerData: Option<seq<byte>>): (b: bool)
    ensures !b ==> manufacturerData.Some? && |manufacturerData.value| > 0
    ensures b ==> manufacturerData.None? || |manufacturerData.value| < 25
  {
    manufacturerData.None? || manufacturerData.value == []
  }

  /** The reading an advertisement yields, if it carries Tilt manufacturer data. */
  function AcceptedReading(manufacturerData: Option<seq<byte>>): (r: Option<Reading>)
    ensures r.Some? ==> manufacturerData.Some? && ParseTiltAdvertisement(manufacturerData.value) == r
    ensures manufacturerData.Some? && ParseTiltAdvertisement(manufacturerData.value).Some? ==> r.Some?
  {
    if NoManufacturerData(manufacturerData) then None
    else ParseTiltAdvertisement(manufacturerData.value)
  }

  /**
    The table after one discovery event: on an accepted advertisement the
    entry for pid is replaced by a fresh record and nothing else changes;
    otherwise the table is unchanged.
   */
  function Discover(devices: map<DeviceId, DeviceRecord>, pid: DeviceId,
                    manufacturerData: Option<seq<byte>>, now: string): (r: map<DeviceId, DeviceRecord>)
    ensures AcceptedReading(manufacturerData).None? ==> r == devices
    ensures AcceptedReading(manufacturerData).Some? ==>
      && r.Keys == devices.Keys + {pid}
      && r[pid] == DeviceRecord(AcceptedReading(manufacturerData).value, Hexlify(manufacturerData.value), now)
    ensures forall k :: k != pid ==> (k in r <==> k in devices)
    ensures forall k :: k != pid && k in devices ==> r[k] == devices[k]
  {
    match AcceptedReading(manufacturerData)
    case None => devices
    case Some(info) => devices[pid := DeviceRecord(info, Hexlify(manufacturerData.value), now)]
  }

  /** A record describes its own payload: `raw_hex` reads back to bytes that parse to its reading. */
  ghost predicate Consistent(record: DeviceRecord)
  {
    var payload := Unhexlify(record.rawHex);
    payload.Some? && ParseTiltAdvertisement(payload.value) == Some(record.reading)
  }

  ghost predicate AllConsistent(devices: map<DeviceId, DeviceRecord>)
  {
    forall pid :: pid in devices ==> Consistent(devices[pid])
  }

  /** Discovery only ever stores records whose fields all come from one advertisement. */
  lemma DiscoverKeepsConsistent(devices: map<DeviceId, DeviceRecord>, pid: DeviceId,
                                manufacturerData: Option<seq<byte>>, now: string)
    requires AllConsistent(devices)
    ensures AllConsistent(Discover(devices, pid, manufacturerData, now))
  {
    if AcceptedReading(manufacturerData).Some? {
      HexRoundTrip(manufacturerData.value);
    }
  }

  /**
    A later accepted advertisement for the same device supersedes the earlier
    one entirely: the table is as if the earlier event had never happened.
   */
  lemma DiscoverLatestWins(devices: map<DeviceId, DeviceRecord>, pid: DeviceId,
                           first: Option<seq<byte>>, firstSeen: string,
                           second: Option<seq<byte>>, secondSeen: string)
    requires AcceptedReading(second).Some?
    ensures Discover(Discover(devices, pid, first, firstSeen), pid, second, secondSeen)
         == Discover(devices, pid, second, secondSeen)
  {
  }

  /** Events for two different devices do not interfere: their order does not matter. */
  lemma DiscoverCommutes(devices: map<DeviceId, DeviceRecord>,
                         pid1: DeviceId, data1: Option<seq<byte>>, seen1: string,
                         pid2: DeviceId, data2: Option<seq<byte>>, seen2: string)
    requires pid1 != pid2
    ensures Discover(Discover(devices, pid1, data1, seen1), pid2, data2, seen2)
         == Discover(Discover(devices, pid2, data2, seen2), pid1, data1, seen1)
  {
  }

  /**
    The delegate and the module-level `discovered_devices` dictionary it
    writes; the dictionary is a field here because the delegate is its only
    writer.
   */
  class CentralManagerDelegate {
    var discoveredDevices: map<DeviceId, DeviceRecord>

    ghost predicate Valid()
      reads this
    {
      AllConsistent(discoveredDevices)
    }

    /** `discovered_devices = {}` at start-up. */
    constructor ()
      ensures Valid()
      ensures discoveredDevices == map[]
    {
      discoveredDevices := map[];
    }

    /**
      `centralManager_didDiscoverPeripheral_advertisementData_RSSI_`, given
      the peripheral's identifier, the advertisement's manufacturer data
      entry and the current time as `last_seen` text.
     */
    method DidDiscoverPeripheral(pid: DeviceId, manufacturerData: Option<seq<byte>>, now: string)
      requires Valid()
      modifies this
      ensures Valid()
      ensures discoveredDevices == Discover(old(discoveredDevices), pid, manufacturerData, now)
    {
      if NoManufacturerData(manufacturerData) {
        return;
      }
      var dataBytes := manufacturerData.value;
      var tiltInfo := ParseTiltAdvertisement(dataBytes);
      if tiltInfo.Some? {
        HexRoundTrip(dataBytes);
        discoveredDevices := discoveredDevices[pid := DeviceRecord(tiltInfo.value, Hexlify(dataBytes), now)];
      }
    }
  }
}
