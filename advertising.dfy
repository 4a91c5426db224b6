/**
 * The advertising payload built each time advertising (re)starts: a flags
 * field, the service identifier, a 13-byte manufacturer-data block carrying
 * the device identity, and a scan-response name that ends in four hex digits
 * taken from the identity's last two bytes.
 */
module Advertising {
  import opened Options
  import opened DeviceIdentity

  /** The company identifier of the manufacturer-data block (an internal/lab value). */
  const CompanyId: int := 0xFFFF

  /** The payload format version. */
  const Version: byte := 0x01

  /** LE General Discoverable (0x02) together with BR/EDR Not Supported (0x04). */
  const DiscoverableFlags: byte := 0x06

  /** The five bytes ahead of the identity: company id (little-endian), 'J', 'S', version. */
  const Header: seq<byte> := [CompanyId % 256, CompanyId / 256 % 256, 'J' as int, 'S' as int, Version]

  /** What one advertising (re)start hands to the radio. */
  datatype Advertisement = Advertisement(
    flags: byte,
    serviceUuid: string,
    manufacturerData: seq<byte>,
    scanResponseName: string)

  /** The manufacturer-data block: company id, marker "JS", version, then the 8 identity bytes. */
  function ManufacturerData(deviceId: seq<byte>): (p: seq<byte>)
    requires |deviceId| == 8
    ensures |p| == 13
    ensures p[0] as int + 256 * p[1] as int == CompanyId
    ensures p[2] == 'J' as int && p[3] == 'S' as int && p[4] == Version
    ensures p[5..] == deviceId
  {
    Header + deviceId
  }

  /** The block as the bytes a scanner sees: FF FF 4A 53 01, then the identity in order. */
  lemma ManufacturerDataBytes(deviceId: seq<byte>)
    requires |deviceId| == 8
    ensures ManufacturerData(deviceId) == [0xFF, 0xFF, 0x4A, 0x53, 0x01] + deviceId
  {
    assert Header == [0xFF, 0xFF, 0x4A, 0x53, 0x01];
  }

  /**
   * How a scanning peer recognises the device family and recovers the
   * identity without connecting; the inverse of ManufacturerData.
   */
  function ParseManufacturerData(p: seq<byte>): (r: Option<seq<byte>>)
    ensures r.Some? ==> |r.value| == 8
  {
    if |p| == 13 && p[..5] == Header then Some(p[5..]) else None
  }

  lemma ManufacturerDataRoundTrip(deviceId: seq<byte>)
    requires |deviceId| == 8
    ensures ParseManufacturerData(ManufacturerData(deviceId)) == Some(deviceId)
  {
    assert ManufacturerData(deviceId)[..5] == Header;
  }

  /** Every block the scanner accepts is the block built for the identity it returns. */
  lemma ParseManufacturerDataSound(p: seq<byte>)
    requires ParseManufacturerData(p).Some?
    ensures ManufacturerData(ParseManufacturerData(p).value) == p
  {
    assert p == p[..5] + p[5..];
  }

  /** The scan-response name: the base name, "-", and the hex digits of identity bytes 6 and 7. */
  function AdvertisedName(deviceName: string, deviceId: seq<byte>): (name: string)
    requires |deviceId| == 8
    ensures |name| == |deviceName| + 5
  {
    var b6 := deviceId[6];
    var b7 := deviceId[7];
    var suffix := [HexDigit(b6 / 16), HexDigit(b6 % 16), HexDigit(b7 / 16), HexDigit(b7 % 16)];
    deviceName + "-" + suffix
  }

  /** The name's suffix is the last four characters of the identity's hex rendering. */
  lemma AdvertisedNameSuffix(deviceName: string, deviceId: seq<byte>)
    requires |deviceId| == 8
    ensures AdvertisedName(deviceName, deviceId) == deviceName + "-" + Hex(deviceId)[12..16]
  {
    HexAt(deviceId, 6);
    HexAt(deviceId, 7);
    var h := Hex(deviceId);
    var name := AdvertisedName(deviceName, deviceId);
    assert name[|deviceName| + 1..] == h[12..16];
    assert name == deviceName + "-" + name[|deviceName| + 1..];
  }

  /** The full advertisement StartAdvertising installs for this identity. */
  function AdvertisementOf(deviceName: string, serviceUuid: string, deviceId: seq<byte>): (ad: Advertisement)
    requires |deviceId| == 8
    ensures ParseManufacturerData(ad.manufacturerData) == Some(deviceId)
  {
    ManufacturerDataRoundTrip(deviceId);
    Advertisement(DiscoverableFlags, serviceUuid, ManufacturerData(deviceId),
                  AdvertisedName(deviceName, deviceId))
  }

  /** The worked example: identity 01 .. 08 advertises FFFF 4A53 01 0102030405060708. */
  lemma ExampleManufacturerData()
    ensures ManufacturerData(DeviceIdOf(0x0102030405060708))
         == [0xFF, 0xFF, 0x4A, 0x53, 0x01, 1, 2, 3, 4, 5, 6, 7, 8]
  {
    ExampleDeviceId();
    ManufacturerDataBytes(DeviceIdOf(0x0102030405060708));
  }
}
