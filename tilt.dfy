/**
  The Tilt hydrometer beacon decoder: `parse_tilt_advertisement` in tilt.py.

  A Tilt broadcasts Apple iBeacon manufacturer data of at least 25 bytes:
    bytes 0..1    4C 00   Apple's company identifier
    bytes 2..3    02 15   iBeacon type and length
    bytes 4..19   proximity UUID, which names the Tilt's colour
    bytes 20..21  major, big-endian: temperature in degrees Fahrenheit
    bytes 22..23  minor, big-endian: specific gravity times 1000
    byte  24      tx power byte, also carrying weeks since battery change
 */
module Tilt {
  import opened Wrappers
  import opened Bytes
  import opened Hex

  /** The colours of the colour table, and "Unknown" for any other UUID. */
  datatype Color = Red | Green | Black | Purple | Orange | Blue | Yellow | Pink | Unknown
  {
    /** The name tilt.py stores in the reading's "color" entry. */
    function Name(): string
    {
      match this
      case Red => "Red"
      case Green => "Green"
      case Black => "Black"
      case Purple => "Purple"
      case Orange => "Orange"
      case Blue => "Blue"
      case Yellow => "Yellow"
      case Pink => "Pink"
      case Unknown => "Unknown"
    }
  }

  /** tilt.py's `color_map`, keyed by the upper-case hex rendering of the UUID. */
  const ColorMap: map<string, Color> := map[
    "A495BB10C5B14B44B5121370F02D74DE" := Red,
    "A495BB20C5B14B44B5121370F02D74DE" := Green,
    "A495BB30C5B14B44B5121370F02D74DE" := Black,
    "A495BB40C5B14B44B5121370F02D74DE" := Purple,
    "A495BB50C5B14B44B5121370F02D74DE" := Orange,
    "A495BB60C5B14B44B5121370F02D74DE" := Blue,
    "A495BB70C5B14B44B5121370F02D74DE" := Yellow,
    "A495BB80C5B14B44B5121370F02D74DE" := Pink
  ]

  /** `color_map.get(uuid_str, "Unknown")` with `uuid_str` the upper-cased hexlify of the UUID. */
  function UuidColor(uuid: seq<byte>): (c: Color)
    ensures c != Unknown ==> |uuid| == 16
  {
    var key := Upper(Hexlify(uuid));
    if key in ColorMap then ColorMap[key] else Unknown
  }

  /** The digit that tells the colours' UUIDs apart: 1 for Red up to 8 for Pink. */
  function ColorNumber(c: Color): (n: nat)
    requires c != Unknown
    ensures 1 <= n <= 8
  {
    match c
    case Red => 1
    case Green => 2
    case Black => 3
    case Purple => 4
    case Orange => 5
    case Blue => 6
    case Yellow => 7
    case Pink => 8
  }

  /** The last twelve bytes, shared by every Tilt UUID. */
  const UuidTail: seq<byte> := [0xC5, 0xB1, 0x4B, 0x44, 0xB5, 0x12, 0x13, 0x70, 0xF0, 0x2D, 0x74, 0xDE]

  /**
    An independent, byte-level statement of the table: colour c's Tilt UUID is
    A4 95 BB n0 C5 B1 4B 44 B5 12 13 70 F0 2D 74 DE with n = ColorNumber(c).
   */
  function KnownUuid(c: Color): (u: seq<byte>)
    requires c != Unknown
    ensures |u| == 16
  {
    [0xA4, 0x95] + [0xBB, ColorNumber(c) * 16] + UuidTail
  }

  /** The upper-case rendering of the first four bytes of a Tilt UUID with colour number n. */
  lemma TiltUuidHeadKey(a: seq<byte>, n: nat)
    requires 1 <= n <= 8
    requires |a| == 4 && a[0] == 0xA4 && a[1] == 0x95 && a[2] == 0xBB && a[3] == n * 16
    ensures Upper(Hexlify(a)) == ['A', '4', '9', '5', 'B', 'B', UpperDigits[n], '0']
  {
    UpperHex4(a);
    assert (n * 16) / 16 == n && (n * 16) % 16 == 0;
  }

  /** The upper-case rendering of the twelve bytes every Tilt UUID ends with. */
  lemma TiltUuidTailKey(t: seq<byte>)
    requires |t| == 12
    requires t[0] == 0xC5 && t[1] == 0xB1 && t[2] == 0x4B && t[3] == 0x44
    requires t[4] == 0xB5 && t[5] == 0x12 && t[6] == 0x13 && t[7] == 0x70
    requires t[8] == 0xF0 && t[9] == 0x2D && t[10] == 0x74 && t[11] == 0xDE
    ensures Upper(Hexlify(t)) == ['C', '5', 'B', '1', '4', 'B', '4', '4', 'B', '5', '1', '2', '1', '3', '7', '0', 'F', '0', '2', 'D', '7', '4', 'D', 'E']
  {
    var b, c, d := t[..4], t[4..8], t[8..];
    assert t == b + c + d;
    UpperHexConcat(b + c, d);
    UpperHexConcat(b, c);
    UpperHex4(b);
    UpperHex4(c);
    UpperHex4(d);
  }

  /** The upper-case rendering of a UUID of the Tilt shape with colour number n. */
  lemma TiltUuidKey(a: seq<byte>, t: seq<byte>, n: nat)
    requires 1 <= n <= 8
    requires |a| == 4 && a[0] == 0xA4 && a[1] == 0x95 && a[2] == 0xBB && a[3] == n * 16
    requires |t| == 12
    requires t[0] == 0xC5 && t[1] == 0xB1 && t[2] == 0x4B && t[3] == 0x44
    requires t[4] == 0xB5 && t[5] == 0x12 && t[6] == 0x13 && t[7] == 0x70
    requires t[8] == 0xF0 && t[9] == 0x2D && t[10] == 0x74 && t[11] == 0xDE
    ensures Upper(Hexlify(a + t)) == ['A', '4', '9', '5', 'B', 'B', UpperDigits[n], '0', 'C', '5', 'B', '1', '4', 'B', '4', '4', 'B', '5', '1', '2', '1', '3', '7', '0', 'F', '0', '2', 'D', '7', '4', 'D', 'E']
  {
    UpperHexConcat(a, t);
    TiltUuidHeadKey(a, n);
    TiltUuidTailKey(t);
  }

  /** The upper-case rendering of a colour's UUID. */
  lemma KnownUuidRendering(c: Color)
    requires c != Unknown
    ensures Upper(Hexlify(KnownUuid(c))) == ['A', '4', '9', '5', 'B', 'B', UpperDigits[ColorNumber(c)], '0', 'C', '5', 'B', '1', '4', 'B', '4', '4', 'B', '5', '1', '2', '1', '3', '7', '0', 'F', '0', '2', 'D', '7', '4', 'D', 'E']
  {
    var n := ColorNumber(c);
    var a: seq<byte> := [0xA4, 0x95, 0xBB, n * 16];
    var t := UuidTail;
    assert KnownUuid(c) == a + t;
    TiltUuidKey(a, t, n);
  }

  /** The table's key for colour c is A495BB, c's number, 0 and the common tail. */
  lemma ColorMapKey(c: Color, key: string)
    requires c != Unknown
    requires key == ['A', '4', '9', '5', 'B', 'B', UpperDigits[ColorNumber(c)], '0', 'C', '5', 'B', '1', '4', 'B', '4', '4', 'B', '5', '1', '2', '1', '3', '7', '0', 'F', '0', '2', 'D', '7', '4', 'D', 'E']
    ensures key in ColorMap && ColorMap[key] == c
  {
  }

  /** The upper-case rendering of a colour's UUID is that colour's key in the table. */
  lemma KnownUuidKey(c: Color)
    requires c != Unknown
    ensures Upper(Hexlify(KnownUuid(c))) in ColorMap
    ensures ColorMap[Upper(Hexlify(KnownUuid(c)))] == c
  {
    KnownUuidRendering(c);
    ColorMapKey(c, Upper(Hexlify(KnownUuid(c))));
  }

  /** Each colour is named by exactly one key of the table. */
  lemma ColorMapInjective(k1: string, k2: string)
    requires k1 in ColorMap && k2 in ColorMap
    requires ColorMap[k1] == ColorMap[k2]
    ensures k1 == k2
  {
  }

  /**
    A UUID resolves to a listed colour exactly when its bytes are that colour's
    Tilt UUID; every other UUID resolves to Unknown.
   */
  lemma ColorOfUuid(u: seq<byte>, c: Color)
    requires c != Unknown
    ensures UuidColor(u) == c <==> u == KnownUuid(c)
  {
    KnownUuidKey(c);
    if UuidColor(u) == c {
      ColorMapInjective(Upper(Hexlify(u)), Upper(Hexlify(KnownUuid(c))));
      UpperHexInjective(u, KnownUuid(c));
    }
  }

  /** The reading `parse_tilt_advertisement` returns for a Tilt advertisement. */
  datatype Reading = Reading(
    color: Color,
    temperature: nat,        // major: degrees Fahrenheit
    temperatureC: real,      // derived: degrees Celsius
    gravityMilli: nat,       // minor: specific gravity times 1000
    batteryWeeks: Option<nat>,
    txRaw: byte,
    txDbm: int)
  {
    /** The specific gravity, `minor / 1000.0`, as an exact rational. */
    function Gravity(): (g: real)
      ensures g >= 0.0 && g * 1000.0 == gravityMilli as real
    {
      gravityMilli as real / 1000.0
    }
  }

  /** `(temperature - 32) * 5.0 / 9.0`, in exact arithmetic. */
  function FahrenheitToCelsius(f: int): (c: real)
    ensures CelsiusToFahrenheit(c) == f as real
  {
    (f - 32) as real * 5.0 / 9.0
  }

  /** The inverse conversion, as a reference for FahrenheitToCelsius. */
  function CelsiusToFahrenheit(c: real): real
  {
    c * 9.0 / 5.0 + 32.0
  }

  /** The conversion keeps order: a warmer reading in Fahrenheit is warmer in Celsius. */
  lemma CelsiusMonotone(f: int, g: int)
    ensures f < g <==> FahrenheitToCelsius(f) < FahrenheitToCelsius(g)
  {
  }

  /**
    Weeks since the battery was changed, carried in the tx power byte:
    a value in 0..152 is the week count, anything else is absent, and the
    legacy placeholder 0xC5 is absent by a check of its own.
   */
  function BatteryWeeks(txRaw: byte): (w: Option<nat>)
    ensures w.Some? <==> txRaw <= 152 && txRaw != 0xC5
    ensures w.Some? ==> w.value == txRaw
    ensures txRaw == 0xC5 ==> w == None
  {
    var inRange := if 0 <= txRaw <= 152 then Some(txRaw as nat) else None;
    if txRaw == 0xC5 then None else inRange
  }

  /** Apple's company identifier followed by the iBeacon type and length. */
  predicate HasIBeaconPrefix(data: seq<byte>)
    requires |data| >= 4
    ensures HasIBeaconPrefix(data) <==> data[0] == 0x4C && data[1] == 0x00 && data[2] == 0x02 && data[3] == 0x15
  {
    data[0..2] == [0x4C, 0x00] && data[2..4] == [0x02, 0x15]
  }

  /** `parse_tilt_advertisement`: None when the data is not a Tilt advertisement. */
  function ParseTiltAdvertisement(data: seq<byte>): (r: Option<Reading>)
    ensures |data| < 25 ==> r == None
    ensures |data| >= 25 ==>
      (r.Some? <==> data[0] == 0x4C && data[1] == 0x00 && data[2] == 0x02 && data[3] == 0x15)
  {
    if |data| < 25 then None
    else if !HasIBeaconPrefix(data) then None
    else
      var uuid := data[4..20];
      var major := data[20..22];
      var minor := data[22..24];
      var txByte := data[24];
      var temperature := FromBytesBE(major);
      Some(Reading(
        color := UuidColor(uuid),
        temperature := temperature,
        temperatureC := FahrenheitToCelsius(temperature),
        gravityMilli := FromBytesBE(minor),
        batteryWeeks := BatteryWeeks(txByte),
        txRaw := txByte,
        txDbm := ToSigned(txByte)))
  }

  /**
    Every field of a successful parse, stated in terms of the advertisement's
    bytes: temperature and gravity are the big-endian major and minor with no
    plausibility check, the colour comes from bytes 4..19 alone, and the tx
    byte is read both unsigned and signed.
   */
  lemma ParseFields(data: seq<byte>)
    requires ParseTiltAdvertisement(data).Some?
    ensures var r := ParseTiltAdvertisement(data).value;
      && r.temperature == data[20] as int * 256 + data[21] as int <= 65535
      && r.temperatureC * 9.0 == (r.temperature as real - 32.0) * 5.0
      && r.gravityMilli == data[22] as int * 256 + data[23] as int <= 65535
      && r.Gravity() * 1000.0 == r.gravityMilli as real
      && r.color == UuidColor(data[4..20])
      && r.txRaw == data[24]
      && r.txDbm == (if data[24] < 128 then data[24] as int else data[24] as int - 256)
      && -128 <= r.txDbm <= 127
      && (r.batteryWeeks == Some(data[24] as nat) <==> data[24] <= 152 && data[24] != 0xC5)
      && (r.batteryWeeks.None? <==> data[24] > 152)
  {
    assert data[20..22] == [data[20], data[21]];
    assert data[22..24] == [data[22], data[23]];
    FromBytesBE2(data[20], data[21]);
    FromBytesBE2(data[22], data[23]);
  }

  /** Bytes after index 24 never change the outcome: only the first 25 bytes are read. */
  lemma ParseReadsFirst25(a: seq<byte>, b: seq<byte>)
    requires |a| >= 25 && |b| >= 25
    requires a[..25] == b[..25]
    ensures ParseTiltAdvertisement(a) == ParseTiltAdvertisement(b)
  {
    assert a[0..2] == a[..25][0..2] == b[0..2];
    assert a[2..4] == a[..25][2..4] == b[2..4];
    assert a[4..20] == a[..25][4..20] == b[4..20];
    assert a[20..22] == a[..25][20..22] == b[20..22];
    assert a[22..24] == a[..25][22..24] == b[22..24];
    assert a[24] == a[..25][24] == b[24];
  }

  /** Appending trailing bytes to an advertisement of 25 bytes or more does not change its reading. */
  lemma ParseIgnoresTrailingBytes(data: seq<byte>, trailing: seq<byte>)
    requires |data| >= 25
    ensures ParseTiltAdvertisement(data + trailing) == ParseTiltAdvertisement(data)
  {
    assert (data + trailing)[..25] == data[..25];
    ParseReadsFirst25(data + trailing, data);
  }

  /**
    What a Tilt broadcasts, as a reference for the decoder: the iBeacon
    prefix, the UUID, major and minor big-endian, and the tx byte.
   */
  function EncodeTiltAdvertisement(uuid: seq<byte>, temperature: nat, gravityMilli: nat, txRaw: byte): (data: seq<byte>)
    requires |uuid| == 16 && temperature <= 65535 && gravityMilli <= 65535
    ensures |data| == 25
  {
    assert Pow256(2) == 65536;
    [0x4C, 0x00, 0x02, 0x15] + uuid + ToBytesBE(temperature, 2) + ToBytesBE(gravityMilli, 2) + [txRaw]
  }

  /** Decoding what a Tilt broadcasts recovers every field it put in. */
  lemma ParseEncoded(uuid: seq<byte>, temperature: nat, gravityMilli: nat, txRaw: byte)
    requires |uuid| == 16 && temperature <= 65535 && gravityMilli <= 65535
    ensures ParseTiltAdvertisement(EncodeTiltAdvertisement(uuid, temperature, gravityMilli, txRaw))
      == Some(Reading(UuidColor(uuid), temperature, FahrenheitToCelsius(temperature), gravityMilli,
                      BatteryWeeks(txRaw), txRaw, ToSigned(txRaw)))
  {
    assert Pow256(2) == 65536;
    var major, minor := ToBytesBE(temperature, 2), ToBytesBE(gravityMilli, 2);
    var data := EncodeTiltAdvertisement(uuid, temperature, gravityMilli, txRaw);
    assert data == [0x4C, 0x00, 0x02, 0x15] + uuid + major + minor + [txRaw];
    assert data[0] == 0x4C && data[1] == 0x00 && data[2] == 0x02 && data[3] == 0x15;
    assert data[4..20] == uuid;
    assert data[20..22] == major;
    assert data[22..24] == minor;
    assert data[24] == txRaw;
    FromToBytesBE(temperature, 2);
    FromToBytesBE(gravityMilli, 2);
  }

  /** A 25-byte Tilt advertisement is exactly the broadcast of the fields decoded from it. */
  lemma EncodeParsed(data: seq<byte>)
    requires |data| == 25 && ParseTiltAdvertisement(data).Some?
    ensures var r := ParseTiltAdvertisement(data).value;
      r.temperature <= 65535 && r.gravityMilli <= 65535 &&
      EncodeTiltAdvertisement(data[4..20], r.temperature, r.gravityMilli, r.txRaw) == data
  {
    var r := ParseTiltAdvertisement(data).value;
    ParseFields(data);
    ToFromBytesBE(data[20..22]);
    ToFromBytesBE(data[22..24]);
    var e := EncodeTiltAdvertisement(data[4..20], r.temperature, r.gravityMilli, r.txRaw);
    assert e[..4] == data[..4];
    assert e[4..20] == data[4..20];
    assert e[20..22] == data[20..22];
    assert e[22..24] == data[22..24];
    assert e == data[..4] + data[4..20] + data[20..22] + data[22..24] + [data[24]];
    assert data == data[..4] + data[4..20] + data[20..22] + data[22..24] + [data[24]];
  }

  /** A UUID resolves to Unknown exactly when it is none of the eight Tilt UUIDs. */
  lemma UnknownColorOfUuid(u: seq<byte>)
    ensures UuidColor(u) == Unknown <==> forall c :: c != Unknown ==> u != KnownUuid(c)
  {
    var c := UuidColor(u);
    if c != Unknown {
      ColorOfUuid(u, c);
    } else {
      forall c' | c' != Unknown
        ensures u != KnownUuid(c')
      {
        ColorOfUuid(u, c');
      }
    }
  }

  /** A well-formed advertisement whose UUID is not in the table still decodes, as Unknown. */
  lemma UnknownUuidAccepted(data: seq<byte>)
    requires |data| >= 25 && HasIBeaconPrefix(data)
    requires forall c :: c != Unknown ==> data[4..20] != KnownUuid(c)
    ensures ParseTiltAdvertisement(data).Some?
    ensures ParseTiltAdvertisement(data).value.color == Unknown
  {
    UnknownColorOfUuid(data[4..20]);
  }

  /**
    The worked example: 4C 00 02 15, the red Tilt's UUID A4 95 BB 10 C5 B1 4B 44
    B5 12 13 70 F0 2D 74 DE, then 00 46 03 E8 5A, decodes to Red, 70 F (190/9 C),
    gravity 1000/1000, 90 weeks and a signed tx of 90.
   */
  lemma WorkedExample(data: seq<byte>)
    requires |data| == 25
    requires data[..4] == [0x4C, 0x00, 0x02, 0x15]
    requires data[4..20] == KnownUuid(Red)
    requires data[20..] == [0x00, 0x46, 0x03, 0xE8, 0x5A]
    ensures ParseTiltAdvertisement(data)
      == Some(Reading(Red, 70, 190.0 / 9.0, 1000, Some(90), 0x5A, 90))
    ensures ParseTiltAdvertisement(data).value.color.Name() == "Red"
    ensures ParseTiltAdvertisement(data).value.Gravity() == 1.0
  {
    assert data[0] == 0x4C && data[1] == 0x00 && data[2] == 0x02 && data[3] == 0x15 by {
      assert data[..4][0] == data[0] && data[..4][3] == data[3];
    }
    assert data[20] == 0x00 && data[21] == 0x46 && data[22] == 0x03 && data[23] == 0xE8 && data[24] == 0x5A by {
      assert data[20..][0] == data[20] && data[20..][4] == data[24];
    }
    ColorOfUuid(data[4..20], Red);
    ParseFields(data);
  }
}
