# Tilt hydrometer beacon decoder and device table

This project models the core of a Tilt hydrometer scanner for macOS, `tilt.py`.
A Tilt is a floating brewing sensor. It broadcasts its readings as Apple iBeacon
manufacturer data. The model covers two parts:

- `parse_tilt_advertisement`, a pure decoder. It turns the manufacturer-data
  bytes into a reading, or into `None` when they are not a Tilt advertisement.
  The reading holds:
  - the colour, resolved from the 16-byte proximity UUID through a table of
    eight UUIDs;
  - the temperature in degrees Fahrenheit (the iBeacon major) and its Celsius
    conversion;
  - the specific gravity times 1000 (the iBeacon minor);
  - the tx power byte, read both unsigned and signed;
  - the battery age in weeks, which the tx power byte also carries.
- The update that the CoreBluetooth discovery callback makes to the
  `discovered_devices` dictionary. An accepted advertisement replaces the
  device's entry with a fresh record. Any other advertisement leaves the
  dictionary unchanged.

Modules, leaf first:

- `Wrappers` (`wrappers.dfy`): `Option`, which stands for Python's `None`.
- `Bytes` (`bytes.dfy`): bytes as integers in 0..255, plus two partner
  definitions. `int.from_bytes(..., 'big')` is paired with its encoder.
  `struct.unpack('b', ...)` is paired with its inverse.
- `Hex` (`hex.dfy`): `binascii.hexlify` / `bytes.hex()` and `str.upper()`, plus
  a reference reader of hex text. Both renderings are proved to read back to
  the bytes they came from.
- `Tilt` (`tilt.dfy`): the colour table, the decoder and its properties. The
  properties are tied to two independent references: a byte-level statement of
  the eight Tilt UUIDs, and an encoder for what a Tilt broadcasts.
- `Devices` (`devices.dfy`): the device record, the table update as a function,
  and the delegate as a class. The class holds the dictionary and has a method
  proved against that function.

Modelling choices:

- A byte is `int` in 0..255.
- Python's floats are exact here. `temperature_c` is a `real`. Gravity is kept
  as the integer minor (SG × 1000). `Reading.Gravity()` gives `minor / 1000` as
  an exact `real`.
- The colour is a datatype. `Name()` gives the string that tilt.py stores.
- The record nests the parsed reading. tilt.py copies each reading field
  into a flat dictionary with the same values.
- The peripheral identifier is an opaque string.
- The manufacturer-data entry of the advertisement dictionary is an
  `Option<seq<byte>>`.
- The `last_seen` timestamp is text passed in by the caller.

## Model

| member | source | states |
|---|---|---|
| `Bytes.FromBytesBE` | tilt.py:139-141 | `int.from_bytes(bs, 'big')` of an n-byte string is below 256^n |
| `Bytes.ToBytesBE` | tilt.py:139-141 | the big-endian encoder used as a reference has exactly the requested width |
| `Bytes.FromToBytesBE` | tilt.py:139-141 | reading back the big-endian encoding of a value that fits gives that value |
| `Bytes.ToFromBytesBE` | tilt.py:139-141 | re-encoding a byte string's big-endian value at its width gives the byte string back, so the reading loses nothing |
| `Bytes.FromBytesBE2` | tilt.py:139 | a two-byte big-endian field is high × 256 + low, at most 65535 |
| `Bytes.ToSigned` | tilt.py:161 | `struct.unpack('b', ...)` lies in -128..127, is non-negative exactly when the byte is below 128, and reduces mod 256 to the byte |
| `Bytes.SignedRoundTrip` | tilt.py:161 | every value in -128..127 is the signed reading of its own byte |
| `Hex.Hexlify` | tilt.py:144 | the hex rendering has two characters per byte |
| `Hex.Upper` | tilt.py:144 | `str.upper()` keeps the length |
| `Hex.Unhexlify` | tilt.py:230 | the reference reader yields half as many bytes as there are hex digits |
| `Hex.HexRoundTrip` | tilt.py:230 | `raw_hex` (`bytes.hex()`) reads back to exactly the payload it renders |
| `Hex.UpperHexRoundTrip` | tilt.py:144 | the upper-cased hexlify of the UUID reads back to exactly the UUID bytes |
| `Hex.UpperHexInjective` | tilt.py:144 | two byte strings with the same upper-case rendering are equal, so `uuid_str` identifies the UUID |
| `Tilt.KnownUuid` | tilt.py:147-156 | each listed colour has a 16-byte UUID, A4 95 BB n0 C5 B1 4B 44 B5 12 13 70 F0 2D 74 DE with n = 1 (Red) to 8 (Pink) |
| `Tilt.ColorMapKey` | tilt.py:147-156 | the table maps the key A495BB, n, 0, C5B14B44B5121370F02D74DE to the colour numbered n |
| `Tilt.KnownUuidKey` | tilt.py:144-157 | the upper-case rendering of each colour's UUID is in the table and maps to that colour |
| `Tilt.ColorMapInjective` | tilt.py:147-156 | no two keys of the table map to the same colour |
| `Tilt.UuidColor` | tilt.py:144-157 | `color_map.get(uuid_str, "Unknown")` gives a listed colour only for a 16-byte UUID; its full meaning is stated by `ColorOfUuid` and `UnknownColorOfUuid` |
| `Tilt.ColorOfUuid` | tilt.py:144-157 | a UUID resolves to a listed colour if and only if its bytes are that colour's Tilt UUID |
| `Tilt.UnknownColorOfUuid` | tilt.py:157 | a UUID resolves to "Unknown" if and only if it is none of the eight Tilt UUIDs |
| `Tilt.FahrenheitToCelsius` | tilt.py:140 | `temperature_c` converted back to Fahrenheit (× 9/5 + 32) is the temperature |
| `Tilt.CelsiusMonotone` | tilt.py:140 | the Celsius value is strictly increasing in the Fahrenheit value, in both directions |
| `Tilt.BatteryWeeks` | tilt.py:159-164 | `battery_weeks` is present if and only if tx_raw ≤ 152 and tx_raw ≠ 0xC5, and when present equals tx_raw; 0xC5 always gives absent |
| `Tilt.HasIBeaconPrefix` | tilt.py:131 | the slice comparisons hold if and only if bytes 0..3 are 4C 00 02 15 |
| `Tilt.Reading.Gravity` | tilt.py:141 | the specific gravity is non-negative and is exactly the minor divided by 1000 |
| `Tilt.ParseTiltAdvertisement` | tilt.py:127-132 | fewer than 25 bytes gives `None`; with 25 or more, the result is a reading if and only if bytes 0..3 are 4C 00 02 15, whatever the UUID |
| `Tilt.ParseFields` | tilt.py:134-175 | temperature = data[20]·256 + data[21] ≤ 65535 with no plausibility check; temperature_c·9 = (temperature − 32)·5; gravity minor = data[22]·256 + data[23] and gravity·1000 = minor; colour is the table's entry for bytes 4..19; tx_raw = data[24]; tx_dbm is data[24] or data[24] − 256 and lies in -128..127; battery present exactly when data[24] ≤ 152 and ≠ 0xC5 |
| `Tilt.ParseReadsFirst25` | tilt.py:127-137 | two inputs of 25 or more bytes that agree on bytes 0..24 decode alike |
| `Tilt.ParseIgnoresTrailingBytes` | tilt.py:134-137 | appending bytes to an input of 25 or more bytes never changes the decoded result |
| `Tilt.EncodeTiltAdvertisement` | tilt.py:119-125 | the reference encoder of the documented layout produces 25 bytes |
| `Tilt.ParseEncoded` | tilt.py:111-175 | decoding an encoded broadcast recovers the UUID's colour, temperature, gravity and tx byte, with the derived Celsius, battery and signed fields |
| `Tilt.EncodeParsed` | tilt.py:111-175 | a 25-byte input that decodes is exactly the encoding of its UUID and decoded fields |
| `Tilt.UnknownUuidAccepted` | tilt.py:144-157 | a well-formed advertisement with an unlisted UUID still decodes, with colour Unknown |
| `Tilt.WorkedExample` | tilt.py:111-175 | 4C 00 02 15, the red UUID, then 00 46 03 E8 5A decodes to Red, 70 °F, 190/9 °C, minor 1000, 90 battery weeks, tx_raw 90, tx_dbm 90; the stored colour name is "Red" and the gravity 1.000 |
| `Devices.NoManufacturerData` | tilt.py:212-214 | the early return fires for a missing or empty payload and only then; anything it drops is shorter than the 25 bytes the decoder needs, so no Tilt advertisement is lost |
| `Devices.AcceptedReading` | tilt.py:212-220 | a reading is produced exactly when the manufacturer data is present and parses, and it is that parse |
| `Devices.Discover` | tilt.py:212-232 | on a rejected or absent payload the table is unchanged; otherwise the key set gains pid, the entry for pid is exactly the new record (parse, lower-case hex of the whole payload, `now`), and every other key and value is unchanged |
| `Devices.DiscoverKeepsConsistent` | tilt.py:222-232 | after any discovery, every stored `raw_hex` reads back to a payload whose parse is the stored reading, so no record mixes fields from two advertisements |
| `Devices.DiscoverLatestWins` | tilt.py:222-232 | a later accepted advertisement for the same device leaves the table as if the earlier event never happened |
| `Devices.DiscoverCommutes` | tilt.py:222-232 | events for two different devices give the same table in either order |
| `Devices.CentralManagerDelegate.constructor` | tilt.py:40 | the dictionary starts empty and consistent |
| `Devices.CentralManagerDelegate.DidDiscoverPeripheral` | tilt.py:205-232 | the new dictionary is `Discover` of the old one, and the consistency invariant is kept |

## Left out

- The CoreBluetooth/PyObjC plumbing is not modelled: `init`,
  `centralManagerDidUpdateState_` and `main`'s run loop (tilt.py:182-203,
  235-254). These are foreign OS APIs. Only the dictionary update they trigger
  is modelled.
- `clear_terminal`, `print_panel` and `refresh_panel_forever` (tilt.py:42-108)
  are not modelled. They are console output, `os.system` calls and a sleep loop
  on a background thread.
- Concurrent reads of `discovered_devices` by the refresher thread and the web
  dashboard are not modelled. The update is a sequential method.
- The `RSSI` argument of the callback is not a parameter, because tilt.py
  never reads it.
- Floating point is not modelled. `temperature_c` is exact rational arithmetic.
  Gravity is the integer minor with an exact `minor / 1000`. Float rounding and
  `.1f` formatting are out of scope.
- `last_seen` is a text parameter. `datetime.now().strftime` is a clock read.
- `str.upper()` is modelled on ASCII letters only. That is enough for the hex
  digits it is applied to.
- tilt_dashboard.py (the Flask page and its colour-to-CSS table) is not part of
  this model.
