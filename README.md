# FNIRSI IR40 BLE bridge — verified model of the protocol and lookup core

`ir40-dbus-final.py` connects to a FNIRSI IR40 laser distance meter over BlueZ
(D-Bus), subscribes to its measurement notifications, keeps it awake with a
heartbeat command and types each decoded distance as keystrokes. This project
models, in Dafny, the parts of that script that are logic rather than plumbing:

- **the measurement decoder** `parse_distance_mm` (`Ir40Protocol.ParseDistanceMm`):
  a notification frame of at least 17 bytes whose byte 0 is `0x00` and byte 2 is
  `0x02` carries a big-endian 16-bit distance in bytes 14..15; a zero distance, a
  short frame or another frame type gives `None`;
- **the wire constants**: the write and notify characteristic UUIDs and the
  heartbeat and trigger command payloads, byte for byte;
- **characteristic resolution** (`CharacteristicResolver.Resolve`): the scan of the
  managed-object snapshot that keeps, for each of the two UUIDs, the path of the
  last GATT characteristic under the device path whose lower-cased UUID equals it;
- **device listing and selection** (`DeviceSelection.ListDevices`,
  `DeviceSelection.SelectDevice`): the entries exposing `org.bluez.Device1`, in
  snapshot order, with `Alias`/`Address` defaulting to `"Unknown"`, and the pick
  of one of them by a Python list index.

Files: `types.dfy` (bytes, `Option`, `Result`), `ascii_case.dfy` (`str.lower()`),
`ir40_protocol.dfy`, `object_tree.dfy` (the snapshot: a sequence of
`(path, interface → properties)` entries in dictionary order),
`characteristic_resolver.dfy`, `device_selection.dfy`.

Notes on what the script does, which the model follows:

- when several characteristics carry the same UUID the script keeps the **last**
  one (each match overwrites the variable), not the first;
- the decoder reads bytes 14..15 big-endian only; there is no little-endian variant
  and no configurable endianness;
- the decoder has no rejection reasons: every rejected frame gives `None`;
- the resolver has no "missing write", "missing notify" or "missing both" outcome:
  its only failure is the `KeyError` of a characteristic without a `UUID`
  property (line 96), modelled as `MissingUuid`; a UUID with no match leaves its
  path `None` (the script does not stop there; see "Left out");
- the decoder's docstring (line 19) describes measurement packets as starting
  `00 .. 02 01`, but the test at line 22 never looks at byte 3; the model follows
  the test, and `ParseDependsOnlyOnHeaderAndField` shows byte 3 has no effect;
- there is no session state machine (connect timeout, bounded retries,
  `Failed`/`Closed` states, `stop()`): the script has none.

## Model

| member | source | states |
|---|---|---|
| `AsciiCase.Lower` | ir40-dbus-final.py:96 | the lowered string has the same length, every character is the lowered character at that position, and no upper-case ASCII letter remains |
| `AsciiCase.LowerEqualIff` | ir40-dbus-final.py:96 | comparing lowered strings is exactly comparing letter by letter ignoring case, in both directions |
| `AsciiCase.LowerOfUpper` | ir40-dbus-final.py:96 | an upper-cased string lowers to the same string as the original |
| `AsciiCase.LowerIdempotent` | ir40-dbus-final.py:96 | lowering twice is lowering once |
| `Ir40Protocol.FromBytesBig` | ir40-dbus-final.py:25 | `int.from_bytes(…, "big")` of k bytes is below 256^k |
| `Ir40Protocol.FromBytesBigPair` | ir40-dbus-final.py:23-25 | a two-byte field reads as first byte × 256 + second byte |
| `Ir40Protocol.ToBytesBig16` | ir40-dbus-final.py:25 | the inverse of the field reading: two bytes that read back as the given value below 65536 |
| `Ir40Protocol.ParseDistanceMm` | ir40-dbus-final.py:16-30 | a frame shorter than 17 bytes, or with byte 0 ≠ 0x00 or byte 2 ≠ 0x02, gives None; a value is returned exactly when the header holds and bytes 14..15 are not both zero; the value is bytes[14]·256 + bytes[15] and lies in 1..65535 |
| `Ir40Protocol.ParseDependsOnlyOnHeaderAndField` | ir40-dbus-final.py:22-25 | two frames of equal length that agree on bytes 0, 2, 14 and 15 decode alike (every other byte, byte 16 included, is irrelevant) |
| `Ir40Protocol.ParseEncodedDistance` | ir40-dbus-final.py:22-29 | round trip: a measurement frame whose field encodes a distance in 1..65535 decodes to that distance |
| `Ir40Protocol.WorkedExample` | ir40-dbus-final.py:23-25 | field bytes 05 85 in a measurement frame decode to 1413 |
| `Ir40Protocol.TruthyIffDecoded` | ir40-dbus-final.py:109-110 | the handler's `if mm:` holds exactly when the decoder returned a value |
| `Ir40Protocol.CommandPayloadsAreNotMeasurements` | ir40-dbus-final.py:11-12 | neither the heartbeat nor the trigger payload decodes as a measurement |
| `Ir40Protocol.UuidsDistinct` | ir40-dbus-final.py:7-8 | the write and notify UUIDs differ, so the `elif` never hides a match |
| `CharacteristicResolver.LastMatchIndex` | ir40-dbus-final.py:94-98 | the index is -1 or that of a matching entry, and no entry after it matches |
| `CharacteristicResolver.FirstMissingUuid` | ir40-dbus-final.py:95-96 | the index is that of a candidate without a UUID (or the end), and no candidate before it lacks one |
| `CharacteristicResolver.LastMatchStep` | ir40-dbus-final.py:96-98 | scanning one more entry: a match replaces the kept path, any other entry keeps it |
| `CharacteristicResolver.FirstMissingUuidAt` | ir40-dbus-final.py:95-96 | the first candidate without a UUID is the unique index with those properties |
| `CharacteristicResolver.Scan` | ir40-dbus-final.py:93-98 | the loop fails with the path of the first candidate lacking a UUID if there is one, and otherwise returns, for each UUID, the last matching path or None |
| `CharacteristicResolver.Resolve` | ir40-dbus-final.py:93-98 | the same with the IR40's write and notify UUIDs |
| `CharacteristicResolver.LastMatchMeaning` | ir40-dbus-final.py:93-98 | a resolved path is None exactly when no entry matches; otherwise it is the path of an entry that has `org.bluez.GattCharacteristic1`, starts with the device path and has that lower-cased UUID, and no later entry matches |
| `CharacteristicResolver.UniqueMatchResolved` | ir40-dbus-final.py:94-98 | when exactly one entry matches a UUID, its path is resolved |
| `CharacteristicResolver.LastMatchIndexAt` | ir40-dbus-final.py:94-98 | the last match is the unique index with its defining properties |
| `CharacteristicResolver.NonCandidateKeepsMatch` | ir40-dbus-final.py:95 | inserting an entry that is not a characteristic under the device path, at any position, leaves the resolved path unchanged |
| `CharacteristicResolver.NonCandidateKeepsFailure` | ir40-dbus-final.py:95-96 | inserting such an entry at any position shifts the index of the first candidate without a UUID past the insertion point and changes nothing else |
| `CharacteristicResolver.NonCandidatesIgnored` | ir40-dbus-final.py:95 | an entry that is not a characteristic under the device path, inserted anywhere, changes neither the resolved path, nor whether the scan fails, nor the entry it fails on |
| `CharacteristicResolver.NothingUnderDeviceResolvesNothing` | ir40-dbus-final.py:93-95 | with no characteristic under the device path the scan succeeds and both paths stay None |
| `CharacteristicResolver.MatchIgnoresCase` | ir40-dbus-final.py:96-98 | two entries whose UUIDs agree up to case match the same target |
| `CharacteristicResolver.UpperCaseUuidMatches` | ir40-dbus-final.py:96 | upper-casing an entry's UUID does not change whether it matches |
| `DeviceSelection.DeviceOf` | ir40-dbus-final.py:41-45 | the row keeps the entry's path and takes `Alias` and `Address` when present, "Unknown" when missing |
| `DeviceSelection.ListDevices` | ir40-dbus-final.py:39-45 | the appended list equals the device rows of the snapshot and is no longer than it |
| `DeviceSelection.DevicesAppend` | ir40-dbus-final.py:40-45 | the list of a concatenated snapshot is the concatenation of the lists (order is kept) |
| `DeviceSelection.DevicesSound` | ir40-dbus-final.py:40-45 | every row is the row of some entry exposing `org.bluez.Device1` |
| `DeviceSelection.DevicePosition` | ir40-dbus-final.py:40-45 | every device entry has its row, placed right after the rows of the entries before it |
| `DeviceSelection.NonDevicesIgnored` | ir40-dbus-final.py:41 | an entry without `org.bluez.Device1` adds no row |
| `DeviceSelection.PickIndex` | ir40-dbus-final.py:57-59 | a device is returned exactly for -n ≤ index < n; a non-negative index selects from the front, a negative one from the end |
| `DeviceSelection.SelectDevice` | ir40-dbus-final.py:39-59 | the selection is the pick from the device list, present exactly for an index in Python's range, and is always the row of a device entry of the snapshot |

## Left out

- The D-Bus connection, introspection and proxy/interface creation (lines 2-3, 34-38, 71-78, 88-91, 101-104, 118-120): foreign library calls. The snapshot they produce is a parameter of the model.
- Device connect and the `ServicesResolved` polling loop (lines 80-85): transport I/O and timing.
- What happens after resolution when a path is still `None` (line 101 introspects it): that is a call into D-Bus, so the model stops at the resolved pair.
- `heartbeat_loop` and the trigger loop (lines 61-68, 128-130): async timers and characteristic writes; only their payload constants are modelled.
- The notification callback registration and `start_notify` (lines 106-115); of the callback only the decoder call and its `if mm:` test are modelled.
- Keystroke injection and all console output and input (lines 4, 14, 48, 51-53, 56, 111-112, 124-126).
- `SelectDevice`: the prompt is not read; the index is an already-parsed integer, so the `ValueError` path of `int(choice)` is not modelled.
- `AsciiCase.Lower`: lowers the ASCII letters A-Z only; Python's `str.lower()` also lowers non-ASCII letters.
- Property values are modelled as strings (`Alias`, `Address` and `UUID` are string properties in BlueZ); properties of other types are not represented.
- The snapshot is a sequence in dictionary iteration order; that object paths are unique keys is not used by any proof and not stated.
