/**
 * The FNIRSI IR40 wire protocol: the GATT characteristic UUIDs, the two command
 * payloads written to the device, and the decoder for measurement notifications.
 */
module Ir40Protocol {
  import opened Types

  /** Characteristic the device sends measurement frames on. */
  const NOTIFY_UUID: string := "0000ee02-0000-1000-8000-00805f9b34fb"
  /** Characteristic commands are written to. */
  const WRITE_UUID: string := "0000ee03-0000-1000-8000-00805f9b34fb"

  /** Keep-alive command. */
  const HEARTBEAT_PAYLOAD: seq<byte> := [0x00, 0x01, 0x02, 0x01, 0x05, 0x00, 0x00, 0x00, 0x01]
  /** "Take a measurement" command. */
  const TRIGGER_PAYLOAD: seq<byte> := [0x00, 0x07, 0x02, 0x08, 0x0e, 0x00, 0x00, 0x00, 0x01]

  /** Shortest frame the decoder accepts. */
  const MIN_FRAME_LEN: nat := 17

  function Pow256(k: nat): (p: nat)
    ensures p >= 1
  {
    if k == 0 then 1 else 256 * Pow256(k - 1)
  }

  /** `int.from_bytes(bs, "big")`: the first byte is the most significant. */
  function FromBytesBig(bs: seq<byte>): (n: nat)
    ensures n < Pow256(|bs|)
  {
    if bs == [] then 0
    else
      var high := FromBytesBig(bs[..|bs| - 1]);
      assert high * 256 <= (Pow256(|bs| - 1) - 1) * 256;
      high * 256 + bs[|bs| - 1] as nat
  }

  /** A two-byte field reads as `high * 256 + low`. */
  lemma FromBytesBigPair(high: byte, low: byte)
    ensures FromBytesBig([high, low]) == high as nat * 256 + low as nat
  {
  }

  /** The two bytes, most significant first, that `FromBytesBig` reads back as `v`. */
  function ToBytesBig16(v: nat): (bs: seq<byte>)
    requires v < 65536
    ensures |bs| == 2 && FromBytesBig(bs) == v
  {
    FromBytesBigPair((v / 256) as byte, (v % 256) as byte);
    [(v / 256) as byte, (v % 256) as byte]
  }

  /** The header test of the decoder: long enough, byte 0 is 0x00 and byte 2 is 0x02. */
  predicate IsMeasurementFrame(data: seq<byte>)
  {
    |data| >= MIN_FRAME_LEN && data[0] == 0x00 && data[2] == 0x02
  }

  /**
   * `parse_distance_mm`: the big-endian 16-bit field at offsets 14..15 of a
   * measurement frame, in millimetres; `None` for a short frame, a frame of
   * another type, or a zero field.
   */
  function ParseDistanceMm(data: seq<byte>): (r: Option<nat>)
    ensures |data| < MIN_FRAME_LEN ==> r == None
    ensures |data| >= MIN_FRAME_LEN && (data[0] != 0x00 || data[2] != 0x02) ==> r == None
    ensures r.Some? <==> IsMeasurementFrame(data) && (data[14] != 0 || data[15] != 0)
    ensures r.Some? ==> r.value == data[14] as nat * 256 + data[15] as nat
    ensures r.Some? ==> 1 <= r.value <= 65535
  {
    if |data| >= MIN_FRAME_LEN && data[0] == 0x00 && data[2] == 0x02 then
      assert data[14..16] == [data[14], data[15]];
      FromBytesBigPair(data[14], data[15]);
      var distMm := FromBytesBig(data[14..16]);
      if distMm > 0 then Some(distMm) else None
    else
      None
  }

  /**
   * The decoder looks only at the frame length and at bytes 0, 2, 14 and 15:
   * two frames of equal length that agree there decode alike.
   */
  lemma ParseDependsOnlyOnHeaderAndField(a: seq<byte>, b: seq<byte>)
    requires |a| == |b|
    requires |a| >= MIN_FRAME_LEN ==> a[0] == b[0] && a[2] == b[2] && a[14] == b[14] && a[15] == b[15]
    ensures ParseDistanceMm(a) == ParseDistanceMm(b)
  {
  }

  /**
   * Round trip: a measurement frame whose field holds the big-endian encoding of
   * a distance in 1..65535 decodes to that distance, whatever its other bytes.
   */
  lemma ParseEncodedDistance(data: seq<byte>, mm: nat)
    requires IsMeasurementFrame(data)
    requires 1 <= mm <= 65535
    requires data[14..16] == ToBytesBig16(mm)
    ensures ParseDistanceMm(data) == Some(mm)
  {
  }

  /** The worked example in the script: field bytes 05 85 read as 1413 mm. */
  lemma WorkedExample(data: seq<byte>)
    requires IsMeasurementFrame(data) && data[14] == 0x05 && data[15] == 0x85
    ensures ParseDistanceMm(data) == Some(1413)
  {
  }

  /** Python truthiness of the decoder's result, as the notification handler tests it (`if mm:`). */
  predicate Truthy(r: Option<nat>)
  {
    r.Some? && r.value != 0
  }

  /** Since the decoder never returns 0, `if mm:` is the same test as "is not None". */
  lemma TruthyIffDecoded(data: seq<byte>)
    ensures Truthy(ParseDistanceMm(data)) <==> ParseDistanceMm(data).Some?
  {
  }

  /** Neither command payload is itself accepted as a measurement. */
  lemma CommandPayloadsAreNotMeasurements()
    ensures ParseDistanceMm(HEARTBEAT_PAYLOAD) == None
    ensures ParseDistanceMm(TRIGGER_PAYLOAD) == None
  {
  }

  /** The two UUIDs differ, so a lower-cased UUID can equal at most one of them. */
  lemma UuidsDistinct()
    ensures WRITE_UUID != NOTIFY_UUID
  {
  }
}
