/**
 * The API frame that `sendXBeeData` hands to the XBee radio: a Digi XBee
 * 802.15.4 "TX Request, 64-bit address" frame (API frame type 0x00) in
 * unescaped API mode.
 *
 *   offset  0      start delimiter 0x7E
 *   offset  1..2   length of the frame data, big-endian
 *   offset  3      API frame type 0x00
 *   offset  4      frame id 0x01
 *   offset  5..12  64-bit destination address, most significant byte first
 *   offset 13      transmit options 0x00
 *   offset 14..    payload
 *   last byte      checksum: 0xFF minus the 8-bit sum of bytes 3 .. end of payload
 */
module XBeeFrame {
  import opened Wrappers

  /** An `uint8_t`. */
  type uint8 = x: int | 0 <= x < 256

  const StartDelimiter: uint8 := 0x7E
  const ApiTx64Request: uint8 := 0x00
  const FrameId: uint8 := 0x01
  const TxOptions: uint8 := 0x00
  const AddressLength: nat := 8

  /** Bytes around the payload: delimiter, length (2), type, id, address (8), options, checksum. */
  const FrameOverhead: nat := 15

  /**
   * The largest payload whose frame length, `dataLength + 15`, still fits the
   * `uint8_t` variables of `sendXBeeData`.
   */
  const MaxPayload: nat := 255 - FrameOverhead

  /** `destAddress`: the 64-bit address of the receiving radio. */
  const DestAddress: seq<uint8> := [0x00, 0x13, 0xA2, 0x00, 0x41, 0x4F, 0xED, 0xDD]

  /** Exact sum of a byte sequence, accumulated from the left as the checksum loop does. */
  function ByteSum(s: seq<uint8>): nat
  {
    if s == [] then 0 else ByteSum(s[..|s| - 1]) + s[|s| - 1]
  }

  lemma {:induction false} ByteSumConcat(a: seq<uint8>, b: seq<uint8>)
    ensures ByteSum(a + b) == ByteSum(a) + ByteSum(b)
    decreases |b|
  {
    if b == [] {
      assert a + b == a;
    } else {
      assert (a + b)[..|a + b| - 1] == a + b[..|b| - 1];
      ByteSumConcat(a, b[..|b| - 1]);
    }
  }

  /** The checksum byte for the checksummed bytes `s`. */
  function Checksum(s: seq<uint8>): (c: uint8)
    ensures (ByteSum(s) + c) % 256 == 0xFF
  {
    0xFF - ByteSum(s) % 256
  }

  /** The checksum byte is the only byte that completes the sum to 0xFF. */
  lemma ChecksumUnique(s: seq<uint8>, c: uint8)
    requires (ByteSum(s) + c) % 256 == 0xFF
    ensures c == Checksum(s)
  {
    var q := (ByteSum(s) + c) / 256;
    var p := ByteSum(s) / 256;
    assert ByteSum(s) + c == q * 256 + 0xFF;
    assert ByteSum(s) == p * 256 + ByteSum(s) % 256;
    assert c - Checksum(s) == (q - p) * 256;
  }

  /** The bytes the length field counts and the checksum covers: type through payload. */
  function FrameData(data: seq<uint8>, dest: seq<uint8>): (d: seq<uint8>)
    requires |dest| == AddressLength
    ensures |d| == |data| + FrameOverhead - 4
  {
    [ApiTx64Request, FrameId] + dest + [TxOptions] + data
  }

  /** The frame `sendXBeeData` transmits for payload `data` and destination `dest`. */
  function Frame(data: seq<uint8>, dest: seq<uint8>): (f: seq<uint8>)
    requires |data| <= MaxPayload && |dest| == AddressLength
    ensures |f| == |data| + FrameOverhead
  {
    var body := FrameData(data, dest);
    [StartDelimiter, |body| / 256, |body| % 256] + body + [Checksum(body)]
  }

  /**
   * The byte layout of a frame: fixed fields at their offsets, the length
   * field counting type through payload (its high byte always 0 for these
   * lengths), the payload in order, and the checksum as the last byte.
   */
  lemma FrameLayout(data: seq<uint8>, dest: seq<uint8>)
    requires |data| <= MaxPayload && |dest| == AddressLength
    ensures var f := Frame(data, dest);
      && f[0] == StartDelimiter
      && f[1] == 0 && f[2] == |f| - 4 == |data| + 11
      && f[3] == ApiTx64Request && f[4] == FrameId && f[13] == TxOptions
      && f[5..13] == dest
      && f[14..|f| - 1] == data
      && f[|f| - 1] == Checksum(f[3..|f| - 1])
  {
    var f := Frame(data, dest);
    assert f[3..|f| - 1] == FrameData(data, dest);
  }

  /**
   * Converse of FrameLayout: a byte sequence of the right size with these
   * fields and this checksum is the frame for `data` and `dest`.
   */
  lemma FrameAssembly(data: seq<uint8>, dest: seq<uint8>, w: seq<uint8>)
    requires |data| <= MaxPayload && |dest| == AddressLength
    requires |w| == |data| + FrameOverhead
    requires w[..14] == [StartDelimiter, 0, |data| + 11, ApiTx64Request, FrameId] + dest + [TxOptions]
    requires w[14..|w| - 1] == data
    requires w[|w| - 1] == Checksum(w[3..|w| - 1])
    ensures w == Frame(data, dest)
  {
    var body := w[3..|w| - 1];
    assert body == FrameData(data, dest) by {
      assert body == w[..14][3..] + w[14..|w| - 1];
    }
    assert w == w[..14][..3] + body + [w[|w| - 1]];
  }

  /** Checksum invariant: bytes 3 .. last, checksum included, sum to 0xFF modulo 256. */
  lemma FrameChecksumValid(data: seq<uint8>, dest: seq<uint8>)
    requires |data| <= MaxPayload && |dest| == AddressLength
    ensures var f := Frame(data, dest); ByteSum(f[3..]) % 256 == 0xFF
  {
    var f := Frame(data, dest);
    assert f[3..] == f[3..|f| - 1] + [f[|f| - 1]];
    ByteSumConcat(f[3..|f| - 1], [f[|f| - 1]]);
  }

  /** The content of a TX Request (64-bit address) frame, as a receiving radio sees it. */
  datatype TxRequest64 = TxRequest64(frameId: uint8, dest: seq<uint8>, options: uint8, payload: seq<uint8>)

  /**
   * A receiver's reading of an unescaped API frame: delimiter, a length field
   * that matches the frame's size, frame type 0x00 and a valid checksum.
   */
  function Decode(f: seq<uint8>): (r: Option<TxRequest64>)
    ensures r.Some? ==> |f| >= FrameOverhead && f[0] == StartDelimiter
    ensures r.Some? ==> |r.value.dest| == AddressLength && |r.value.payload| == |f| - FrameOverhead
    ensures r.Some? ==> ByteSum(f[3..]) % 256 == 0xFF
  {
    if |f| < FrameOverhead || f[0] != StartDelimiter then None
    else if f[1] as int * 256 + f[2] != |f| - 4 then None
    else if f[3] != ApiTx64Request then None
    else if ByteSum(f[3..]) % 256 != 0xFF then None
    else Some(TxRequest64(f[4], f[5..13], f[13], f[14..|f| - 1]))
  }

  /** Round trip: every frame `sendXBeeData` emits decodes to its destination and payload. */
  lemma DecodeFrame(data: seq<uint8>, dest: seq<uint8>)
    requires |data| <= MaxPayload && |dest| == AddressLength
    ensures Decode(Frame(data, dest)) == Some(TxRequest64(FrameId, dest, TxOptions, data))
  {
    FrameLayout(data, dest);
    FrameChecksumValid(data, dest);
  }

  /**
   * Converse round trip: a frame that decodes to frame id 1, options 0 and a
   * payload of at most MaxPayload bytes is exactly the frame `sendXBeeData`
   * builds for that payload and destination.
   */
  lemma FrameOfDecoded(f: seq<uint8>, data: seq<uint8>, dest: seq<uint8>)
    requires Decode(f) == Some(TxRequest64(FrameId, dest, TxOptions, data))
    requires |data| <= MaxPayload
    ensures Frame(data, dest) == f
  {
    var body := f[3..|f| - 1];
    var last := f[|f| - 1];
    assert f[1] == 0 && f[2] == |data| + 11;
    assert f[..14] == [f[0], f[1], f[2], f[3], f[4]] + f[5..13] + [f[13]];
    assert f[3..] == body + [last];
    ByteSumConcat(body, [last]);
    assert [last][..0] == [];
    ChecksumUnique(body, last);
    FrameAssembly(data, dest, f);
  }

  /** An empty payload still yields a 15-byte frame with length field 11. */
  lemma EmptyPayloadFrame(dest: seq<uint8>)
    requires |dest| == AddressLength
    ensures var f := Frame([], dest);
      |f| == 15 && f[1] == 0 && f[2] == 11 &&
      f[14] == 0xFF - (FrameId + ByteSum(dest)) % 256
  {
    var f := Frame([], dest);
    assert f[3..14] == [ApiTx64Request, FrameId] + dest + [TxOptions];
    ByteSumConcat([ApiTx64Request, FrameId] + dest, [TxOptions]);
    ByteSumConcat([ApiTx64Request, FrameId], dest);
    assert ByteSum([ApiTx64Request, FrameId]) == FrameId by {
      assert [ApiTx64Request, FrameId][..1] == [ApiTx64Request];
      assert [ApiTx64Request][..0] == [];
    }
  }

  /** The frame for an empty payload to the configured destination, byte for byte. */
  lemma EmptyPayloadToDestAddress()
    ensures Frame([], DestAddress)
      == [0x7E, 0x00, 0x0B, 0x00, 0x01, 0x00, 0x13, 0xA2, 0x00, 0x41, 0x4F, 0xED, 0xDD, 0x00, 0xEF]
  {
    EmptyPayloadFrame(DestAddress);
    assert ByteSum(DestAddress) == 783 by {
      var d := DestAddress;
      assert ByteSum(d[..1]) == 0x00 by { assert d[..1][..0] == []; }
      assert ByteSum(d[..2]) == 0x13 by { assert d[..2][..1] == d[..1]; }
      assert ByteSum(d[..3]) == 0xB5 by { assert d[..3][..2] == d[..2]; }
      assert ByteSum(d[..4]) == 0xB5 by { assert d[..4][..3] == d[..3]; }
      assert ByteSum(d[..5]) == 0xF6 by { assert d[..5][..4] == d[..4]; }
      assert ByteSum(d[..6]) == 0x145 by { assert d[..6][..5] == d[..5]; }
      assert ByteSum(d[..7]) == 0x232 by { assert d[..7][..6] == d[..6]; }
      assert d[..8][..7] == d[..7] && d[..8] == d;
    }
  }

  /**
   * `sendXBeeData` (without the UART write): sizes `frame[]` with the
   * `uint8_t` length arithmetic, writes the header, copies the payload with
   * `getBytes` (which also writes a NUL terminator into the last slot),
   * accumulates the 8-bit checksum over bytes 3 .. frameLength - 2 and stores
   * it over the terminator.  Returns the `frameLength` bytes handed to
   * `xbeeSerial.write`.
   */
  method SendXBeeData(data: seq<uint8>, dest: seq<uint8>) returns (written: seq<uint8>)
    requires |data| <= MaxPayload && |dest| == AddressLength
    ensures written == Frame(data, dest)
    ensures |written| == |data| + FrameOverhead
  {
    var dataLength: uint8 := |data| % 256;
    var frameLength: uint8 := (dataLength + 15) % 256;
    var frameDataLength: uint8 := (frameLength - 4) % 256;
    assert frameLength == |data| + FrameOverhead && frameDataLength == |data| + 11;
    var frame := new uint8[frameLength];

    WriteHeader(frame, frameDataLength, dest);
    ghost var header := frame[..14];
    GetBytes(data, frame, 14);
    ghost var bytes := frame[..frameLength - 1];
    assert bytes[..14] == header && bytes[14..] == data;

    var checksum := ChecksumOver(frame, 3, frameLength - 1);
    assert checksum == ByteSum(bytes[3..]) % 256;
    frame[frameLength - 1] := 0xFF - checksum;

    written := frame[..];
    assert written[..frameLength - 1] == bytes;
    assert written[..14] == header && written[14..frameLength - 1] == data;
    assert written[3..frameLength - 1] == bytes[3..];
    FrameAssembly(data, dest, written);
  }

  /**
   * Lines 43-49: start delimiter, the two length bytes of `frameDataLength`
   * (high byte first), frame type, frame id, the destination address
   * (`memcpy`) and the transmit options.
   */
  method WriteHeader(frame: array<uint8>, frameDataLength: uint8, dest: seq<uint8>)
    requires frame.Length >= 14 && |dest| == AddressLength
    modifies frame
    ensures frame[..14]
      == [StartDelimiter, frameDataLength / 256, frameDataLength % 256, ApiTx64Request, FrameId] + dest + [TxOptions]
    ensures frame[14..] == old(frame[14..])
  {
    frame[0] := StartDelimiter;
    frame[1] := frameDataLength / 256;  // (frameDataLength >> 8) & 0xFF
    frame[2] := frameDataLength % 256;  // frameDataLength & 0xFF
    frame[3] := ApiTx64Request;
    frame[4] := FrameId;
    ghost var head := frame[..5];
    for k := 0 to AddressLength
      invariant frame[..5] == head
      invariant frame[5..5 + k] == dest[..k]
      invariant frame[14..] == old(frame[14..])
    {
      frame[5 + k] := dest[k];
    }
    frame[13] := TxOptions;
    assert frame[..14] == frame[..5] + frame[5..13] + [frame[13]];
  }

  /**
   * Arduino's `String::getBytes(buf, |data| + 1)`: the payload bytes followed
   * by a NUL terminator, written from `frame[offset]` on.
   */
  method GetBytes(data: seq<uint8>, frame: array<uint8>, offset: nat)
    requires offset + |data| < frame.Length
    modifies frame
    ensures frame[..offset] == old(frame[..offset])
    ensures frame[offset..offset + |data|] == data
    ensures frame[offset + |data|] == 0
    ensures frame[offset + |data| + 1..] == old(frame[offset + |data| + 1..])
  {
    for k := 0 to |data|
      invariant frame[..offset] == old(frame[..offset])
      invariant frame[offset..offset + k] == data[..k]
      invariant frame[offset + k..] == old(frame[offset + k..])
    {
      frame[offset + k] := data[k];
    }
    frame[offset + |data|] := 0;
  }

  /** The checksum loop: the 8-bit sum of `frame[from .. to - 1]`. */
  method ChecksumOver(frame: array<uint8>, from: nat, to: nat) returns (checksum: uint8)
    requires from <= to <= frame.Length
    ensures checksum == ByteSum(frame[from..to]) % 256
  {
    checksum := 0;
    for i := from to to
      invariant checksum == ByteSum(frame[from..i]) % 256
    {
      assert frame[from..i + 1][..i - from] == frame[from..i];
      checksum := (checksum + frame[i]) % 256;
    }
  }

  /** Why `sendXBeeData` could not signal a payload that is too long. */
  datatype EncodeError = PayloadTooLarge

  /**
   * The frame encoder with the length bound made explicit: payloads whose
   * frame would not fit the 8-bit length arithmetic are refused instead of
   * wrapping.
   */
  function Encode(data: seq<uint8>, dest: seq<uint8>): (r: Result<seq<uint8>, EncodeError>)
    requires |dest| == AddressLength
    ensures r.Success? <==> |data| + FrameOverhead <= 255
    ensures r.Success? ==> Decode(r.value) == Some(TxRequest64(FrameId, dest, TxOptions, data))
    ensures r.Failure? ==> r.error == PayloadTooLarge
  {
    if |data| > MaxPayload then Failure(PayloadTooLarge)
    else
      DecodeFrame(data, dest);
      Success(Frame(data, dest))
  }

  /**
   * `frameLength` as lines 38-39 compute it: the payload length truncated to
   * `uint8_t`, plus 15, again truncated to `uint8_t`.
   */
  function FrameLengthAsWritten(payloadLength: nat): (n: uint8)
    ensures payloadLength <= MaxPayload ==> n == payloadLength + FrameOverhead
  {
    (payloadLength % 256 + 15) % 256
  }

  /**
   * When the payload length is 241 to 255 modulo 256, the computed frame
   * length wraps to at most 14, so `frame[]` has no room for the payload that
   * `getBytes` copies to `frame[14]` onwards.
   */
  lemma FrameLengthWrapsAsWritten(payloadLength: nat)
    requires MaxPayload < payloadLength % 256
    ensures FrameLengthAsWritten(payloadLength) <= 14
    ensures FrameLengthAsWritten(payloadLength) == payloadLength % 256 + FrameOverhead - 256
  {
  }

  /**
   * When the payload is 256 bytes or longer and its length is at most 240
   * modulo 256, `dataLength` truncates instead: `frameLength` is the length
   * of a well-formed frame for only the first `|data| % 256` bytes, which is
   * all `getBytes(&frame[14], dataLength + 1)` copies.  `Encode` refuses
   * such a payload.
   */
  lemma PayloadTruncatesAsWritten(data: seq<uint8>, dest: seq<uint8>)
    requires |dest| == AddressLength
    requires 256 <= |data| && |data| % 256 <= MaxPayload
    ensures FrameLengthAsWritten(|data|) == |Frame(data[..|data| % 256], dest)|
    ensures FrameLengthAsWritten(|data|) < |data| + FrameOverhead
    ensures Encode(data, dest) == Failure(PayloadTooLarge)
  {
  }

  /** The 241-byte payload: a zero-length `frame[]`, which even `frame[0] = 0x7E` overruns. */
  lemma FrameLengthWrapsAt241()
    ensures FrameLengthAsWritten(MaxPayload + 1) == 0
    ensures Encode(seq(MaxPayload + 1, _ => 0x20), DestAddress) == Failure(PayloadTooLarge)
  {
  }
}
