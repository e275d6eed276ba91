/** The capture encoder `PcapFormatter`: a libpcap global header (draft-ietf-opsawg-pcap,
    section 4) written once, then one packet record (section 5) per packet, whose data is a
    LoRaTap version 0 radio header (link type 270, LINKTYPE_LORATAP) followed by the payload
    bytes. Both scripts carry the same encoder, so both use this one module. */
module Pcap {
  import opened Results
  import opened PyStr
  import opened Struct

  /** The record the extractors fill in, in declaration order. */
  datatype PacketData = PacketData(
    frequency: int, rssi: int, snr: int, bandwidth: int, data: string, sf: int)

  type Micros = x: int | 0 <= x < 1000000

  /** The wall-clock reading `write_packet` takes when it runs: whole seconds since the epoch
      and the microsecond within that second. */
  datatype Timestamp = Timestamp(seconds: int, micros: Micros)

  // ---------------------------------------------------------------- layouts

  const PcapMagic := 0xa1b2c3d4
  const SnapLen := 255
  const LinkTypeLoRaTap := 270

  /** `=IHHiIII`: magic, major and minor version, time-zone correction, timestamp accuracy,
      maximum captured length, link type. */
  const GlobalHeaderFields: seq<Field> := [
    Field(I, PcapMagic), Field(H, 2), Field(H, 4), Field(SignedI, 0), Field(I, 0),
    Field(I, SnapLen), Field(I, LinkTypeLoRaTap)]

  /** `=IIII`: seconds, microseconds, captured length, original length. */
  function RecordHeaderFields(now: Timestamp, len: int): seq<Field> {
    [Field(I, now.seconds), Field(I, now.micros), Field(I, len), Field(I, len)]
  }

  /** `>BBHIBBBBBBB`: version, padding, header size, frequency, bandwidth (floor-divided by 125),
      spreading factor, packet rssi, maximum rssi, current rssi, snr, sync word. */
  function RadioHeaderFields(p: PacketData): seq<Field> {
    [Field(B, 0), Field(B, 0), Field(H, RadioHeaderSizeField), Field(I, p.frequency),
     Field(B, p.bandwidth / BandwidthDivisor), Field(B, p.sf), Field(B, p.rssi),
     Field(B, p.rssi), Field(B, p.rssi), Field(B, p.snr), Field(B, SyncWord)]
  }

  /** What the radio header's size field is given (the block itself is 15 bytes). */
  const RadioHeaderSizeField := 16
  const SyncWord := 0x34
  const BandwidthDivisor := 125

  /** The 24 bytes `write_header` writes. */
  function GlobalHeader(): (h: seq<byte>)
    ensures |h| == 24
    ensures Unpack(Native, Codes(GlobalHeaderFields), h) == Success(Values(GlobalHeaderFields))
  {
    GlobalHeaderFits();
    PackRoundTrip(Native, GlobalHeaderFields);
    GlobalHeaderCodes();
    Pack(Native, GlobalHeaderFields).value
  }

  lemma GlobalHeaderFits()
    ensures Fits(GlobalHeaderFields)
  {
  }

  lemma GlobalHeaderCodes()
    ensures Codes(GlobalHeaderFields) == [I, H, H, SignedI, I, I, I]
    ensures Size([I, H, H, SignedI, I, I, I]) == 24
  {
  }

  /** The `" "`-separated tokens of the payload text, without one trailing empty token. */
  function Tokens(data: string): seq<string> {
    var parts := Split(data, ' ');
    if parts[|parts| - 1] == [] then parts[..|parts| - 1] else parts
  }

  /** The value of both length fields: 15 plus the number of tokens. */
  function RecordLength(data: string): nat {
    |Tokens(data)| + 15
  }

  /** The text `bytes.fromhex` is given: the payload text with every space removed. */
  function PayloadText(data: string): string {
    Replace(data, " ", [])
  }

  /** The timestamp and the length fit the 32-bit unsigned fields of the record header. */
  predicate RecordHeaderFits(now: Timestamp, data: string) {
    0 <= now.seconds < 0x1_0000_0000 && RecordLength(data) < 0x1_0000_0000
  }

  /** Every radio field fits its width: frequency 32 bits, the other fields one byte. */
  predicate RadioHeaderFits(p: PacketData) {
    0 <= p.frequency < 0x1_0000_0000 && 0 <= p.bandwidth / BandwidthDivisor < 256 &&
    0 <= p.sf < 256 && 0 <= p.rssi < 256 && 0 <= p.snr < 256
  }

  /** What one `write_packet` call appends to the stream, and whether it returns or raises. */
  datatype Emission = Emission(written: seq<byte>, outcome: Outcome)

  /** `write_packet` step by step: the diagnostic reads the last character of the text, then
      the text is decoded, then the record header is packed and written, then the radio header,
      then the payload. */
  function PacketEmission(p: PacketData, now: Timestamp): Emission {
    var len := RecordLength(p.data);
    if p.data == [] then Emission([], Fail(IndexError))
    else
      match FromHex(PayloadText(p.data))
      case Failure(e) => Emission([], Fail(e))
      case Success(payload) =>
        match Pack(Native, RecordHeaderFields(now, len))
        case Failure(e) => Emission([], Fail(e))
        case Success(record) =>
          match Pack(Big, RadioHeaderFields(p))
          case Failure(e) => Emission(record, Fail(e))
          case Success(radio) => Emission(record + radio + payload, Pass)
  }

  // ---------------------------------------------------------------- the stream and the encoder

  /** The opened pipe: every byte written to it so far, and how many of them were flushed. */
  class OutStream {
    var written: seq<byte>
    var flushed: nat

    ghost predicate Valid()
      reads this
    {
      flushed <= |written|
    }

    constructor ()
      ensures Valid() && written == [] && flushed == 0
    {
      written := [];
      flushed := 0;
    }

    method Write(bs: seq<byte>)
      requires Valid()
      modifies this
      ensures Valid() && written == old(written) + bs && flushed == old(flushed)
    {
      written := written + bs;
    }

    method Flush()
      requires Valid()
      modifies this
      ensures Valid() && written == old(written) && flushed == |written|
    {
      flushed := |written|;
    }
  }

  class PcapFormatter {
    const out: OutStream

    constructor (out: OutStream)
      ensures this.out == out
    {
      this.out := out;
    }

    /** `write_header`: the global header, then a flush. */
    method WriteHeader()
      requires out.Valid()
      modifies out
      ensures out.Valid()
      ensures out.written == old(out.written) + GlobalHeader()
      ensures out.flushed == |out.written|
    {
      PackRoundTrip(Native, GlobalHeaderFields);
      var header := Pack(Native, GlobalHeaderFields);
      out.Write(header.value);
      out.Flush();
    }

    /** `write_packet`: appends what `PacketEmission` says and flushes only when it returns; an
        exception leaves whatever was written before it. */
    method WritePacket(packet: PacketData, now: Timestamp) returns (outcome: Outcome)
      requires out.Valid()
      modifies out
      ensures out.Valid()
      ensures out.written == old(out.written) + PacketEmission(packet, now).written
      ensures outcome == PacketEmission(packet, now).outcome
      ensures out.flushed == if outcome.Pass? then |out.written| else old(out.flushed)
    {
      var dataLen := |Tokens(packet.data)| + 15;
      if packet.data == [] {
        // the diagnostic's `packet.data[-1]`
        return Fail(IndexError);
      }
      var dataBytes := FromHex(PayloadText(packet.data));
      if dataBytes.Failure? {
        return Fail(dataBytes.error);
      }
      var record := Pack(Native, RecordHeaderFields(now, dataLen));
      if record.Failure? {
        assert PacketEmission(packet, now) == Emission([], Fail(record.error));
        return Fail(record.error);
      }
      out.Write(record.value);
      var radio := Pack(Big, RadioHeaderFields(packet));
      if radio.Failure? {
        assert PacketEmission(packet, now) == Emission(record.value, Fail(radio.error));
        return Fail(radio.error);
      }
      out.Write(radio.value);
      out.Write(dataBytes.value);
      AppendThree(old(out.written), record.value, radio.value, dataBytes.value);
      out.Flush();
      assert PacketEmission(packet, now) ==
        Emission(record.value + radio.value + dataBytes.value, Pass);
      return Pass;
    }
  }

  // ---------------------------------------------------------------- properties

  lemma AppendAssoc(a: seq<byte>, b: seq<byte>, c: seq<byte>)
    ensures a + (b + c) == a + b + c
  {
  }

  lemma AppendThree(s: seq<byte>, a: seq<byte>, b: seq<byte>, c: seq<byte>)
    ensures s + a + b + c == s + (a + b + c)
  {
  }

  /** The global header starts with the magic number least significant byte first, which is how
      a reader tells the byte order of the whole file. */
  lemma GlobalHeaderMagic()
    ensures GlobalHeader()[..4] == [0xD4, 0xC3, 0xB2, 0xA1]
  {
    var f := GlobalHeaderFields;
    assert EncodeField(Little, I, PcapMagic) == [0xD4, 0xC3, 0xB2, 0xA1];
    EncodeCons(Native, f[0], f[1..]);
    assert f == [f[0]] + f[1..];
  }

  /** The length rule: 15, plus one per space, plus one, minus one when the text is empty or
      ends with a space. */
  lemma RecordLengthRule(data: string)
    ensures RecordLength(data) ==
      16 + Count(data, ' ') - (if data == [] || data[|data| - 1] == ' ' then 1 else 0)
  {
    var parts := Split(data, ' ');
    SplitCount(data, ' ');
    SplitLast(data, ' ');
    TokensLength(parts);
  }

  lemma TokensLength(parts: seq<string>)
    requires |parts| >= 1
    ensures var t := if parts[|parts| - 1] == [] then parts[..|parts| - 1] else parts;
      |t| == |parts| - (if parts[|parts| - 1] == [] then 1 else 0)
  {
  }

  /** The global header, read back with `=IHHiIII`. */
  lemma GlobalHeaderLayout()
    ensures Unpack(Native, [I, H, H, SignedI, I, I, I], GlobalHeader()) ==
      Success([0xa1b2c3d4, 2, 4, 0, 0, 255, 270])
  {
    var f := GlobalHeaderFields;
    assert Codes(f) == [I, H, H, SignedI, I, I, I];
    assert Values(f) == [0xa1b2c3d4, 2, 4, 0, 0, 255, 270];
  }

  lemma RecordHeaderFieldsFit(now: Timestamp, data: string)
    ensures Fits(RecordHeaderFields(now, RecordLength(data))) <==> RecordHeaderFits(now, data)
  {
    var f := RecordHeaderFields(now, RecordLength(data));
    if !RecordHeaderFits(now, data) {
      if !(0 <= now.seconds < 0x1_0000_0000) {
        assert !InRange(f[0].code, f[0].value);
      } else {
        assert !InRange(f[2].code, f[2].value);
      }
    }
  }

  lemma RadioHeaderFieldsFit(p: PacketData)
    ensures Fits(RadioHeaderFields(p)) <==> RadioHeaderFits(p)
  {
    var f := RadioHeaderFields(p);
    if !RadioHeaderFits(p) {
      if !(0 <= p.frequency < 0x1_0000_0000) {
        assert !InRange(f[3].code, f[3].value);
      } else if !(0 <= p.bandwidth / BandwidthDivisor < 256) {
        assert !InRange(f[4].code, f[4].value);
      } else if !(0 <= p.sf < 256) {
        assert !InRange(f[5].code, f[5].value);
      } else if !(0 <= p.rssi < 256) {
        assert !InRange(f[6].code, f[6].value);
      } else {
        assert !InRange(f[9].code, f[9].value);
      }
    }
  }

  /** The 16 bytes of a record header, read back with `=IIII`. */
  lemma RecordHeaderLayout(now: Timestamp, data: string)
    requires RecordHeaderFits(now, data)
    ensures Pack(Native, RecordHeaderFields(now, RecordLength(data))).Success?
    ensures var h := Pack(Native, RecordHeaderFields(now, RecordLength(data))).value;
      |h| == 16 &&
      Unpack(Native, [I, I, I, I], h) ==
        Success([now.seconds, now.micros as int, RecordLength(data), RecordLength(data)])
  {
    var f := RecordHeaderFields(now, RecordLength(data));
    RecordHeaderFieldsFit(now, data);
    PackRoundTrip(Native, f);
    assert Codes(f) == [I, I, I, I];
    assert Values(f) == [now.seconds, now.micros as int, RecordLength(data), RecordLength(data)];
    assert Size([I, I, I, I]) == 16;
  }

  /** The 15 bytes of a radio header, read back with `>BBHIBBBBBBB`. */
  lemma RadioHeaderLayout(p: PacketData)
    requires RadioHeaderFits(p)
    ensures Pack(Big, RadioHeaderFields(p)).Success?
    ensures var h := Pack(Big, RadioHeaderFields(p)).value;
      |h| == 15 &&
      Unpack(Big, [B, B, H, I, B, B, B, B, B, B, B], h) ==
        Success([0, 0, 16, p.frequency, p.bandwidth / 125, p.sf, p.rssi, p.rssi, p.rssi, p.snr,
          0x34])
  {
    RadioHeaderFieldsFit(p);
    PackRoundTrip(Big, RadioHeaderFields(p));
    RadioHeaderContents(p);
  }

  lemma RadioHeaderContents(p: PacketData)
    ensures Codes(RadioHeaderFields(p)) == [B, B, H, I, B, B, B, B, B, B, B]
    ensures Values(RadioHeaderFields(p)) ==
      [0, 0, 16, p.frequency, p.bandwidth / 125, p.sf, p.rssi, p.rssi, p.rssi, p.snr, 0x34]
    ensures Size([B, B, H, I, B, B, B, B, B, B, B]) == 15
  {
    RadioHeaderCodes(p);
    RadioHeaderValues(p);
    RadioHeaderSize();
  }

  lemma RadioHeaderCodes(p: PacketData)
    ensures Codes(RadioHeaderFields(p)) == [B, B, H, I, B, B, B, B, B, B, B]
  {
  }

  lemma RadioHeaderValues(p: PacketData)
    ensures Values(RadioHeaderFields(p)) ==
      [0, 0, 16, p.frequency, p.bandwidth / 125, p.sf, p.rssi, p.rssi, p.rssi, p.snr, 0x34]
  {
  }

  lemma RadioHeaderSize()
    ensures Size([B, B, H, I, B, B, B, B, B, B, B]) == 15
  {
  }

  /** `write_packet` returns exactly when the text is non-empty hex and every field fits. */
  lemma PacketPasses(p: PacketData, now: Timestamp)
    ensures PacketEmission(p, now).outcome == Pass <==>
      p.data != [] && FromHex(PayloadText(p.data)).Success? &&
      RecordHeaderFits(now, p.data) && RadioHeaderFits(p)
  {
    RecordHeaderFieldsFit(now, p.data);
    RadioHeaderFieldsFit(p);
  }

  /** A record that is written whole: the record header, the radio header, then the decoded
      payload, unmodified. */
  lemma RecordLayout(p: PacketData, now: Timestamp)
    requires PacketEmission(p, now).outcome == Pass
    ensures FromHex(PayloadText(p.data)).Success?
    ensures var w, payload := PacketEmission(p, now).written, FromHex(PayloadText(p.data)).value;
      |w| == 31 + |payload| &&
      Unpack(Native, [I, I, I, I], w[..16]) ==
        Success([now.seconds, now.micros as int, RecordLength(p.data), RecordLength(p.data)]) &&
      Unpack(Big, [B, B, H, I, B, B, B, B, B, B, B], w[16..31]) ==
        Success([0, 0, 16, p.frequency, p.bandwidth / 125, p.sf, p.rssi, p.rssi, p.rssi, p.snr,
          0x34]) &&
      w[31..] == payload
  {
    PacketPasses(p, now);
    RecordHeaderLayout(now, p.data);
    RadioHeaderLayout(p);
    var record := Pack(Native, RecordHeaderFields(now, RecordLength(p.data))).value;
    var radio := Pack(Big, RadioHeaderFields(p)).value;
    var payload := FromHex(PayloadText(p.data)).value;
    var w := PacketEmission(p, now).written;
    assert w == record + radio + payload;
    assert w[..16] == record;
    assert w[16..31] == radio;
  }

  /** Which failures leave the stream untouched, and which leave the record header behind. */
  lemma PacketFailures(p: PacketData, now: Timestamp)
    ensures p.data == [] ==> PacketEmission(p, now) == Emission([], Fail(IndexError))
    ensures p.data != [] && FromHex(PayloadText(p.data)).Failure? ==>
      PacketEmission(p, now) == Emission([], Fail(ValueError))
    ensures (p.data != [] && FromHex(PayloadText(p.data)).Success? &&
      !RecordHeaderFits(now, p.data)) ==>
      PacketEmission(p, now) == Emission([], Fail(StructError))
    ensures (p.data != [] && FromHex(PayloadText(p.data)).Success? &&
      RecordHeaderFits(now, p.data) && !RadioHeaderFits(p)) ==>
      var w := PacketEmission(p, now).written;
      PacketEmission(p, now).outcome == Fail(StructError) && |w| == 16 &&
      Unpack(Native, [I, I, I, I], w) ==
        Success([now.seconds, now.micros as int, RecordLength(p.data), RecordLength(p.data)])
  {
    RecordHeaderFieldsFit(now, p.data);
    RadioHeaderFieldsFit(p);
    if RecordHeaderFits(now, p.data) {
      RecordHeaderLayout(now, p.data);
    }
  }

  /** Spaced hex text `aa BB cc`, in either case: the payload is the bytes it spells and the
      length fields are 15 plus the payload length. When the text is upper case, the payload
      rendered as spaced hex is the text again. */
  lemma SpacedHexPayload(d: string)
    requires IsHexPairsText(d)
    ensures FromHex(PayloadText(d)) == Success(SpacedHexBytes(d))
    ensures RecordLength(d) == 15 + |SpacedHexBytes(d)|
    ensures IsSpacedHexText(d) ==> SpacedHex(SpacedHexBytes(d)) == d
  {
    HexPairsDecode(d);
    HexPairsSpaces(d);
    RecordLengthRule(d);
    if IsSpacedHexText(d) {
      SpacedHexTextBack(d);
    }
  }

  /** Contiguous hex `AABBCC` is a single token: the length fields say 16 whatever the number of
      payload bytes. */
  lemma ContiguousHexPayload(bs: seq<byte>)
    requires bs != []
    ensures FromHex(PayloadText(ContiguousHex(bs))) == Success(bs)
    ensures RecordLength(ContiguousHex(bs)) == 16
    ensures |bs| >= 2 ==> RecordLength(ContiguousHex(bs)) != 15 + |bs|
  {
    var d := ContiguousHex(bs);
    ContiguousHexLength(bs);
    CountAbsent(d, ' ');
    ReplaceAbsent(d, ' ', []);
    FromHexContiguous(bs);
    RecordLengthRule(d);
    assert d[|d| - 1] in d;
  }
}
