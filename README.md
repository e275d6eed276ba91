# LoRaShark capture bridges in Dafny

LoRaShark feeds LoRa radio traffic to Wireshark. Two small Python scripts read text lines from a
serial port, pull the radio parameters and the hex payload out of them, and write a libpcap stream
into a named pipe. The stream uses link type 270 (LINKTYPE_LORATAP). Each record is a 16-byte
pcap record header, a 15-byte LoRaTap version 0 radio header, and the raw payload.

- `serial-pipe.py` serves a Semtech packet-forwarder gateway. A `rxPkt:: CRC` line announces a
  frame. The line after it carries the payload as hex text. Later `[{"chan"` lines carry the JSON
  `rxpk` object, and the script slices `freq`, `datr`, `lsnr` and `rssi` out of it by index.
- `serial-pipe-ino.py` serves an Arduino receiver. A `Received packet` line holds the payload
  between single quotes. The five lines after it hold the RSSI, SNR, bandwidth, frequency and
  spreading factor, each reduced to its digits.

The two scripts carry the same `PcapFormatter` text: serial-pipe.py:62-105 and
serial-pipe-ino.py:58-101 are identical. So one model, `Pcap`, serves both scripts, and both
produce the same bytes for the same `PacketData` and timestamp by construction.

The modules are:

- `Results` holds bytes, the Python exceptions the scripts can raise, and `Result`.
- `PyStr` models the Python string operations the scripts rely on: `find` with its -1 result;
  slicing with negative and clamped bounds; `strip`; `re.sub` with a character class; `replace`;
  `split`; `re.findall(r'\d+')`; `int()`; `float(x) * 1000000` truncated; `bytes.fromhex`.
- `Struct` models `struct.pack` and `struct.unpack` for the codes `B H I i` under `=` and `>`. An
  out-of-range value raises.
- `Pcap` holds the output stream as a class whose `Write` appends to a sequence of bytes. It also
  holds `PcapFormatter` with `WriteHeader` and `WritePacket`, and `PacketEmission`, the function
  that says what one `write_packet` call appends and whether it raises.
- `Session` describes a run once the input has been cut into requests. It serves the requests in
  order and stops at the first exception, because neither script catches one.
- `GatewayPipe` and `ArduinoPipe` hold each script's `extract_params` and `wrap_raw_data`. They
  also hold the script's `main` loop as a method over a sequence of lines, proved equal to a
  functional description of the requests the loop makes.

Where the code and the usual description of it disagree, the model follows the code:

- **Gateway `hexData` can be cleared.** A later CRC line whose data line yields nothing replaces
  `hexData` with the empty text. Nothing is then sent until another CRC line brings text again
  (`GatewayPipe.CrcClears`).
- **Gateway CRC lines are skipped while scanning.** A CRC line met while the inner loop looks for
  `[{"chan"` is passed over. Its data line is not read (`GatewayPipe.CrcSkippedWhileScanning`).
- **Gateway stops on a trailing CRC line.** A CRC line as the last line waits for a data line
  forever, and nothing more is written.
- **Arduino `-0` is not negative.** The RSSI is negative only when the line holds a `-` and its
  digits spell a number above zero.
- **Arduino negative RSSI never finishes a record.** Every negative RSSI fails the `B` pack after
  the record header has been written (`ArduinoPipe.NegativeReading`).
- **Failures end the run.** Any exception ends the run. No packet is dropped and the loop does
  not go on.

## Model

| member | source | states |
|---|---|---|
| Pcap.GlobalHeader | serial-pipe.py:63-73 | the header is 24 bytes that unpack under `=IHHiIII` to the seven values the script packs |
| Pcap.GlobalHeaderLayout | serial-pipe.py:64-72 | those values are magic 0xa1b2c3d4, version 2.4, zone 0, accuracy 0, snap length 255, link type 270, in that order and width |
| Pcap.GlobalHeaderMagic | serial-pipe.py:64-65 | with native order taken as little-endian, the stream starts D4 C3 B2 A1 |
| Pcap.GlobalHeaderFits | serial-pipe.py:64-72 | every header value fits its field, so `write_header` cannot raise |
| Pcap.GlobalHeaderCodes | serial-pipe.py:64 | the header format is I H H i I I I, which takes 24 bytes |
| Pcap.OutStream.Write | serial-pipe.py:64 | a write appends exactly the given bytes and changes nothing else |
| Pcap.OutStream.Flush | serial-pipe.py:73 | a flush leaves the bytes alone and marks all of them flushed |
| Pcap.PcapFormatter.constructor | serial-pipe.py:53-54 | the formatter keeps the stream it is given |
| Pcap.PcapFormatter.WriteHeader | serial-pipe.py:63-73 | the stream gains exactly the global header and is then flushed |
| Pcap.PcapFormatter.WritePacket | serial-pipe.py:75-105 | the stream gains exactly what `PacketEmission` says, the call returns or raises as it says, and the stream is flushed only when the call returns |
| Pcap.RecordLengthRule | serial-pipe.py:76-79 | the length field is 16 plus the number of spaces, less one when the text is empty or ends in a space |
| Pcap.RecordHeaderFieldsFit | serial-pipe.py:85-90 | the record header packs exactly when the seconds and the length fit 32 unsigned bits |
| Pcap.RadioHeaderFieldsFit | serial-pipe.py:91-102 | the radio header packs exactly when the frequency fits 32 bits and bandwidth // 125, sf, rssi and snr each fit 0..255 |
| Pcap.RecordHeaderLayout | serial-pipe.py:85-90 | the record header is 16 bytes: seconds, microseconds, then the same length twice |
| Pcap.RadioHeaderLayout | serial-pipe.py:91-102 | the radio header is 15 big-endian bytes: 0, 0, u16 16, u32 frequency, bandwidth // 125, sf, rssi three times, snr, 0x34 |
| Pcap.RadioHeaderContents | serial-pipe.py:91-102 | the radio header's codes and values in order; its size field says 16 while the block takes 15 bytes |
| Pcap.PacketPasses | serial-pipe.py:76-105 | `write_packet` returns exactly when the text is non-empty, decodes as hex, and both headers fit |
| Pcap.RecordLayout | serial-pipe.py:85-104 | a record that returns is the record header, the radio header and then the decoded payload unchanged, 31 bytes plus the payload |
| Pcap.PacketFailures | serial-pipe.py:80-91 | empty text raises IndexError and non-hex text raises ValueError, both before any write; an unfit record header raises before any write; an unfit radio header raises after the 16-byte record header was written |
| Pcap.SpacedHexPayload | serial-pipe.py:76-82 | for two-digit hex tokens of either case joined by single spaces, the payload is the bytes they spell and the length field is 15 plus the payload length; for upper-case text, re-hexing the payload gives the text back |
| Pcap.ContiguousHexPayload | serial-pipe-ino.py:72-78 | contiguous hex decodes to its bytes but counts as one token, so the length field is 16 and differs from 15 plus the payload length once there are two bytes |
| Struct.PackRoundTrip | serial-pipe.py:85-90 | packing values that fit gives `calcsize` bytes that unpack to the same values |
| Struct.PackFails | serial-pipe.py:91-102 | `struct.pack` raises exactly when some value lies outside the range of its code |
| Struct.FieldRoundTrip | serial-pipe.py:91-102 | one field packed in either byte order unpacks to its value, signed `i` included |
| Struct.EncodeSize | serial-pipe.py:64-72 | a packed structure takes `calcsize` bytes, with no padding |
| Struct.LittleEndianBack | serial-pipe.py:85 | little-endian bytes of a number that fits read back as that number |
| Struct.BigEndianBack | serial-pipe.py:91 | big-endian bytes of a number that fits read back as that number |
| PyStr.Find | serial-pipe.py:120 | `find` gives the first index where the text occurs, or -1 when it does not occur |
| PyStr.FindIsFirst | serial-pipe.py:120 | an occurrence with none before it is what `find` returns |
| PyStr.FindChar | serial-pipe.py:161 | `find` of a character absent from a prefix stops just after that prefix |
| PyStr.FindCharAbsent | serial-pipe.py:161 | `find` of an absent character is -1 |
| PyStr.FindAfterFence | serial-pipe.py:124 | `find` skips a prefix that does not contain the text |
| PyStr.ContainsFind | serial-pipe.py:159 | `in` holds exactly when `find` is not -1 |
| PyStr.SliceIndex | serial-pipe.py:121-122 | a slice bound is counted from the end when negative and clamped to the length |
| PyStr.SliceInRange | serial-pipe.py:122 | a slice with in-range bounds is the plain subsequence |
| PyStr.StripSpec | serial-pipe.py:162 | `strip` leaves no whitespace at either end and keeps every other character |
| PyStr.StripUnchanged | serial-pipe.py:163 | text with no whitespace at either end is its own `strip` |
| PyStr.StripFrom | serial-pipe-ino.py:115 | `strip` adds no character |
| PyStr.Filter | serial-pipe.py:162 | `re.sub` of a negated class keeps only allowed characters and never lengthens the text |
| PyStr.FilterConcat | serial-pipe.py:162 | filtering text in two pieces is filtering the whole |
| PyStr.FilterKeepsAll | serial-pipe.py:162 | text made only of allowed characters is unchanged |
| PyStr.FilterDropsAll | serial-pipe-ino.py:119 | text without an allowed character filters to nothing |
| PyStr.FilterFrom | serial-pipe.py:162 | filtering adds no character |
| PyStr.Split | serial-pipe.py:76 | `split` always gives at least one part |
| PyStr.SplitCount | serial-pipe.py:76 | `split` gives one part more than there are separators |
| PyStr.SplitLast | serial-pipe.py:77 | the last part is empty exactly when the text is empty or ends in the separator |
| PyStr.SplitJoin | serial-pipe.py:76 | joining the parts with the separator gives the text back, and no part holds a separator |
| PyStr.SplitFirst | serial-pipe-ino.py:120 | the first part is everything before the first separator |
| PyStr.ReplaceAbsent | serial-pipe.py:81 | replacing an absent character changes nothing |
| PyStr.ReplaceDeleteFrom | serial-pipe.py:163 | deleting a pattern adds no character |
| PyStr.ReplaceDropsTail | serial-pipe.py:163 | text without an `r` followed by `rn` loses exactly that `rn` |
| PyStr.DigitRuns | serial-pipe.py:125 | `re.findall(r'\d+')` gives non-empty runs of digits |
| PyStr.DigitRunsSkip | serial-pipe.py:125 | characters that are not digits start no run |
| PyStr.DigitRunsRun | serial-pipe.py:125 | a maximal run of digits is the next match |
| PyStr.DigitRunsAreTheDigits | serial-pipe.py:125 | the runs put together are all the digits of the text |
| PyStr.ParseInt | serial-pipe.py:132 | `int()` fails only with ValueError |
| PyStr.ParseIntDigits | serial-pipe.py:127-128 | `int()` of digits is their decimal value, and of no digits raises ValueError |
| PyStr.ParseIntNegative | serial-pipe.py:132 | `int()` keeps a leading minus sign |
| PyStr.ParseIntRejectsPoint | serial-pipe.py:132 | `int()` of text with a decimal point raises ValueError |
| PyStr.DigitsAreAGroup | serial-pipe.py:132 | a run of digits is a valid `int()` literal worth its decimal value |
| PyStr.Millionths | serial-pipe.py:122 | six fraction digits, truncated, give a value below one million |
| PyStr.ParseMicros | serial-pipe.py:122 | `int(float(x) * 1000000)` fails only with ValueError |
| PyStr.ParseMicrosDecimal | serial-pipe.py:122 | for `w.f` it is w times one million plus the first six digits of f, truncated |
| PyStr.UnsignedMicrosDecimal | serial-pipe.py:122 | the unsigned reading of `w.f` has the same value |
| PyStr.UnsignedParseMicros | serial-pipe.py:122 | text that starts with a digit and ends with a digit or a point is read unsigned |
| PyStr.FromHex | serial-pipe.py:82 | `bytes.fromhex` fails only with ValueError |
| PyStr.FromHexContiguous | serial-pipe.py:82 | `bytes.fromhex` of contiguous hex gives the bytes back |
| PyStr.ContiguousHexLength | serial-pipe-ino.py:72 | contiguous hex is two characters per byte and holds no space |
| PyStr.SpacedHexWithoutSpaces | serial-pipe.py:81 | removing the spaces from `AA BB CC` gives `AABBCC` |
| PyStr.SpacedHexIsText | serial-pipe.py:81-82 | the spaced hex of some bytes is well-formed spaced hex text |
| PyStr.SpacedHexTextBack | serial-pipe.py:81-82 | well-formed spaced hex text is the spaced hex of its bytes |
| PyStr.HexPairsDecode | serial-pipe.py:81-82 | removing the spaces from `aa BB cc` text, in either case, and decoding gives the bytes the tokens spell |
| PyStr.HexPairsSpaces | serial-pipe.py:76-77 | such text of n tokens holds n - 1 spaces and does not end in one |
| PyStr.SpacedHexRoundTrip | serial-pipe.py:81-82 | decoding spaced hex text gives its bytes, and re-hexing those gives the text |
| PyStr.SpacedHexSpaces | serial-pipe.py:76 | spaced hex of n bytes holds n - 1 spaces and does not end in one |
| Session.Step | serial-pipe.py:173-174 | the run goes on after a request exactly when one record was written whole |
| Session.Execute | serial-pipe.py:157-174 | a run writes at most one record per request, and ends without failing exactly when every request wrote one |
| Session.Serve | serial-pipe.py:173-174 | the stream gains exactly one request's bytes, and the run stops as `Step` says |
| Session.ExecuteCons | serial-pipe.py:157-174 | the first request is served first, and the rest follow at the next clock reading only if it got through |
| Session.ExecuteAppend | serial-pipe.py:157-174 | a run over two stretches is the first stretch followed by the second, unless the first stretch failed |
| Session.ExecuteAllPass | serial-pipe-ino.py:154-164 | a run ends without failing exactly when every request's `PacketData` is built and written |
| Session.StepPasses | serial-pipe.py:173-174 | a request gets through exactly when `wrap_raw_data` and `write_packet` both return |
| GatewayPipe.ExtractParams | serial-pipe.py:118-138 | sf, bandwidth and rssi are never negative, and the only exceptions are IndexError and ValueError |
| GatewayPipe.WrapRawData | serial-pipe.py:140-142 | the parameters land in `PacketData` field order with the remembered hex as data, and a failure passes through |
| GatewayPipe.NextChan | serial-pipe.py:168-169 | the scan stops at a `[{"chan"` line at or after its start, or at the end |
| GatewayPipe.NextChanIsFirst | serial-pipe.py:168-169 | no line the scan passes over holds `[{"chan"`, so it stops at the first such line |
| GatewayPipe.ScanForRxpk | serial-pipe.py:168-169 | the inner loop keeps the current line when it already holds `[{"chan"`, and else stops just past the next line that does |
| GatewayPipe.Run | serial-pipe.py:153-174 | the stream gains the global header and then exactly the records the requests produce, and the run ends as they say |
| GatewayPipe.Loop | serial-pipe.py:157-174 | the `while True` loop writes exactly the records of the requests over the lines and stops as they say |
| GatewayPipe.Iterate | serial-pipe.py:158-174 | one pass of the outer loop either ends the run as the remaining requests say, or moves on having written exactly its records |
| GatewayPipe.PendingRunsDry | serial-pipe.py:159-160 | a CRC line with no line after it ends the requests |
| GatewayPipe.PendingResumes | serial-pipe.py:158-163 | one pass reads the current line, and after a CRC line the data line that sets `hexData` |
| GatewayPipe.ResumeServes | serial-pipe.py:165-174 | with hex text remembered, the next request pairs it with the current `[{"chan"` line or the next such line |
| GatewayPipe.ResumeRunsDry | serial-pipe.py:168-169 | with no `[{"chan"` line left the requests end |
| GatewayPipe.ValueTextOf | serial-pipe.py:120-121 | the text of a four-letter key runs from six past the key up to the next comma |
| GatewayPipe.FreqField | serial-pipe.py:120-122 | a `"freq":w.f,` field gives w times one million plus the first six digits of f |
| GatewayPipe.SnrField | serial-pipe.py:130-132 | an `"lsnr":v,` field gives v with its sign, and raises ValueError when v has a decimal point |
| GatewayPipe.SnrText | serial-pipe.py:132 | `int()` of the SNR text keeps its sign and rejects a fraction |
| GatewayPipe.DatrWindowOf | serial-pipe.py:124-125 | the window is the nine characters after `"datr":"` |
| GatewayPipe.SfBwRuns | serial-pipe.py:125-128 | `SF<sf>BW<bw>` gives sf as the first run and bw as the second |
| GatewayPipe.RssiWindowOf | serial-pipe.py:134-135 | the window runs from `rssi` up to the next comma |
| GatewayPipe.RssiDropsSign | serial-pipe.py:136 | the first digit run ignores a minus sign, so a negative RSSI reads as its magnitude |
| GatewayPipe.ReprEndFiltered | serial-pipe.py:162-163 | the filter turns the escaped `\r\n'` at the end of a line into `rn` |
| GatewayPipe.DataLineHex | serial-pipe.py:160-163 | a data line whose text three past the `)` is spaced hex, in either case, yields exactly that hex text |
| GatewayPipe.StickyHex | serial-pipe.py:165-174 | with no CRC line ahead, every `[{"chan"` line makes one request with the same hex text |
| GatewayPipe.NoHexNoRequests | serial-pipe.py:165-166 | with no hex text and no CRC line ahead nothing is sent |
| GatewayPipe.NoCrcNoPackets | serial-pipe.py:154-166 | a run without a CRC line writes no record |
| GatewayPipe.CrcClears | serial-pipe.py:159-166 | a CRC line whose data line yields nothing clears `hexData` |
| GatewayPipe.CrcThenChans | serial-pipe.py:159-174 | after a CRC line with hex text, each following `[{"chan"` line makes one request with it |
| GatewayPipe.PendingServed | serial-pipe.py:165-173 | every request has hex text and a `[{"chan"` line |
| GatewayPipe.ResumeServed | serial-pipe.py:165-173 | the same holds from the middle of a pass |
| GatewayPipe.OnePacket | serial-pipe.py:157-174 | a CRC line, its data line and a `[{"chan"` line make exactly one request |
| GatewayPipe.CrcSkippedWhileScanning | serial-pipe.py:168-169 | a CRC line met during the inner scan is passed over, and the earlier hex text is sent |
| ArduinoPipe.LineEnd | serial-pipe-ino.py:115 | `.` matches up to the first line break |
| ArduinoPipe.LastQuote | serial-pipe-ino.py:115 | the greedy `.*` ends at the last quote before the line break |
| ArduinoPipe.QuoteSearch | serial-pipe-ino.py:115 | a missing quote pair raises AttributeError and nothing else |
| ArduinoPipe.QuoteSearchSkip | serial-pipe-ino.py:115 | characters before the first quote do not change the match |
| ArduinoPipe.QuotedPayload | serial-pipe-ino.py:115 | the group is the text between the first quote and the last quote of its line |
| ArduinoPipe.NoQuotePair | serial-pipe-ino.py:115 | without two quotes the search raises AttributeError |
| ArduinoPipe.DigitsInt | serial-pipe-ino.py:121 | `int()` of the digits fails only with ValueError |
| ArduinoPipe.DigitsIntValue | serial-pipe-ino.py:121-123 | it is the number all the digits spell, and raises ValueError when there are none |
| ArduinoPipe.NoDigits | serial-pipe-ino.py:121-123 | a line without digits raises ValueError |
| ArduinoPipe.RssiValue | serial-pipe-ino.py:116-119 | the RSSI fails only with ValueError |
| ArduinoPipe.RssiSign | serial-pipe-ino.py:116-119 | the RSSI is negative exactly when the line holds a `-` and nonzero digits, its magnitude is all the digits, and no digits raises |
| ArduinoPipe.SnrValue | serial-pipe-ino.py:120 | the SNR is never negative and fails only with ValueError |
| ArduinoPipe.SnrDigits | serial-pipe-ino.py:120 | the SNR is read from the digits before the first `.` only |
| ArduinoPipe.ExtractParams | serial-pipe-ino.py:114-130 | snr, bw, freq and sf are never negative, the RSSI is the one `RssiValue` reads, and the only exceptions are AttributeError and ValueError |
| ArduinoPipe.WrapRawData | serial-pipe-ino.py:132-139 | the six values land in `PacketData` field order, and a failure passes through |
| ArduinoPipe.NegativeRssiLeavesHeader | serial-pipe-ino.py:81-98 | a negative RSSI fails the radio pack after the 16-byte record header was written |
| ArduinoPipe.NegativeReading | serial-pipe-ino.py:116-119 | a reading with a negative RSSI line leaves a bare 16-byte record header and ends the run with struct.error |
| ArduinoPipe.Run | serial-pipe-ino.py:150-164 | the stream gains the global header, then exactly the records the readings produce, and the run ends as they say |
| ArduinoPipe.Loop | serial-pipe-ino.py:154-164 | the `while True` loop writes exactly the records of the readings and stops as they say |
| ArduinoPipe.ReadingsTakeSix | serial-pipe-ino.py:156-162 | a marker line and the five lines after it make one reading, those five unexamined |
| ArduinoPipe.ReadingsSkip | serial-pipe-ino.py:155-156 | lines without the marker are dropped |
| ArduinoPipe.ReadingsMarked | serial-pipe-ino.py:154-164 | every reading starts at a marker line and uses six lines of its own |
| ArduinoPipe.OneReading | serial-pipe-ino.py:154-164 | a marker and five lines give exactly one `write_packet` call, at the first clock reading |

## Left out

- Opening the pipe, `os.mkfifo`, `os.system` (removing the pipe, starting Wireshark) and
  `serial.Serial` are not modelled. They are I/O and process management.
- `Formatter.fileno` and `Formatter.close` are not modelled. They hand calls on to the stream.
- The `print` diagnostics are not modelled, except the one at serial-pipe.py:80. That one reads
  `data[-1]`, so it raises IndexError on empty text.
- The wall clock is a parameter. `clock(k)` is the time of the k-th `write_packet` call, with
  microseconds in 0..999999.
- Running out of input is modelled as the end of the run, with the stop `Session.Waiting`. The
  scripts block in `readline` forever instead.
- Lines are taken as given text. The `str()` of the bytes `readline` returns, with its `b'...'`
  quoting and escapes, is assumed to have been applied already.
- Native byte order (`=`) is fixed as little-endian.
- `flush` is modelled as a count of the bytes flushed.
- Both pipes write the same `PacketData` bytes because they share one `Pcap` model. The
  `PcapFormatter` text appears twice in the source but is modelled once.
- PyStr.IsSpace, PyStr.IsDigit: `int()`, `strip` and `\d` are modelled for ASCII digits and the
  whitespace of `str.isspace`. Unicode digits of other scripts are not recognised.
- PyStr.ParseInt: `int()` of text is modelled without a length limit. CPython 3.11 and later, and
  the 3.7 to 3.10 security releases, raise ValueError for more than 4300 digits. So
  PyStr.ParseIntDigits and ArduinoPipe.DigitsIntValue give a value where those versions raise.
- PyStr.ParseMicros: `float()` is modelled as exact decimal arithmetic on `[sign]digits[.digits]`.
  The exponent form, `inf`, `nan` and IEEE rounding are not modelled. A whole part of a few
  hundred digits makes `float(x) * 1000000` infinite, and `int()` of that raises OverflowError.
  The model gives the exact value instead. So GatewayPipe.ExtractParams leaves out OverflowError
  as a third exception. Beyond the sixth fraction digit the value is truncated, where binary
  floating point may round.
- GatewayPipe.FreqField, GatewayPipe.SfBwRuns: the literal examples (`902.300000` gives
  902300000, `SF7BW125` gives 7 and 125) are covered only as instances of these general lemmas.
