/** `serial-pipe-ino.py`: the capture bridge for an Arduino receiver that prints each frame as a
    `Received packet` line carrying the payload between single quotes, followed by five lines
    with the RSSI, the SNR, the bandwidth, the frequency and the spreading factor. Each of those
    five is read by position and reduced to its decimal digits. As in the gateway bridge every
    line is the `str()` of what `readline` returned. */
module ArduinoPipe {
  import opened Results
  import opened PyStr
  import opened Pcap
  import opened Session

  // ---------------------------------------------------------------- re.search("'(.*)'", s)

  /** The first line break at or after `from`, or `|s|`: where `.` stops matching. */
  function LineEnd(s: string, from: nat): (e: nat)
    requires from <= |s|
    ensures from <= e <= |s|
    ensures e < |s| ==> s[e] == '\n'
    ensures forall k :: from <= k < e ==> s[k] != '\n'
    decreases |s| - from
  {
    if from == |s| || s[from] == '\n' then from else LineEnd(s, from + 1)
  }

  /** The last quote in `s[lo..hi]`, or -1 when there is none. */
  function LastQuote(s: string, lo: nat, hi: nat): (r: int)
    requires lo <= hi <= |s|
    ensures r == -1 || (lo <= r < hi && s[r] == '\'')
    ensures forall k :: r < k < hi && lo <= k ==> s[k] != '\''
    decreases hi - lo
  {
    if hi == lo then -1 else if s[hi - 1] == '\'' then hi - 1 else LastQuote(s, lo, hi - 1)
  }

  /** `re.search("'(.*)'", s[i:]).group(1)`: the leftmost quote that has a later quote on the
      same line opens the match, and the greedy `.*` runs to the last such quote. With no match
      `re.search` returns `None`, and asking it for a group raises `AttributeError`. */
  function QuoteSearch(s: string, i: nat): (r: Result<string>)
    ensures r.Failure? ==> r.error == AttributeError
    decreases |s| - i
  {
    if i >= |s| then Failure(AttributeError)
    else if s[i] == '\'' && LastQuote(s, i + 1, LineEnd(s, i + 1)) >= 0 then
      Success(s[i + 1..LastQuote(s, i + 1, LineEnd(s, i + 1))])
    else QuoteSearch(s, i + 1)
  }

  /** `int(re.sub(r'[^0-9]', '', s))`: the number all the digits of `s` spell together. */
  function DigitsInt(s: string): (r: Result<int>)
    ensures r.Failure? ==> r.error == ValueError
  {
    ParseInt(KeepDigits(s))
  }

  // ---------------------------------------------------------------- extract_params

  /** What `extract_params` returns: `(hexData, rssi, snr, bw, freq, sf)`. */
  datatype Params = Params(hexData: string, rssi: int, snr: int, bw: int, freq: int, sf: int)

  /** `extract_params`, in the script's order: the quoted payload of the marker line, stripped;
      the RSSI digits, negated when the line holds a `-` anywhere; the digits of the SNR line up
      to its first `.`; then the digits of the bandwidth, frequency and spreading-factor lines.
      The first failure is the one raised. */
  function ExtractParams(hexLine: string, rssiLine: string, snrLine: string, bwLine: string,
                         fLine: string, sfLine: string): (r: Result<Params>)
    ensures r.Failure? ==> r.error == AttributeError || r.error == ValueError
    ensures r.Success? ==> r.value.snr >= 0 && r.value.bw >= 0 && r.value.freq >= 0 && r.value.sf >= 0
    ensures r.Success? ==> RssiValue(rssiLine).Success? && r.value.rssi == RssiValue(rssiLine).value
  {
    var quoted :- QuoteSearch(hexLine, 0);
    var rssi :- RssiValue(rssiLine);
    var snr :- SnrValue(snrLine);
    var bw :- DigitsInt(bwLine);
    var freq :- DigitsInt(fLine);
    var sf :- DigitsInt(sfLine);
    DigitsIntValue(bwLine);
    DigitsIntValue(fLine);
    DigitsIntValue(sfLine);
    Success(Params(Strip(quoted), rssi, snr, bw, freq, sf))
  }

  /** `neg * int(re.sub(r'[^0-9]', '', rssiLine))`, `neg` being -1 when the line holds a `-`. */
  function RssiValue(rssiLine: string): (r: Result<int>)
    ensures r.Failure? ==> r.error == ValueError
  {
    var neg := if '-' in rssiLine then -1 else 1;
    var magnitude :- DigitsInt(rssiLine);
    Success(neg * magnitude)
  }

  /** `int(re.sub(r'[^0-9]', '', snrLine.split('.')[0]))` */
  function SnrValue(snrLine: string): (r: Result<int>)
    ensures r.Failure? ==> r.error == ValueError
    ensures r.Success? ==> r.value >= 0
  {
    DigitsIntValue(Split(snrLine, '.')[0]);
    DigitsInt(Split(snrLine, '.')[0])
  }

  /** The six lines the loop hands to `wrap_raw_data`: the marker line and the five after it. */
  datatype Reading = Reading(hexLine: string, rssiLine: string, snrLine: string, bwLine: string,
                             fLine: string, sfLine: string)

  /** `wrap_raw_data`: the parameters placed in `PacketData` field order. */
  function WrapRawData(r: Reading): (p: Result<PacketData>)
    ensures p.Success? <==>
      ExtractParams(r.hexLine, r.rssiLine, r.snrLine, r.bwLine, r.fLine, r.sfLine).Success?
    ensures p.Success? ==>
      var e := ExtractParams(r.hexLine, r.rssiLine, r.snrLine, r.bwLine, r.fLine, r.sfLine).value;
      p.value.frequency == e.freq && p.value.rssi == e.rssi && p.value.snr == e.snr &&
      p.value.bandwidth == e.bw && p.value.data == e.hexData && p.value.sf == e.sf
    ensures p.Failure? ==>
      p == Failure(ExtractParams(r.hexLine, r.rssiLine, r.snrLine, r.bwLine, r.fLine, r.sfLine).error)
  {
    var e :- ExtractParams(r.hexLine, r.rssiLine, r.snrLine, r.bwLine, r.fLine, r.sfLine);
    Success(PacketData(e.freq, e.rssi, e.snr, e.bw, e.hexData, e.sf))
  }

  // ---------------------------------------------------------------- the main loop

  const Marker := "Received packet"

  /** The readings the loop takes from `lines[pos..]`: a marker line and the five lines after
      it, whatever they hold, make one reading; any other line is passed over. A marker with
      fewer than five lines after it leaves `readline` waiting, and no more is written. */
  function Readings(lines: seq<string>, pos: nat): seq<Reading>
    requires pos <= |lines|
    decreases |lines| - pos
  {
    if pos == |lines| then []
    else if Contains(lines[pos], Marker) then
      if pos + 6 <= |lines| then [ReadingAt(lines, pos)] + Readings(lines, pos + 6) else []
    else Readings(lines, pos + 1)
  }

  function ReadingAt(lines: seq<string>, pos: nat): Reading
    requires pos + 6 <= |lines|
  {
    Reading(lines[pos], lines[pos + 1], lines[pos + 2], lines[pos + 3], lines[pos + 4], lines[pos + 5])
  }

  /** What a run over `lines` appends after the global header, the `k`-th packet stamped
      `clock(k)`. */
  function Expected(lines: seq<string>, clock: nat -> Timestamp): Transcript {
    Execute(Readings(lines, 0), WrapRawData, PacketEmission, clock, 0)
  }

  /** `main` after the stream is opened: the global header, then the line loop. */
  method Run(lines: seq<string>, out: OutStream, clock: nat -> Timestamp) returns (stop: Stop)
    requires out.Valid()
    modifies out
    ensures out.Valid()
    ensures out.written == old(out.written) + GlobalHeader() + Expected(lines, clock).written
    ensures stop == Expected(lines, clock).stop
  {
    var formatter := new PcapFormatter(out);
    formatter.WriteHeader();
    stop := Loop(formatter, lines, clock);
  }

  /** The `while True` loop of `main`, with `readline` walking `lines`. */
  method Loop(formatter: PcapFormatter, lines: seq<string>, clock: nat -> Timestamp)
    returns (stop: Stop)
    requires formatter.out.Valid()
    modifies formatter.out
    ensures formatter.out.Valid()
    ensures formatter.out.written == old(formatter.out.written) + Expected(lines, clock).written
    ensures stop == Expected(lines, clock).stop
  {
    ghost var start := formatter.out.written;
    ghost var w: seq<byte> := [];
    var pos := 0;
    var count := 0;
    while pos < |lines|
      invariant pos <= |lines|
      invariant formatter.out.Valid()
      invariant formatter.out.written == start + w
      invariant Expected(lines, clock) ==
        After(w, count, Execute(Readings(lines, pos), WrapRawData, PacketEmission, clock, count))
      decreases |lines| - pos
    {
      var currLine := lines[pos];
      if !Contains(currLine, Marker) {
        pos := pos + 1;
        continue;
      }
      if pos + 6 > |lines| {
        return Waiting;
      }
      var reading := Reading(currLine, lines[pos + 1], lines[pos + 2], lines[pos + 3],
                             lines[pos + 4], lines[pos + 5]);
      ghost var rest := Readings(lines, pos + 6);
      ReadingsTakeSix(lines, pos);
      ExecuteCons(reading, rest, WrapRawData, PacketEmission, clock, count);
      ghost var s := Step(reading, WrapRawData, PacketEmission, clock(count));
      stop := Serve(formatter, reading, WrapRawData, clock(count));
      AppendAssoc(start, w, s.written);
      if stop != Waiting {
        return;
      }
      AfterAfter(w, count, s.written, 1, Execute(rest, WrapRawData, PacketEmission, clock, count + 1));
      w := w + s.written;
      count := count + 1;
      pos := pos + 6;
    }
    return Waiting;
  }

  // ---------------------------------------------------------------- lemmas: the quoted payload

  lemma {:induction false} QuoteSearchSkip(s: string, i: nat, j: nat)
    requires i <= j <= |s|
    requires forall k :: i <= k < j ==> s[k] != '\''
    ensures QuoteSearch(s, i) == QuoteSearch(s, j)
    decreases j - i
  {
    if i < j {
      QuoteSearchSkip(s, i + 1, j);
    }
  }

  lemma {:induction false} QuotedLine(a: string, m: string, b: string)
    ensures var s := a + "'" + m + "'" + b;
      |s| == |a| + |m| + 2 + |b| && s[|a|] == '\'' && s[|a| + 1 + |m|] == '\'' &&
      s[|a| + 1..|a| + 1 + |m|] == m &&
      (forall k :: 0 <= k < |a| ==> s[k] == a[k]) &&
      (forall k :: |a| + 1 <= k < |a| + 1 + |m| ==> s[k] == m[k - |a| - 1]) &&
      (forall k :: |a| + 2 + |m| <= k < |s| ==> s[k] == b[k - |a| - 2 - |m|])
  {
  }

  /** The payload is the text between the first quote and the last quote of its line. */
  lemma {:induction false} QuotedPayload(a: string, m: string, b: string)
    requires '\'' !in a && '\'' !in b && '\n' !in m
    ensures QuoteSearch(a + "'" + m + "'" + b, 0) == Success(m)
  {
    var s := a + "'" + m + "'" + b;
    var i := |a|;
    var close := |a| + 1 + |m|;
    QuotedLine(a, m, b);
    QuoteSearchSkip(s, 0, i);
    var e := LineEnd(s, i + 1);
    assert e > close;
    var q := LastQuote(s, i + 1, e);
    assert q == close;
  }

  /** Without two quotes there is nothing to match, and asking for the group raises. */
  lemma {:induction false} NoQuotePair(s: string, i: nat)
    requires i <= |s|
    requires forall x, y :: i <= x < y < |s| && s[x] == '\'' ==> s[y] != '\''
    ensures QuoteSearch(s, i) == Failure(AttributeError)
    decreases |s| - i
  {
    if i < |s| {
      NoQuotePair(s, i + 1);
    }
  }

  // ---------------------------------------------------------------- lemmas: the number lines

  /** `int()` of the digits of a line: their decimal value, or `ValueError` when there are none. */
  lemma DigitsIntValue(s: string)
    ensures AllDigits(KeepDigits(s))
    ensures DigitsInt(s) ==
      if KeepDigits(s) == [] then Failure(ValueError) else Success(DigitsValue(KeepDigits(s)))
  {
    ParseIntDigits(KeepDigits(s));
  }

  /** The RSSI is negative exactly when its line holds a `-` and some digit other than zeros;
      its magnitude is the number all the line's digits spell, and without digits it raises. */
  lemma RssiSign(rssiLine: string)
    ensures KeepDigits(rssiLine) == [] <==> RssiValue(rssiLine).Failure?
    ensures RssiValue(rssiLine).Success? ==>
      var rssi := RssiValue(rssiLine).value;
      (rssi < 0 <==> ('-' in rssiLine && DigitsValue(KeepDigits(rssiLine)) > 0)) &&
      (if rssi < 0 then -rssi else rssi) == DigitsValue(KeepDigits(rssiLine))
  {
    DigitsIntValue(rssiLine);
  }

  /** The SNR is the number spelt by the digits before the first `.` of its line, so a minus
      sign and the fraction are lost. */
  lemma SnrDigits(a: string, b: string)
    requires '.' !in a
    ensures SnrValue(a + "." + b) == DigitsInt(a)
    ensures SnrValue(a) == DigitsInt(a)
  {
    SplitFirst(a, '.', b);
  }

  /** A line without digits raises `ValueError`. */
  lemma NoDigits(s: string)
    requires forall k :: 0 <= k < |s| ==> !IsDigit(s[k])
    ensures DigitsInt(s) == Failure(ValueError)
  {
    FilterDropsAll(s, IsDigit);
    ParseIntDigits([]);
  }

  /** A negative RSSI cannot be packed as an unsigned byte; that pack comes after the record
      header, so the stream keeps a 16-byte record header and nothing more for the packet. */
  lemma NegativeRssiLeavesHeader(p: PacketData, now: Timestamp)
    requires p.rssi < 0 && p.data != [] && FromHex(PayloadText(p.data)).Success?
    requires RecordHeaderFits(now, p.data)
    ensures PacketEmission(p, now).outcome == Fail(StructError)
    ensures |PacketEmission(p, now).written| == 16
  {
    PacketFailures(p, now);
  }

  /** A reading whose RSSI line holds a `-` and a digit other than zero gets as far as the
      radio header and no further: the run ends there with a bare 16-byte record header. */
  lemma NegativeReading(r: Reading, now: Timestamp)
    requires '-' in r.rssiLine && DigitsValue(KeepDigits(r.rssiLine)) > 0
    requires WrapRawData(r).Success?
    requires var p := WrapRawData(r).value;
      p.data != [] && FromHex(PayloadText(p.data)).Success? && RecordHeaderFits(now, p.data)
    ensures var s := Step(r, WrapRawData, PacketEmission, now);
      s.stop == Failed(StructError) && s.packets == 0 && |s.written| == 16
  {
    RssiSign(r.rssiLine);
    var p := WrapRawData(r).value;
    NegativeRssiLeavesHeader(p, now);
    assert Step(r, WrapRawData, PacketEmission, now) ==
      Transcript(PacketEmission(p, now).written, 0, Failed(StructError));
  }

  // ---------------------------------------------------------------- lemmas: the main loop

  /** A marker line and the five lines after it make one reading; those five are not looked at
      for a marker. */
  lemma ReadingsTakeSix(lines: seq<string>, pos: nat)
    requires pos + 6 <= |lines| && Contains(lines[pos], Marker)
    ensures Readings(lines, pos) == [ReadingAt(lines, pos)] + Readings(lines, pos + 6)
  {
  }

  /** Lines without the marker are discarded. */
  lemma {:induction false} ReadingsSkip(lines: seq<string>, pos: nat, to: nat)
    requires pos <= to <= |lines|
    requires forall k :: pos <= k < to ==> !Contains(lines[k], Marker)
    ensures Readings(lines, pos) == Readings(lines, to)
    decreases |lines| - pos
  {
    if pos < to {
      ReadingsSkip(lines, pos + 1, to);
    }
  }

  /** Every reading starts at a marker line, and each takes six lines of its own. */
  lemma {:induction false} ReadingsMarked(lines: seq<string>, pos: nat)
    requires pos <= |lines|
    ensures forall r :: r in Readings(lines, pos) ==> Contains(r.hexLine, Marker)
    ensures 6 * |Readings(lines, pos)| <= |lines| - pos
    decreases |lines| - pos
  {
    if pos < |lines| {
      if Contains(lines[pos], Marker) {
        if pos + 6 <= |lines| {
          ReadingsMarked(lines, pos + 6);
        }
      } else {
        ReadingsMarked(lines, pos + 1);
      }
    }
  }

  /** One marker and its five lines is one `write_packet` call at the first clock reading. */
  lemma OneReading(lines: seq<string>, clock: nat -> Timestamp)
    requires |lines| == 6 && Contains(lines[0], Marker)
    ensures Expected(lines, clock) == Step(ReadingAt(lines, 0), WrapRawData, PacketEmission, clock(0))
  {
    ReadingsTakeSix(lines, 0);
    assert Readings(lines, 6) == [];
    ExecuteCons(ReadingAt(lines, 0), [], WrapRawData, PacketEmission, clock, 0);
    var s := Step(ReadingAt(lines, 0), WrapRawData, PacketEmission, clock(0));
    assert s.written + [] == s.written;
  }
}
