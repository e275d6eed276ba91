/** `serial-pipe.py`: the capture bridge for a LoRa gateway whose console prints the Semtech
    packet forwarder's log. A line holding `rxPkt:: CRC` announces a received frame; the line after
    it carries the frame's bytes as hex text after a closing parenthesis. The radio parameters come
    later, in an `rxpk` JSON line (`[{"chan"...`) from which `extract_params` slices the `freq`,
    `datr`, `lsnr` and `rssi` values by index arithmetic. Every line is the `str()` of the bytes
    that `readline` returned, so it is repr text: `b'...\r\n'` with the escapes spelled out. */
module GatewayPipe {
  import opened Results
  import opened PyStr
  import opened Pcap
  import opened Session

  // ---------------------------------------------------------------- extract_params

  /** What `extract_params` returns: `(freq, sf, bandwidth, snr, rssi)`. */
  datatype Params = Params(freq: int, sf: int, bandwidth: int, snr: int, rssi: int)

  /** `s[i + 6 : i + j]`, where `i` is where `key` first occurs and `j` is where the first comma of
      `s[i:]` is: for a four-letter key, the text after `key":` up to the next comma. Both `find`s
      may return -1, which then counts from the end as Python slicing does. */
  function ValueText(s: string, key: string): string {
    var i := Find(s, key);
    var j := Find(SliceFrom(s, i), ",");
    Slice(s, i + 6, i + j)
  }

  /** `s[i + 7 : i + 16]` with `i` the index of `datr`: nine characters from just after `datr":"`. */
  function DatrWindow(s: string): string {
    var i := Find(s, "datr");
    Slice(s, i + 7, i + 16)
  }

  /** `s[i : j + i]` with `i` the index of `rssi` and `j` that of the next comma from there. */
  function RssiWindow(s: string): string {
    var i := Find(s, "rssi");
    var j := Find(SliceFrom(s, i), ",");
    Slice(s, i, j + i)
  }

  /** `extract_params`, in the order the script evaluates it: the frequency through `float`, then
      the digit runs of the `datr` window (`sf_bw[1]` first, so fewer than two runs raise
      `IndexError`), then `int` of the `lsnr` text, then the first digit run of the `rssi`
      window. `int` of a run of digits is its decimal value. */
  function ExtractParams(s: string): (r: Result<Params>)
    ensures r.Success? ==> r.value.sf >= 0 && r.value.bandwidth >= 0 && r.value.rssi >= 0
    ensures r.Failure? ==> r.error == IndexError || r.error == ValueError
  {
    var freq :- ParseMicros(ValueText(s, "freq"));
    var sfBw := DigitRuns(DatrWindow(s));
    if |sfBw| < 2 then Failure(IndexError)
    else
      var snr :- ParseInt(ValueText(s, "lsnr"));
      var rssiRuns := DigitRuns(RssiWindow(s));
      if rssiRuns == [] then Failure(IndexError)
      else
        Success(Params(freq, DigitsValue(sfBw[0]), DigitsValue(sfBw[1]), snr,
                       DigitsValue(rssiRuns[0])))
  }

  /** `wrap_raw_data`: the parameters of the JSON line and the remembered hex text, placed in
      `PacketData` field order. */
  function WrapRawData(hexData: string, rawPacketData: string): (r: Result<PacketData>)
    ensures r.Success? <==> ExtractParams(rawPacketData).Success?
    ensures r.Success? ==>
      var p := ExtractParams(rawPacketData).value;
      r.value.frequency == p.freq && r.value.rssi == p.rssi && r.value.snr == p.snr &&
      r.value.bandwidth == p.bandwidth && r.value.data == hexData && r.value.sf == p.sf
    ensures r.Failure? ==> r == Failure(ExtractParams(rawPacketData).error)
  {
    var p :- ExtractParams(rawPacketData);
    Success(PacketData(p.freq, p.rssi, p.snr, p.bandwidth, hexData, p.sf))
  }

  // ---------------------------------------------------------------- the data line

  /** The characters `re.sub('[^a-zA-Z0-9 \n\.]', '', ...)` keeps. */
  predicate InHexClass(c: char) {
    ('a' <= c <= 'z') || ('A' <= c <= 'Z') || IsDigit(c) || c == ' ' || c == '\n' || c == '.'
  }

  /** The hex text taken from the line after a CRC line: everything from three characters after
      the first `)` (from index 2 when there is none), stripped, filtered to the class above, with
      every `rn` (the remains of a `\r\n` escape) removed, stripped again. */
  function HexFromDataLine(dataLine: string): string {
    var startIdx := Find(dataLine, ")");
    var filtered := Filter(Strip(SliceFrom(dataLine, startIdx + 3)), InHexClass);
    Strip(Replace(filtered, "rn", []))
  }

  // ---------------------------------------------------------------- the main loop

  const CrcMarker := "rxPkt:: CRC"
  const ChanMarker := "[{\"chan\""

  /** One `wrap_raw_data` call the loop makes: the hex text then remembered and the JSON line. */
  datatype Request = Request(hexData: string, rawPacketData: string)

  function WrapRequest(r: Request): Result<PacketData> {
    WrapRawData(r.hexData, r.rawPacketData)
  }

  /** The first line at or after `from` that holds `[{"chan"`, or `|lines|` when none does. */
  function NextChan(lines: seq<string>, from: nat): (j: nat)
    requires from <= |lines|
    ensures from <= j <= |lines|
    ensures j < |lines| ==> Contains(lines[j], ChanMarker)
    decreases |lines| - from
  {
    if from == |lines| then |lines|
    else if Contains(lines[from], ChanMarker) then from
    else NextChan(lines, from + 1)
  }

  /** No line between `from` and `NextChan(lines, from)` holds `[{"chan"`: the scan stops at the
      first such line. */
  lemma {:induction false} NextChanIsFirst(lines: seq<string>, from: nat)
    requires from <= |lines|
    ensures forall k :: from <= k < NextChan(lines, from) ==> !Contains(lines[k], ChanMarker)
    decreases |lines| - from
  {
    if from < |lines| && !Contains(lines[from], ChanMarker) {
      NextChanIsFirst(lines, from + 1);
    }
  }

  /** The requests the loop makes from the point where it is about to read `lines[pos]` while
      remembering `hex`: one iteration of the outer `while`, then the rest. The data line a CRC
      line calls for replaces the remembered text even when it yields nothing; with nothing
      remembered the iteration ends there; otherwise the current line is used when it holds
      `[{"chan"`, and else the inner loop reads on to the next line that does, passing over
      everything in between, CRC lines included. Running out of lines ends the requests. */
  function Pending(lines: seq<string>, pos: nat, hex: string): (reqs: seq<Request>)
    requires pos <= |lines|
    decreases |lines| - pos, 0
  {
    if pos == |lines| then []
    else
      var cur := lines[pos];
      var crc := Contains(cur, CrcMarker);
      if crc && pos + 1 == |lines| then []
      else
        var next := if crc then pos + 2 else pos + 1;
        var h := if crc then HexFromDataLine(lines[pos + 1]) else hex;
        Resume(lines, next, h, cur)
  }

  /** The rest of an iteration once the line `cur` (and, after a CRC line, its data line) has
      been read, the next unread line being `lines[next]` and the remembered text `h`. */
  function Resume(lines: seq<string>, next: nat, h: string, cur: string): (reqs: seq<Request>)
    requires next <= |lines|
    decreases |lines| - next, 1
  {
    if h == [] then Pending(lines, next, h)
    else if Contains(cur, ChanMarker) then [Request(h, cur)] + Pending(lines, next, h)
    else
      var j := NextChan(lines, next);
      if j == |lines| then [] else [Request(h, lines[j])] + Pending(lines, j + 1, h)
  }

  /** Every request a run over `lines` makes, in order. */
  function Requests(lines: seq<string>): seq<Request> {
    Pending(lines, 0, [])
  }

  /** What a run over `lines` appends after the global header, the `k`-th packet stamped
      `clock(k)`. */
  function Expected(lines: seq<string>, clock: nat -> Timestamp): Transcript {
    Execute(Requests(lines), WrapRequest, PacketEmission, clock, 0)
  }

  /** The inner `while`: unless the current line already holds `[{"chan"`, read lines until one
      does. `found` is false when the lines run out first. */
  method ScanForRxpk(lines: seq<string>, pos: nat, currLine: string, hexData: string)
    returns (found: bool, newPos: nat, line: string)
    requires pos <= |lines| && hexData != []
    ensures newPos <= |lines|
    ensures found ==> Contains(line, ChanMarker)
    ensures Contains(currLine, ChanMarker) ==> found && newPos == pos && line == currLine
    ensures !Contains(currLine, ChanMarker) ==>
      (found <==> NextChan(lines, pos) < |lines|) &&
      (found ==> newPos == NextChan(lines, pos) + 1 && line == lines[newPos - 1])
  {
    newPos, line := pos, currLine;
    while !Contains(line, ChanMarker) && hexData != []
      invariant pos <= newPos <= |lines|
      invariant Contains(currLine, ChanMarker) ==> newPos == pos && line == currLine
      invariant !Contains(currLine, ChanMarker) && !Contains(line, ChanMarker) ==>
        NextChan(lines, pos) == NextChan(lines, newPos)
      invariant !Contains(currLine, ChanMarker) && Contains(line, ChanMarker) ==>
        pos < newPos && NextChan(lines, pos) == newPos - 1 && line == lines[newPos - 1]
      decreases |lines| - newPos
    {
      if newPos == |lines| {
        return false, newPos, line;
      }
      line := lines[newPos];
      newPos := newPos + 1;
    }
    found := true;
  }

  /** `main` after the stream is opened: the global header, then the line loop, with `readline`
      walking `lines`. The run ends when the lines run out or at the first exception. */
  method Run(lines: seq<string>, out: OutStream, clock: nat -> Timestamp) returns (stop: Stop)
    requires out.Valid()
    modifies out
    ensures out.Valid()
    ensures out.written == old(out.written) + GlobalHeader() + Expected(lines, clock).written
    ensures stop == Expected(lines, clock).stop
  {
    var formatter := new PcapFormatter(out);
    formatter.WriteHeader();
    stop := Loop(formatter, lines, clock);
  }

  /** What the run still appends once it is about to read `lines[pos]`, remembering `hex`,
      with `count` packets already written. */
  function Remaining(lines: seq<string>, pos: nat, hex: string, clock: nat -> Timestamp, count: nat)
    : Transcript
    requires pos <= |lines|
  {
    Execute(Pending(lines, pos, hex), WrapRequest, PacketEmission, clock, count)
  }

  /** The `while True` loop of `main`. */
  method Loop(formatter: PcapFormatter, lines: seq<string>, clock: nat -> Timestamp)
    returns (stop: Stop)
    requires formatter.out.Valid()
    modifies formatter.out
    ensures formatter.out.Valid()
    ensures formatter.out.written == old(formatter.out.written) + Expected(lines, clock).written
    ensures stop == Expected(lines, clock).stop
  {
    ghost var start := formatter.out.written;
    ghost var w: seq<byte> := [];
    var pos := 0;
    var hexData := "";
    var count := 0;
    while pos < |lines|
      invariant pos <= |lines|
      invariant formatter.out.Valid()
      invariant formatter.out.written == start + w
      invariant Expected(lines, clock) == After(w, count, Remaining(lines, pos, hexData, clock, count))
      decreases |lines| - pos
    {
      var done;
      ghost var pos0, hex0, count0 := pos, hexData, count;
      ghost var n, delta;
      done, stop, pos, hexData, count, n, delta := Iterate(formatter, lines, pos, hexData, clock, count);
      AppendAssoc(start, w, delta);
      if done {
        return;
      }
      AfterAfter(w, count0, delta, n, Remaining(lines, pos, hexData, clock, count));
      w := w + delta;
    }
    stop := Waiting;
  }

  /** One iteration of the `while True` loop: it reads a line (two after a CRC line) and, with
      hex text remembered, reads on to a `[{"chan"` line and serves one request. `done` says the
      run ended in this iteration, the lines having run out or an exception having been raised. */
  method Iterate(formatter: PcapFormatter, lines: seq<string>, pos: nat, hexData: string,
                 clock: nat -> Timestamp, count: nat)
    returns (done: bool, stop: Stop, newPos: nat, newHex: string, newCount: nat,
             ghost n: nat, ghost delta: seq<byte>)
    requires pos < |lines| && formatter.out.Valid()
    modifies formatter.out
    ensures formatter.out.Valid()
    ensures formatter.out.written == old(formatter.out.written) + delta
    ensures done ==> var t := Remaining(lines, pos, hexData, clock, count);
      delta == t.written && stop == t.stop
    ensures !done ==> (pos < newPos <= |lines| && newCount == count + n &&
      Remaining(lines, pos, hexData, clock, count) ==
        After(delta, n, Remaining(lines, newPos, newHex, clock, newCount)))
  {
    n, delta := 0, [];
    newPos, newHex, newCount := pos, hexData, count;
    var currLine := lines[newPos];
    newPos := newPos + 1;
    if Contains(currLine, CrcMarker) {
      if newPos == |lines| {
        PendingRunsDry(lines, pos, hexData);
        return true, Waiting, newPos, newHex, newCount, n, delta;
      }
      var dataLine := lines[newPos];
      newPos := newPos + 1;
      newHex := HexFromDataLine(dataLine);
    }
    PendingResumes(lines, pos, hexData, newPos, newHex);
    if newHex == [] {
      return false, Waiting, newPos, newHex, newCount, n, delta;
    }
    ghost var next := newPos;
    var found;
    found, newPos, currLine := ScanForRxpk(lines, newPos, currLine, newHex);
    if !found {
      ResumeRunsDry(lines, next, newHex, lines[pos]);
      return true, Waiting, newPos, newHex, newCount, n, delta;
    }
    ResumeServes(lines, next, newHex, lines[pos], newPos, currLine);
    ghost var rest := Pending(lines, newPos, newHex);
    ExecuteCons(Request(newHex, currLine), rest, WrapRequest, PacketEmission, clock, count);
    ghost var s := Step(Request(newHex, currLine), WrapRequest, PacketEmission, clock(count));
    stop := Serve(formatter, Request(newHex, currLine), WrapRequest, clock(count));
    delta := s.written;
    if stop != Waiting {
      return true, stop, newPos, newHex, newCount, n, delta;
    }
    n := 1;
    newCount := count + 1;
    done := false;
  }

  /** A CRC line with no line after it: the `readline` for the data line finds nothing more. */
  lemma PendingRunsDry(lines: seq<string>, pos: nat, hex: string)
    requires pos + 1 == |lines| && Contains(lines[pos], CrcMarker)
    ensures Pending(lines, pos, hex) == []
  {
  }

  /** What the first iteration of the outer loop reads: a CRC line and its data line, which
      replaces the remembered hex text, or one other line. */
  predicate Advances(lines: seq<string>, pos: nat, hex: string, next: nat, h: string) {
    pos < |lines| &&
    if Contains(lines[pos], CrcMarker) then
      pos + 1 < |lines| && next == pos + 2 && h == HexFromDataLine(lines[pos + 1])
    else next == pos + 1 && h == hex
  }

  /** One iteration reads its line or lines, then goes on as `Resume` says. */
  lemma PendingResumes(lines: seq<string>, pos: nat, hex: string, next: nat, h: string)
    requires Advances(lines, pos, hex, next, h)
    ensures next <= |lines|
    ensures Pending(lines, pos, hex) == Resume(lines, next, h, lines[pos])
  {
  }

  /** With hex text remembered, a request is made from the current line when it holds
      `[{"chan"`, and else from the next line that does. */
  lemma ResumeServes(lines: seq<string>, next: nat, h: string, cur: string, pos: nat, line: string)
    requires next <= |lines| && h != []
    requires Contains(cur, ChanMarker) ==> pos == next && line == cur
    requires !Contains(cur, ChanMarker) ==>
      NextChan(lines, next) < |lines| && pos == NextChan(lines, next) + 1 && line == lines[pos - 1]
    ensures pos <= |lines|
    ensures Resume(lines, next, h, cur) == [Request(h, line)] + Pending(lines, pos, h)
  {
    if Contains(cur, ChanMarker) {
      ResumeHere(lines, next, h, cur);
    } else {
      ResumeScans(lines, next, h, cur, NextChan(lines, next));
    }
  }

  lemma ResumeHere(lines: seq<string>, next: nat, h: string, cur: string)
    requires next <= |lines| && h != [] && Contains(cur, ChanMarker)
    ensures Resume(lines, next, h, cur) == [Request(h, cur)] + Pending(lines, next, h)
  {
  }

  lemma ResumeScans(lines: seq<string>, next: nat, h: string, cur: string, j: nat)
    requires next <= |lines| && h != [] && !Contains(cur, ChanMarker)
    requires j == NextChan(lines, next) && j < |lines|
    ensures Resume(lines, next, h, cur) == [Request(h, lines[j])] + Pending(lines, j + 1, h)
  {
  }

  /** No `[{"chan"` line before the lines run out: no more requests. */
  lemma ResumeRunsDry(lines: seq<string>, next: nat, h: string, cur: string)
    requires next <= |lines| && h != [] && !Contains(cur, ChanMarker)
    requires NextChan(lines, next) == |lines|
    ensures Resume(lines, next, h, cur) == []
  {
  }

  // ---------------------------------------------------------------- lemmas: extract_params

  /** How the JSON line spells a key before its value: `"key":`. */
  function KeyPrefix(key: string): string {
    "\"" + key + "\":"
  }

  lemma {:induction false} KeyPrefixTail(key: string, v: string, b: string)
    requires |key| == 4 && ',' !in key
    ensures var tail := key + "\":" + v + "," + b;
      tail[..4] == key && tail[6..6 + |v|] == v && tail[..6 + |v|] == key + "\":" + v &&
      (',' !in v ==> Find(tail, ",") == 6 + |v|)
  {
    var front := key + "\":" + v;
    assert key + "\":" + v + "," + b == front + [','] + b;
    if ',' !in v {
      assert ',' !in front by {
        assert forall k :: 0 <= k < |front| ==>
          front[k] == (if k < 4 then key[k] else if k < 6 then "\":"[k - 4] else v[k - 6]);
      }
      FindChar(front, ',', b);
    }
  }

  lemma {:induction false} KeyedLine(a: string, key: string, v: string, b: string)
    ensures a + KeyPrefix(key) + v + "," + b == a + ['"'] + (key + "\":" + v + "," + b)
  {
  }

  /** In a line `a + "key": + v + , + b` whose prefix `a` does not mention the four-letter key,
      `ValueText` is exactly the value text `v`. */
  lemma {:induction false} ValueTextOf(a: string, key: string, v: string, b: string)
    requires |key| == 4 && '"' !in key && ',' !in key && ',' !in v && !Contains(a, key)
    ensures ValueText(a + KeyPrefix(key) + v + "," + b, key) == v
  {
    var tail := key + "\":" + v + "," + b;
    var s := a + KeyPrefix(key) + v + "," + b;
    KeyedLine(a, key, v, b);
    KeyPrefixTail(key, v, b);
    FindAfterFence(a, '"', tail, key);
    assert SliceFrom(s, |a| + 1) == tail;
    assert s[|a| + 7..|a| + 7 + |v|] == tail[6..6 + |v|];
  }

  lemma DecimalHasNoComma(w: string, f: string)
    requires AllDigits(w) && AllDigits(f)
    ensures ',' !in w + "." + f
  {
    var v := w + "." + f;
    assert forall k :: 0 <= k < |v| ==>
      v[k] == (if k < |w| then w[k] else if k == |w| then '.' else f[k - |w| - 1]);
  }

  /** The frequency is the decimal text after `"freq":`, scaled to millionths and truncated. */
  lemma {:induction false} FreqField(a: string, w: string, f: string, b: string)
    requires !Contains(a, "freq") && w != [] && AllDigits(w) && AllDigits(f)
    ensures ParseMicros(ValueText(a + KeyPrefix("freq") + (w + "." + f) + "," + b, "freq")) ==
      Success(DigitsValue(w) * 1000000 + Millionths(f))
  {
    DecimalHasNoComma(w, f);
    ValueTextOf(a, "freq", w + "." + f, b);
    ParseMicrosDecimal(w, f);
  }

  /** The SNR is `int` of the text after `"lsnr":`: digits give their value, a leading minus
      sign is kept, and a decimal point raises `ValueError`. */
  lemma {:induction false} SnrField(a: string, v: string, b: string)
    requires !Contains(a, "lsnr") && ',' !in v
    ensures var snr := ParseInt(ValueText(a + KeyPrefix("lsnr") + v + "," + b, "lsnr"));
      ((v != [] && AllDigits(v)) ==> snr == Success(DigitsValue(v))) &&
      ((|v| > 1 && v[0] == '-' && AllDigits(v[1..])) ==> snr == Success(-(DigitsValue(v[1..]) as int))) &&
      ('.' in v ==> snr == Failure(ValueError))
  {
    ValueTextOf(a, "lsnr", v, b);
    SnrText(v);
  }

  lemma {:induction false} SnrText(v: string)
    ensures (v != [] && AllDigits(v)) ==> ParseInt(v) == Success(DigitsValue(v))
    ensures (|v| > 1 && v[0] == '-' && AllDigits(v[1..])) ==>
      ParseInt(v) == Success(-(DigitsValue(v[1..]) as int))
    ensures '.' in v ==> ParseInt(v) == Failure(ValueError)
  {
    if v != [] && AllDigits(v) {
      ParseIntDigits(v);
    }
    if |v| > 1 && v[0] == '-' && AllDigits(v[1..]) {
      SignedText(v);
      ParseIntNegative(v[1..]);
    }
    if '.' in v {
      ParseIntRejectsPoint(v);
    }
  }

  lemma SignedText(v: string)
    requires |v| > 0 && v[0] == '-'
    ensures v == "-" + v[1..]
  {
  }

  lemma {:induction false} DatrLine(a: string, v: string, b: string)
    ensures a + "\"datr\":\"" + v + b == a + ['"'] + ("datr\":\"" + v + b)
  {
  }

  /** The `datr` window is the nine characters after `"datr":"`. */
  lemma {:induction false} DatrWindowOf(a: string, v: string, b: string)
    requires !Contains(a, "datr") && |v| == 9
    ensures DatrWindow(a + "\"datr\":\"" + v + b) == v
  {
    var tail := "datr\":\"" + v + b;
    var s := a + "\"datr\":\"" + v + b;
    DatrLine(a, v, b);
    assert tail[..4] == "datr" && tail[7..16] == v;
    FindAfterFence(a, '"', tail, "datr");
    assert s[|a| + 8..|a| + 17] == tail[7..16];
  }

  lemma {:induction false} Regroup(p: string, x: string, q: string, y: string, u: string)
    ensures p + x + q + y + u == p + (x + (q + (y + u)))
  {
  }

  /** `SF<sf>BW<bw>` yields the spreading factor and the bandwidth as its first two digit runs. */
  lemma {:induction false} SfBwRuns(sf: string, bw: string, u: string)
    requires sf != [] && AllDigits(sf) && bw != [] && AllDigits(bw)
    requires u == [] || !IsDigit(u[0])
    ensures DigitRuns("SF" + sf + "BW" + bw + u) == [sf, bw] + DigitRuns(u)
  {
    Regroup("SF", sf, "BW", bw, u);
    DigitRunsSkip("SF", sf + ("BW" + (bw + u)));
    DigitRunsRun(sf, "BW" + (bw + u));
    DigitRunsSkip("BW", bw + u);
    DigitRunsRun(bw, u);
  }

  /** The `rssi` window runs from the key to the next comma. */
  lemma {:induction false} RssiWindowOf(a: string, v: string, b: string)
    requires !Contains(a, "rssi") && ',' !in v
    ensures RssiWindow(a + KeyPrefix("rssi") + v + "," + b) == "rssi\":" + v
  {
    var tail := "rssi" + "\":" + v + "," + b;
    var s := a + KeyPrefix("rssi") + v + "," + b;
    assert "rssi" + "\":" == "rssi\":";
    KeyedLine(a, "rssi", v, b);
    KeyPrefixTail("rssi", v, b);
    FindAfterFence(a, '"', tail, "rssi");
    assert SliceFrom(s, |a| + 1) == tail;
    SliceInRange(s, |a| + 1, |a| + 7 + |v|);
    assert s[|a| + 1..|a| + 7 + |v|] == tail[..6 + |v|];
  }

  /** Only the digits of the RSSI are read, so a negative reading such as `-43` comes out as 43. */
  lemma {:induction false} RssiDropsSign(d: string)
    requires d != [] && AllDigits(d)
    ensures DigitRuns("rssi\":-" + d) == [d]
    ensures DigitRuns("rssi\":" + d) == [d]
  {
    assert d + [] == d;
    DigitRunsSkip("rssi\":-", d);
    DigitRunsSkip("rssi\":", d);
    DigitRunsRun(d, []);
  }

  // ---------------------------------------------------------------- lemmas: the data line

  /** How the `str()` of a line read with `readline` ends: the escapes `\r\n`, then the quote. */
  const ReprEnd := "\\r\\n'"

  lemma ReprEndFiltered()
    ensures Filter(ReprEnd, InHexClass) == "rn"
  {
    assert ReprEnd == ['\\'] + ['r'] + ['\\'] + ['n'] + ['\''];
    assert ReprEnd[1..] == "r\\n'" && ReprEnd[1..][1..] == "\\n'";
    assert ReprEnd[1..][1..][1..] == "n'" && ReprEnd[1..][1..][1..][1..] == "'";
    assert "'"[1..] == [];
  }

  lemma SpacedHexTextShape(d: string)
    requires IsHexPairsText(d)
    ensures forall k :: 0 <= k < |d| ==> InHexClass(d[k])
    ensures 'r' !in d
    ensures !IsSpace(d[0]) && !IsSpace(d[|d| - 1])
  {
    assert (|d| - 1) % 3 == 1;
  }

  lemma {:induction false} DataLineParts(pre: string, gap: string, d: string)
    requires ')' !in pre && |gap| == 2
    ensures var line := pre + ")" + gap + d + ReprEnd;
      Find(line, ")") == |pre| && SliceFrom(line, |pre| + 3) == d + ReprEnd
  {
    var line := pre + ")" + gap + d + ReprEnd;
    assert line == pre + [')'] + (gap + d + ReprEnd);
    FindChar(pre, ')', gap + d + ReprEnd);
    assert line[|pre| + 3..] == d + ReprEnd;
  }

  /** A data line whose bytes follow a `)` and two more characters as `AA BB CC` text, in
      either case, yields exactly that text. */
  lemma {:induction false} DataLineHex(pre: string, gap: string, d: string)
    requires ')' !in pre && |gap| == 2 && IsHexPairsText(d)
    ensures HexFromDataLine(pre + ")" + gap + d + ReprEnd) == d
  {
    DataLineParts(pre, gap, d);
    SpacedHexTextShape(d);
    var t := d + ReprEnd;
    assert t[0] == d[0] && t[|t| - 1] == '\'';
    StripUnchanged(t);
    FilterConcat(d, ReprEnd, InHexClass);
    FilterKeepsAll(d, InHexClass);
    ReprEndFiltered();
    ReplaceDropsTail(d);
    StripUnchanged(d);
  }

  // ---------------------------------------------------------------- lemmas: the main loop

  /** No CRC line at or after `from`. */
  predicate NoCrcFrom(lines: seq<string>, from: nat) {
    forall k :: from <= k < |lines| ==> !Contains(lines[k], CrcMarker)
  }

  /** One request per `[{"chan"` line at or after `from`, each with the text `h`: the reference
      behaviour once the hex text no longer changes. */
  function ChanRequests(lines: seq<string>, from: nat, h: string): seq<Request>
    requires from <= |lines|
    decreases |lines| - from
  {
    if from == |lines| then []
    else
      var here := if Contains(lines[from], ChanMarker) then [Request(h, lines[from])] else [];
      here + ChanRequests(lines, from + 1, h)
  }

  /** Lines without `[{"chan"` add no request. */
  lemma {:induction false} ChanRequestsSkip(lines: seq<string>, from: nat, h: string)
    requires from <= |lines|
    ensures ChanRequests(lines, from, h) == ChanRequests(lines, NextChan(lines, from), h)
    decreases |lines| - from
  {
    if from < |lines| && !Contains(lines[from], ChanMarker) {
      ChanRequestsSkip(lines, from + 1, h);
    }
  }

  /** Once hex text is remembered and no CRC line follows, every `[{"chan"` line makes one
      request with that text: the text sticks. */
  lemma {:induction false} StickyHex(lines: seq<string>, pos: nat, hex: string)
    requires pos <= |lines| && hex != [] && NoCrcFrom(lines, pos)
    ensures Pending(lines, pos, hex) == ChanRequests(lines, pos, hex)
    decreases |lines| - pos
  {
    if pos < |lines| {
      PendingResumes(lines, pos, hex, pos + 1, hex);
      if Contains(lines[pos], ChanMarker) {
        StickyHex(lines, pos + 1, hex);
      } else {
        var j := NextChan(lines, pos + 1);
        ChanRequestsSkip(lines, pos + 1, hex);
        if j < |lines| {
          StickyHex(lines, j + 1, hex);
        }
      }
    }
  }

  /** With no hex text remembered and no CRC line to come, nothing is written. */
  lemma {:induction false} NoHexNoRequests(lines: seq<string>, pos: nat)
    requires pos <= |lines| && NoCrcFrom(lines, pos)
    ensures Pending(lines, pos, []) == []
    decreases |lines| - pos
  {
    if pos < |lines| {
      PendingResumes(lines, pos, [], pos + 1, []);
      NoHexNoRequests(lines, pos + 1);
    }
  }

  /** A log without any CRC line makes no request at all. */
  lemma {:induction false} NoCrcNoPackets(lines: seq<string>)
    requires NoCrcFrom(lines, 0)
    ensures Requests(lines) == []
  {
    NoHexNoRequests(lines, 0);
  }

  /** A CRC line whose data line yields no hex text forgets the remembered text. */
  lemma {:induction false} CrcClears(lines: seq<string>, pos: nat, hex: string)
    requires pos + 1 < |lines| && Contains(lines[pos], CrcMarker)
    requires HexFromDataLine(lines[pos + 1]) == []
    ensures Pending(lines, pos, hex) == Pending(lines, pos + 2, [])
  {
    PendingResumes(lines, pos, hex, pos + 2, []);
  }

  /** A CRC line with a usable data line, and no CRC line after them: every later `[{"chan"`
      line makes one request with the new text (the CRC line itself too, if it holds the
      marker). */
  lemma {:induction false} CrcThenChans(lines: seq<string>, pos: nat, hex: string)
    requires pos + 1 < |lines| && Contains(lines[pos], CrcMarker)
    requires HexFromDataLine(lines[pos + 1]) != [] && NoCrcFrom(lines, pos + 2)
    ensures var h := HexFromDataLine(lines[pos + 1]);
      Pending(lines, pos, hex) ==
        (if Contains(lines[pos], ChanMarker) then [Request(h, lines[pos])] else [])
          + ChanRequests(lines, pos + 2, h)
  {
    var h := HexFromDataLine(lines[pos + 1]);
    PendingResumes(lines, pos, hex, pos + 2, h);
    StickyHex(lines, pos + 2, h);
    if !Contains(lines[pos], ChanMarker) {
      var j := NextChan(lines, pos + 2);
      ChanRequestsSkip(lines, pos + 2, h);
      if j < |lines| {
        StickyHex(lines, j + 1, h);
      }
    }
  }

  /** A request as the loop makes it: hex text remembered, and a JSON line holding
      `[{"chan"`. */
  predicate Served(r: Request) {
    r.hexData != [] && Contains(r.rawPacketData, ChanMarker)
  }

  /** Nothing is served without hex text, and only `[{"chan"` lines are handed to
      `wrap_raw_data`. */
  lemma {:induction false} PendingServed(lines: seq<string>, pos: nat, hex: string)
    requires pos <= |lines|
    ensures forall r :: r in Pending(lines, pos, hex) ==> Served(r)
    decreases |lines| - pos, 0
  {
    if pos < |lines| {
      var crc := Contains(lines[pos], CrcMarker);
      if !(crc && pos + 1 == |lines|) {
        var next := if crc then pos + 2 else pos + 1;
        var h := if crc then HexFromDataLine(lines[pos + 1]) else hex;
        PendingResumes(lines, pos, hex, next, h);
        ResumeServed(lines, next, h, lines[pos]);
      }
    }
  }

  lemma {:induction false} ResumeServed(lines: seq<string>, next: nat, h: string, cur: string)
    requires next <= |lines|
    ensures forall r :: r in Resume(lines, next, h, cur) ==> Served(r)
    decreases |lines| - next, 1
  {
    if h == [] || Contains(cur, ChanMarker) {
      PendingServed(lines, next, h);
    } else {
      var j := NextChan(lines, next);
      if j < |lines| {
        PendingServed(lines, j + 1, h);
      }
    }
  }

  /** A CRC line, its data line and a `[{"chan"` line make one request: the data line's text
      with the JSON line. */
  lemma {:induction false} OnePacket(lines: seq<string>)
    requires |lines| == 3 && Contains(lines[0], CrcMarker) && !Contains(lines[0], ChanMarker)
    requires HexFromDataLine(lines[1]) != []
    requires Contains(lines[2], ChanMarker)
    ensures Requests(lines) == [Request(HexFromDataLine(lines[1]), lines[2])]
  {
    var h := HexFromDataLine(lines[1]);
    PendingResumes(lines, 0, [], 2, h);
    ResumeServes(lines, 2, h, lines[0], 3, lines[2]);
  }

  /** A second CRC line met while the inner loop looks for `[{"chan"` is passed over with its
      data line: the request uses the text of the first frame. */
  lemma {:induction false} CrcSkippedWhileScanning(lines: seq<string>)
    requires |lines| == 5 && Contains(lines[0], CrcMarker) && !Contains(lines[0], ChanMarker)
    requires HexFromDataLine(lines[1]) != []
    requires Contains(lines[2], CrcMarker) && !Contains(lines[2], ChanMarker)
    requires !Contains(lines[3], ChanMarker) && Contains(lines[4], ChanMarker)
    ensures Requests(lines) == [Request(HexFromDataLine(lines[1]), lines[4])]
  {
    var h := HexFromDataLine(lines[1]);
    PendingResumes(lines, 0, [], 2, h);
    assert NextChan(lines, 2) == 4 by {
      assert NextChan(lines, 3) == 4;
    }
    ResumeServes(lines, 2, h, lines[0], 5, lines[4]);
  }
}
