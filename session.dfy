/** What a run of either script writes after its global header. Each script turns its input lines
    into a list of requests, one per `write_packet` call it would make, and serves them in order:
    it builds the `PacketData` of a request (which may raise) and hands it to `write_packet`
    (which may raise after writing part of a record). Neither script catches an exception, so
    the first failure ends the run with whatever had reached the stream by then; otherwise the
    run ends when the lines run out. The encoder is a parameter `emit` here; the scripts use
    `PacketEmission`. */
module Session {
  import opened Results
  import opened Pcap

  /** What one `write_packet` call appends, and whether it returns. */
  type Encoder = (PacketData, Timestamp) -> Emission

  /** Where a run, or one step of it, leaves the script: back at `readline` waiting for the next
      line, or ended by an uncaught exception. */
  datatype Stop = Waiting | Failed(error: Exception)

  /** The bytes a run appends after the global header, how many `write_packet` calls returned,
      and why the run ended. */
  datatype Transcript = Transcript(written: seq<byte>, packets: nat, stop: Stop)

  /** Serving one request: building its `PacketData`, then `write_packet` at time `now`. The
      script goes back to waiting for input exactly when a record was written whole. */
  function Step<R>(r: R, wrap: R -> Result<PacketData>, emit: Encoder, now: Timestamp)
    : (t: Transcript)
    ensures t.stop == Waiting <==> t.packets == 1
    ensures t.packets <= 1
  {
    match wrap(r)
    case Failure(e) => Transcript([], 0, Failed(e))
    case Success(p) =>
      var e := emit(p, now);
      if e.outcome.Fail? then Transcript(e.written, 0, Failed(e.outcome.error))
      else Transcript(e.written, 1, Waiting)
  }

  /** Serving `reqs` in order, the `k`-th `write_packet` call of the run reading `clock(k)`. */
  function Execute<R>(reqs: seq<R>, wrap: R -> Result<PacketData>, emit: Encoder,
                      clock: nat -> Timestamp, k: nat): (t: Transcript)
    ensures t.packets <= |reqs|
    ensures t.stop == Waiting <==> t.packets == |reqs|
    decreases |reqs|
  {
    if reqs == [] then Transcript([], 0, Waiting)
    else
      var s := Step(reqs[0], wrap, emit, clock(k));
      if s.stop != Waiting then s
      else
        var rest := Execute(reqs[1..], wrap, emit, clock, k + 1);
        Transcript(s.written + rest.written, rest.packets + 1, rest.stop)
  }

  /** `t`, preceded by `n` records that took the bytes `w`. */
  function After(w: seq<byte>, n: nat, t: Transcript): (r: Transcript)
    ensures r.stop == t.stop && r.packets == n + t.packets && r.written == w + t.written
  {
    Transcript(w + t.written, n + t.packets, t.stop)
  }

  /** Building the `PacketData` of one request, then `write_packet`: what reaches the stream and
      whether the run goes on. The scripts do this as `wrap_raw_data` then `write_packet`. */
  method Serve<R>(formatter: PcapFormatter, r: R, wrap: R -> Result<PacketData>, now: Timestamp)
    returns (stop: Stop)
    requires formatter.out.Valid()
    modifies formatter.out
    ensures formatter.out.Valid()
    ensures var s := Step(r, wrap, PacketEmission, now);
      formatter.out.written == old(formatter.out.written) + s.written && stop == s.stop
  {
    var packet := wrap(r);
    if packet.Failure? {
      return Failed(packet.error);
    }
    var outcome := formatter.WritePacket(packet.value, now);
    if outcome.Fail? {
      return Failed(outcome.error);
    }
    return Waiting;
  }

  // ---------------------------------------------------------------- lemmas

  /** The first request is served first: when it goes through, the rest are served from the next
      clock reading on; when it does not, the run ends there. */
  lemma ExecuteCons<R>(r: R, rest: seq<R>, wrap: R -> Result<PacketData>, emit: Encoder,
                       clock: nat -> Timestamp, k: nat)
    ensures var s := Step(r, wrap, emit, clock(k));
      Execute([r] + rest, wrap, emit, clock, k) ==
        if s.stop == Waiting then After(s.written, 1, Execute(rest, wrap, emit, clock, k + 1)) else s
  {
    assert ([r] + rest)[0] == r;
    assert ([r] + rest)[1..] == rest;
  }

  /** Two stretches of records in a row are one stretch. */
  lemma AfterAfter(w1: seq<byte>, n1: nat, w2: seq<byte>, n2: nat, t: Transcript)
    ensures After(w1, n1, After(w2, n2, t)) == After(w1 + w2, n1 + n2, t)
  {
    assert w1 + (w2 + t.written) == (w1 + w2) + t.written;
  }

  /** A run that got through the requests `a` goes on with `b` as if it had started there; a run
      that stopped inside `a` never sees `b`. */
  lemma {:induction false} ExecuteAppend<R>(a: seq<R>, b: seq<R>, wrap: R -> Result<PacketData>,
                                            emit: Encoder, clock: nat -> Timestamp, k: nat)
    ensures var ta := Execute(a, wrap, emit, clock, k);
      Execute(a + b, wrap, emit, clock, k) ==
        if ta.stop == Waiting then After(ta.written, |a|, Execute(b, wrap, emit, clock, k + |a|))
        else ta
    decreases |a|
  {
    if a == [] {
      assert a + b == b;
    } else {
      assert a + b == [a[0]] + (a[1..] + b);
      assert a == [a[0]] + a[1..];
      ExecuteCons(a[0], a[1..] + b, wrap, emit, clock, k);
      ExecuteCons(a[0], a[1..], wrap, emit, clock, k);
      ExecuteAppend(a[1..], b, wrap, emit, clock, k + 1);
      var s := Step(a[0], wrap, emit, clock(k));
      if s.stop == Waiting {
        var t1 := Execute(a[1..], wrap, emit, clock, k + 1);
        if t1.stop == Waiting {
          AfterAfter(s.written, 1, t1.written, |a| - 1, Execute(b, wrap, emit, clock, k + |a|));
        }
      }
    }
  }

  /** A run ends by failing exactly when some request is refused, either while its `PacketData`
      is built or by `write_packet`; until then every request writes one whole record. */
  lemma {:induction false} ExecuteAllPass<R>(reqs: seq<R>, wrap: R -> Result<PacketData>,
                                             emit: Encoder, clock: nat -> Timestamp, k: nat)
    ensures Execute(reqs, wrap, emit, clock, k).stop == Waiting <==>
      forall i :: 0 <= i < |reqs| ==> Step(reqs[i], wrap, emit, clock(k + i)).stop == Waiting
    decreases |reqs|
  {
    if reqs != [] {
      ExecuteAllPass(reqs[1..], wrap, emit, clock, k + 1);
      var t := reqs[1..];
      assert forall i :: 0 <= i < |t| ==> t[i] == reqs[i + 1];
      if Execute(reqs, wrap, emit, clock, k).stop == Waiting {
        forall i | 0 <= i < |reqs|
          ensures Step(reqs[i], wrap, emit, clock(k + i)).stop == Waiting
        {
          if i > 0 {
            assert reqs[i] == t[i - 1];
          }
        }
      }
    }
  }

  /** A request gets through exactly when its `PacketData` is built and `write_packet` returns. */
  lemma StepPasses<R>(r: R, wrap: R -> Result<PacketData>, emit: Encoder, now: Timestamp)
    ensures Step(r, wrap, emit, now).stop == Waiting <==>
      wrap(r).Success? && emit(wrap(r).value, now).outcome == Pass
  {
  }
}
