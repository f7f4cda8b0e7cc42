/** A given list of chunks: exactly when no session writes wrong bytes, and exactly when a file, read
    in full blocks, can be sent and copied, over channels that never repeat a datagram. */
module LinkFiles {
  import opened Basics
  import opened Codec
  import opened CrcErrors
  import opened Receiver
  import opened Transfer
  import opened Truncation
  import opened Wire
  import opened Shadow
  import opened Stall
  import opened Net
  import opened Recovery
  import opened Completion

  // ----- chunks that can be taken for others -----

  predicate AllSurvive(chunks: seq<seq<byte>>) {
    forall k :: 0 <= k < |chunks| ==> Survives(chunks[k])
  }

  /** Some chunk can be taken for another one, and all chunks before it survive. */
  predicate Exposed(chunks: seq<seq<byte>>) {
    exists k :: 0 <= k < |chunks| && Confusable(chunks[k]) && AllSurvive(chunks[..k])
  }

  /** Up to a chunk that is not exposed, what is written is right. */
  lemma {:induction false} RightSoFar(chunks: seq<seq<byte>>, ws: seq<seq<byte>>)
    requires StandsFor(Link(true), chunks, ws) && !Exposed(chunks)
    ensures ws == chunks[..|ws|] && AllSurvive(ws)
    decreases |ws|
  {
    if ws != [] {
      var k := |ws| - 1;
      RightSoFar(chunks, ws[..k]);
      assert AllSurvive(chunks[..k]) && !Confusable(chunks[k]);
      assert Accepted(Link(true), chunks[k], ws[k]);
      AcceptedItself(Link(true), chunks[k], ws[k]);
      assert ws == ws[..k] + [ws[k]];
    }
  }

  lemma ExposedPrefix(chunks: seq<seq<byte>>, more: seq<seq<byte>>)
    requires chunks <= more && Exposed(chunks)
    ensures Exposed(more)
  {
    var k :| 0 <= k < |chunks| && Confusable(chunks[k]) && AllSurvive(chunks[..k]);
    assert more[..k] == chunks[..k] && more[k] == chunks[k];
  }

  lemma SafeRun(chunks: seq<seq<byte>>, run: seq<Session>)
    requires WireRun(Link(true), run) && Last(run).chunks <= chunks && |chunks| <= 255 && !Exposed(chunks)
    ensures Last(run).rcv.output <= Last(run).input
  {
    var s := Last(run);
    if Exposed(s.chunks) {
      ExposedPrefix(s.chunks, chunks);
    }
    var ws := AlwaysWrote(Link(true), run);
    AlwaysNumbersGood(Link(true), run);
    RightSoFar(s.chunks, ws);
    ConcatPrefix(s.chunks, |ws|);
  }

  /** The receiver waits for chunk k, which was just read and whose packet is under way. */
  ghost predicate Expecting(n: Net, k: nat) {
    && !n.s.finished && |n.s.chunks| == k + 1 && n.s.rcv.seqnum == k
    && exists p :: p in n.down && p.seqnum == k
  }

  /** The first k chunks are written, one after the other. */
  lemma {:induction false} ReadUpTo(u: Setup, k: nat) returns (run: seq<Net>)
    requires Chunks(u.plan) && k < |u.plan| <= 255 && forall j :: 0 <= j < k ==> Passable(u.ch, u.plan[j])
    ensures NetRun(u, run) && Expecting(End(run), k)
  {
    if k == 0 {
      AlwaysSane(u, [Begin(u)]);
      run := ReadOn(u, [Begin(u)]);
      if End(run).s.finished {
        EndReadsAll(u, run);
      }
    } else {
      var before := ReadUpTo(u, k - 1);
      run := NextExpected(u, before, k - 1);
    }
  }

  lemma NextExpected(u: Setup, run: seq<Net>, k: nat) returns (more: seq<Net>)
    requires NetRun(u, run) && Expecting(End(run), k) && k + 1 < |u.plan| <= 255 && Passable(u.ch, u.plan[k])
    ensures NetRun(u, more) && Expecting(End(more), k + 1)
  {
    var p :| p in End(run).down && p.seqnum == k;
    var next := Deliver(u, run, p);
    more := AckBack(u, next);
    if !Progress(End(next), End(more)) {
      StillMissing(u, End(more).s);
    }
    if End(more).s.finished {
      EndReadsAll(u, more);
    }
  }

  /** With the right number of bytes written, a wrong chunk spoils the output for good. */
  lemma WrongStays(s: Session, p: Packet, w: seq<byte>, c: seq<byte>, done: seq<byte>)
    requires p.typ == PTYPE_DATA && p.seqnum == s.rcv.seqnum && p.payload == Some(w) && p.length == |w| == |c|
    requires |s.rcv.output| == |done| && done + c <= s.input && w != c
    ensures var t := ReceiverTurn(s, Decoded(p)); !(t.rcv.output <= t.input)
  {
    var r := s.rcv.(seqnum := IncSeqnum(s.rcv.seqnum), output := s.rcv.output + Payload(p));
    DrainExtends(r, 0);
    WholePayload(p, w);
    Spoiled(ReceiverTurn(s, Decoded(p)).rcv.output, s.input, s.rcv.output, w, done, c);
  }

  lemma Spoiled<T>(out: seq<T>, input: seq<T>, a: seq<T>, w: seq<T>, done: seq<T>, c: seq<T>)
    requires a + w <= out && done + c <= input && |a| == |done| && |w| == |c| && w != c
    ensures !(out <= input)
  {
    var i :| 0 <= i < |w| && w[i] != c[i];
    assert out[|a| + i] == (a + w)[|a| + i] && input[|a| + i] == (done + c)[|a| + i];
  }

  /** As many bytes are written as the chunks before the last one have. */
  lemma OnTrack(run: seq<Session>, k: nat)
    requires WireRun(Link(true), run) && |Last(run).chunks| == k + 1 <= 255 && Last(run).rcv.seqnum == k
    ensures var s := Last(run);
            |s.rcv.output| == |Concat(s.chunks[..k])| && Concat(s.chunks[..k]) + s.chunks[k] <= s.input
  {
    var s := Last(run);
    var ws := AlwaysWrote(Link(true), run);
    AlwaysNumbersGood(Link(true), run);
    NextChunk(s.chunks, k);
    assert s.chunks[..k + 1] == s.chunks;
    SameLength(Link(true), s.chunks[..k], ws);
  }

  /** What a packet of a confusable chunk may arrive as. */
  lemma ConfusedPacket(u: Setup, run: seq<Net>, p: Packet, k: nat) returns (q: Packet, w: seq<byte>)
    requires NetRun(u, run) && u.ch == Link(true) && k < |End(run).s.chunks| <= 255
    requires p in End(run).down && p.seqnum == k && Confusable(End(run).s.chunks[k]) && |u.plan| <= 255
    ensures DataFrom(Link(true), p, Decoded(q)) && q.typ == PTYPE_DATA && q.seqnum == k
    ensures q.payload == Some(w) && q.length == |w| == |End(run).s.chunks[k]| && w != End(run).s.chunks[k]
  {
    var s := End(run).s;
    var c := s.chunks[k];
    AlwaysSane(u, run);
    assert Of(s.chunks, p) && Carries(s.chunks, p);
    WholePayload(p, p.payload.value);
    var j: nat :| j < |c| && Passes(c, Inverted(c, j), MAX_PKT_LEN);
    w := Inverted(c, j);
    q := WithPayload(p, w);
    AcceptedArrives(Link(true), p, w);
    InvertedDiffers(c, j, c);
  }

  /** For an exposed list, a run that writes wrong bytes. */
  lemma ExposedRun(u: Setup, k: nat) returns (run: seq<Net>)
    requires Chunks(u.plan) && u.ch == Link(true) && k < |u.plan| <= 255
    requires Confusable(u.plan[k]) && AllSurvive(u.plan[..k])
    ensures NetRun(u, run) && !(End(run).s.rcv.output <= End(run).s.input)
  {
    assert forall j :: 0 <= j < k ==> u.plan[j] == u.plan[..k][j];
    run := ReadUpTo(u, k);
    run := ConfuseNext(u, run, k);
  }

  lemma ConfuseNext(u: Setup, run: seq<Net>, k: nat) returns (more: seq<Net>)
    requires NetRun(u, run) && u.ch == Link(true) && |u.plan| <= 255 && Expecting(End(run), k)
    requires k < |u.plan| && Confusable(u.plan[k])
    ensures NetRun(u, more) && !(End(more).s.rcv.output <= End(more).s.input)
  {
    var p :| p in End(run).down && p.seqnum == k;
    var path := Projected(u, run);
    var s := End(run).s;
    var q, w := ConfusedPacket(u, run, p, k);
    more := Go(u, run, Arrive(p, Decoded(q)));
    OnTrack(path, k);
    WrongStays(s, q, w, s.chunks[k], Concat(s.chunks[..k]));
  }

  /** Through a link with errors, all sessions that read these chunks in this order, as far as they
      get, write only right bytes exactly when no chunk is exposed, even if the link never repeats
      a datagram. A chunk behind a lost one may be confusable: it is never written. */
  lemma ExposedIff(u: Setup)
    requires Chunks(u.plan) && u.ch == Link(true) && |u.plan| <= 255
    ensures !Exposed(u.plan) <==>
            forall run: seq<Net> :: NetRun(u, run) ==> End(run).s.rcv.output <= End(run).s.input
    ensures !Exposed(u.plan) <==>
            forall run: seq<Session> ::
              WireRun(Link(true), run) && Last(run).chunks <= u.plan ==> Last(run).rcv.output <= Last(run).input
  {
    if Exposed(u.plan) {
      var k: nat :| k < |u.plan| && Confusable(u.plan[k]) && AllSurvive(u.plan[..k]);
      var run := ExposedRun(u, k);
      var path := Projected(u, run);
    } else {
      forall run: seq<Session> | WireRun(Link(true), run) && Last(run).chunks <= u.plan
        ensures Last(run).rcv.output <= Last(run).input
      {
        SafeRun(u.plan, run);
      }
      forall run: seq<Net> | NetRun(u, run) ensures End(run).s.rcv.output <= End(run).s.input {
        var path := Projected(u, run);
        SafeRun(u.plan, path);
      }
    }
  }

  // ----- a file, read in full blocks -----

  /** What reading a file returns: blocks of 512 bytes, and the rest. */
  function Blocks(input: seq<byte>): (bs: seq<seq<byte>>)
    ensures Chunks(bs)
    decreases |input|
  {
    if input == [] then []
    else if |input| <= MAX_PAYLOAD_SIZE then [input]
    else [input[..MAX_PAYLOAD_SIZE]] + Blocks(input[MAX_PAYLOAD_SIZE..])
  }

  lemma ConcatCons(c: seq<byte>, chunks: seq<seq<byte>>)
    ensures Concat([c] + chunks) == c + Concat(chunks)
    decreases |chunks|
  {
    var all := [c] + chunks;
    if chunks == [] {
      assert all[..0] == [];
    } else {
      var n := |chunks| - 1;
      assert all[..|all| - 1] == [c] + chunks[..n];
      ConcatCons(c, chunks[..n]);
    }
  }

  lemma {:induction false} ConcatBlocks(input: seq<byte>)
    ensures Concat(Blocks(input)) == input
    decreases |input|
  {
    if |input| > MAX_PAYLOAD_SIZE {
      var rest := input[MAX_PAYLOAD_SIZE..];
      ConcatBlocks(rest);
      ConcatCons(input[..MAX_PAYLOAD_SIZE], Blocks(rest));
    } else if input != [] {
      ConcatCons(input, []);
    }
  }

  /** The file is the standard input, always readable, and read in full blocks. */
  function Copying(ch: Channel, input: seq<byte>): Setup { Setup(ch, Blocks(input), true) }

  ghost predicate CanSendFile(ch: Channel, input: seq<byte>) {
    exists run :: NetRun(Copying(ch, input), run) && End(run).s.finished
  }

  ghost predicate CanCopyFile(ch: Channel, input: seq<byte>) {
    exists run :: NetRun(Copying(ch, input), run) && End(run).s.finished && End(run).s.rcv.output == input
  }

  /** At the start the sender can read or end. */
  lemma StartAlive(u: Setup)
    requires Chunks(u.plan) && |u.plan| <= 255
    ensures var start := [Begin(u)];
            && NetRun(u, start) && Quiet(End(start)) && !End(start).s.finished && Alive(u, End(start).s)
            && ReceiverGood(End(start).s.chunks, End(start).s.rcv)
  {
    assert !Waiting(u, Begin(u).s);
  }

  /** A file of at most 255 blocks can be sent to the end of the sender's loop, over a channel that never
      repeats a datagram, exactly when every block can pass, and copied exactly when every block can
      pass as it is. */
  lemma FileIff(ch: Channel, input: seq<byte>)
    requires |Blocks(input)| <= 255
    ensures CanSendFile(ch, input) <==> AllPassable(ch, Blocks(input))
    ensures CanCopyFile(ch, input) <==> AllIntact(ch, Blocks(input))
  {
    var u := Copying(ch, input);
    var start := [Begin(u)];
    ConcatBlocks(input);
    StartAlive(u);
    CanEndIff(u, start);
    CanEndWellIff(u, start);
    assert CanSendFile(ch, input) <==> CanEnd(u, start) by {
      forall run | NetRun(u, run) ensures start <= run {}
    }
    assert CanCopyFile(ch, input) <==> CanEndWell(u, start) by {
      forall run | NetRun(u, run) ensures start <= run && End(run).s.input == input {
        var path := Projected(u, run);
      }
    }
  }
}
