/** When a transfer can still be completed, if the channel never repeats a datagram. With nothing under way
    this is decided by the state alone; a sender that is dead stays as it is for ever. */
module Completion {
  import opened Basics
  import opened Codec
  import opened Receiver
  import opened Transfer
  import opened Wire
  import opened Shadow
  import opened Stall
  import opened Net
  import opened Recovery
  import Sender

  predicate Quiet(n: Net) { n.down == multiset{} && n.up == multiset{} }

  /** An acknowledgement of r would let the sender read on or end. */
  predicate Helps(u: Setup, s: Session, r: nat) {
    r == |s.chunks| || (Left(u, s) && |s.chunks| - r <= 15)
  }

  /** The number that the receiver waits for once `p` has arrived. */
  function Answer(s: Session, p: Packet): uint8 { Receive(s.rcv, Decoded(p)).0.seqnum }

  /** Something can still happen: the timer can resend a packet, the sender can read or end, or fast
      retransmit is due and the answer will let it read or end. */
  ghost predicate Alive(u: Setup, s: Session) {
    || Aged(s.snd)
    || !Waiting(u, s)
    || (Sender.FastResent(s.snd) != [] && Helps(u, s, Answer(s, Sender.FastResent(s.snd)[0])))
  }

  // ----- an unlucky state -----

  /** Nothing under way, nothing due, nothing to read: no turn does anything. */
  ghost predicate Dead(u: Setup, n: Net) {
    Quiet(n) && !n.s.finished && Waiting(u, n.s) && !Aged(n.s.snd) && Sender.FastResent(n.s.snd) == []
  }

  lemma NothingDue(s: Sender.SenderState, now: bv32)
    requires !Aged(s) && now <= LAST_SECOND
    ensures Sender.TimedOut(s, now) == []
  {
    var sel := Sender.Select(s.slots, Sender.Due(now, s.seqnum));
    if sel != [] {
      Sender.SelectBuffered(s.slots, Sender.Due(now, s.seqnum), sel[0]);
    }
  }

  /** A turn without an acknowledgement of a sender that waits and has no packet for the timer. */
  lemma SilentTurn(u: Setup, s: Session, i: Sender.Input)
    requires Waiting(u, s) && !Aged(s.snd) && i.now <= LAST_SECOND && i.ack == None
    requires i.read.Some? ==> i.read.value == NextRead(u, s)
    ensures Sender.Sent(s.snd, i) == Sender.FastResent(s.snd)
    ensures SenderTurn(s, i) == s.(snd := Sender.AfterFast(s.snd), finished := false,
                                   data := s.data + (set p | p in Sender.FastResent(s.snd)))
  {
    assert Sender.AckTurn(s.snd, i) == Sender.AfterFast(s.snd);
    assert !Sender.SendsChunk(s.snd, i) && !Sender.Ends(s.snd, i);
    NothingDue(Sender.AfterFast(s.snd), i.now);
  }

  /** It stays as it is, whatever the clock and the input do. */
  lemma DeadStays(u: Setup, n: Net, m: Move)
    requires Dead(u, n) && Possible(u, n, m)
    ensures Moved(n, m) == n
  {
    SilentTurn(u, n.s, m.i);
    assert n.s.data + (set p | p in Sender.FastResent(n.s.snd)) == n.s.data;
  }

  lemma {:induction false} DeadForever(u: Setup, run: seq<Net>, more: seq<Net>)
    requires NetRun(u, run) && NetRun(u, more) && run <= more && Dead(u, End(run))
    ensures End(more) == End(run)
    decreases |more|
  {
    if |more| == |run| {
      assert more == run;
    } else {
      var init, m := LastMove(u, more);
      assert run <= init;
      DeadForever(u, run, init);
      DeadStays(u, End(run), m);
    }
  }

  // ----- a last fast retransmission that does not help -----

  /** It is due. */
  ghost predicate LastDue(u: Setup, n: Net) {
    && Quiet(n) && !n.s.finished && Waiting(u, n.s) && !Aged(n.s.snd)
    && Sender.FastResent(n.s.snd) != [] && !Helps(u, n.s, Answer(n.s, Sender.FastResent(n.s.snd)[0]))
  }

  /** No other is due, and the last acknowledgement was the highest. */
  ghost predicate Spent(u: Setup, n: Net) {
    !n.s.finished && Waiting(u, n.s) && !Aged(n.s.snd) && n.s.snd.count == 0 && n.s.snd.lastack == n.s.acked
  }

  /** It is under way; or its answer is. */
  ghost predicate LastUnderWay(u: Setup, n: Net, p: Packet) {
    Spent(u, n) && n.down == multiset{p} && n.up == multiset{} && !Helps(u, n.s, Answer(n.s, p))
  }

  ghost predicate LastAnswered(u: Setup, n: Net, ack: Packet) {
    Spent(u, n) && n.down == multiset{} && n.up == multiset{ack} && ack == AckOf(n.s.rcv)
    && !Helps(u, n.s, n.s.rcv.seqnum)
  }

  /** Nothing that leads to the end can happen any more. */
  ghost predicate Hopeless(u: Setup, n: Net) {
    Dead(u, n) || LastDue(u, n) || (exists p :: LastUnderWay(u, n, p)) || (exists ack :: LastAnswered(u, n, ack))
  }

  /** Fast retransmit sends one packet, of the number asked for. */
  lemma FastOnce(s: Session)
    requires NumbersGood(s) && Sender.FastResent(s.snd) != []
    ensures var p := Sender.FastResent(s.snd)[0];
            && Sender.FastResent(s.snd) == [p] && Some(p) in s.snd.slots && p.seqnum == s.snd.lastack == s.acked
            && Sender.AfterFast(s.snd) == s.snd.(count := 0)
  {
    SelectNumber(s.snd.slots, s.snd.lastack);
  }

  lemma LastDueMove(u: Setup, n: Net, m: Move)
    requires Sane(u, n) && LastDue(u, n) && Possible(u, n, m)
    ensures Hopeless(u, Moved(n, m))
  {
    FastOnce(n.s);
    SilentTurn(u, n.s, m.i);
    LastSent(u, n, Moved(n, m), Sender.FastResent(n.s.snd)[0]);
  }

  lemma LastSent(u: Setup, n: Net, t: Net, p: Packet)
    requires LastDue(u, n) && p == Sender.FastResent(n.s.snd)[0] && n.s.snd.lastack == n.s.acked
    requires t.s == n.s.(snd := n.s.snd.(count := 0), data := t.s.data)
    requires t.down == multiset{} + multiset([p]) && t.up == multiset{}
    ensures LastUnderWay(u, t, p)
  {}

  lemma SpentTurn(u: Setup, n: Net, m: Move)
    requires Spent(u, n) && Possible(u, n, m) && m.Turn? && m.ack == None
    ensures Moved(n, m) == n
  {
    SilentTurn(u, n.s, m.i);
    assert n.s.data + (set p | p in Sender.FastResent(n.s.snd)) == n.s.data;
  }

  lemma LastUnderWayMove(u: Setup, n: Net, m: Move, p: Packet)
    requires Sane(u, n) && LastUnderWay(u, n, p) && Possible(u, n, m)
    ensures Hopeless(u, Moved(n, m))
  {
    match m
    case Turn(i, ack) =>
      SpentTurn(u, n, m);
    case Arrive(q, a) =>
      LastArrives(u, n, p, a);
    case LoseData(q) =>
      assert Dead(u, Moved(n, m));
    case LoseAck(lost) =>
  }

  lemma LastArrives(u: Setup, n: Net, p: Packet, a: Arrival)
    requires Sane(u, n) && LastUnderWay(u, n, p) && DataFrom(u.ch, p, a)
    ensures Hopeless(u, Moved(n, Arrive(p, a)))
  {
    var t := Moved(n, Arrive(p, a));
    LastArrival(u, n, p, a);
    LastAnswers(u, n, p, t);
    assert LastAnswered(u, t, AckOf(t.s.rcv));
  }

  lemma LastAnswers(u: Setup, n: Net, p: Packet, t: Net)
    requires LastUnderWay(u, n, p) && !Helps(u, n.s, t.s.rcv.seqnum)
    requires t.s == n.s.(rcv := t.s.rcv, acks := t.s.acks)
    requires t.down == multiset{p} - multiset{p} && t.up == multiset{} + multiset{AckOf(t.s.rcv)}
    ensures LastAnswered(u, t, AckOf(t.s.rcv))
  {}

  lemma LastArrival(u: Setup, n: Net, p: Packet, a: Arrival)
    requires Sane(u, n) && LastUnderWay(u, n, p) && DataFrom(u.ch, p, a)
    ensures var r := Receive(n.s.rcv, a);
            r.1 == Some(AckOf(r.0)) && !Helps(u, n.s, r.0.seqnum)
  {
    assert Of(n.s.chunks, p) && Carries(n.s.chunks, p);
    var w := FromData(u.ch, p, a);
    if a.Decoded? {
      SameNumber(n.s.rcv, p, w);
    } else {
      ReceiveNumbers(n.s.rcv, p, |n.s.chunks|);
    }
  }

  lemma FewerAged(before: Sender.SenderState, after: Sender.SenderState)
    requires !Aged(before)
    requires forall k :: 0 <= k < WINDOW_SIZE ==> after.slots[k] == None || after.slots[k] == before.slots[k]
    ensures !Aged(after)
  {}

  /** Up to date with r but not helped by it, the sender waits. */
  lemma NotHelped(u: Setup, s: Session, mid: Sender.SenderState, r: uint8)
    requires SenderGood(s.chunks, mid, r) && mid.lastack == r && !Helps(u, s, r)
    ensures !(Sender.CanSend(mid) && (Left(u, s) || mid.free == WINDOW_SIZE))
  {
    IntervalOccupied(mid.slots, r, |s.chunks|);
  }

  /** The answer arrives, or a damaged copy of it. */
  lemma LastAck(u: Setup, s: Session, i: Sender.Input, ack: Packet)
    requires NumbersGood(s) && Waiting(u, s) && !Aged(s.snd) && s.snd.count == 0 && s.snd.lastack == s.acked
    requires ack == AckOf(s.rcv) && !Helps(u, s, s.rcv.seqnum) && i.now <= LAST_SECOND
    requires i.ack.Some? && i.ack.value in {Rejected, Decoded(AsDecoded(ack))}
    requires i.read.Some? ==> i.read.value == NextRead(u, s)
    ensures var t := SenderTurn(s, i);
            && Sender.Sent(s.snd, i) == [] && !t.finished && t.chunks == s.chunks && Waiting(u, t)
            && !Aged(t.snd) && Sender.FastResent(t.snd) == []
  {
    var a, mid := i.ack.value, Sender.AckTurn(s.snd, i);
    NothingDue(s.snd, i.now);
    FewerAged(s.snd, mid);
    if a.Decoded? {
      OnAckGood(s.chunks, s.snd, s.acked, a);
      NotHelped(u, s, mid, s.rcv.seqnum);
    }
    assert !Sender.SendsChunk(s.snd, i) && !Sender.Ends(s.snd, i);
  }

  lemma LastAnsweredMove(u: Setup, n: Net, m: Move, ack: Packet)
    requires Sane(u, n) && Sane(u, Moved(n, m)) && LastAnswered(u, n, ack) && Possible(u, n, m)
    ensures Hopeless(u, Moved(n, m))
  {
    match m
    case Turn(i, k) =>
      if k == None {
        SpentTurn(u, n, m);
      } else {
        FromAck(ack, i.ack.value);
        LastAck(u, n.s, i, ack);
        assert Dead(u, Moved(n, m));
      }
    case Arrive(q, a) =>
    case LoseData(q) =>
    case LoseAck(lost) =>
      assert Dead(u, Moved(n, m));
  }

  lemma HopelessMove(u: Setup, n: Net, m: Move)
    requires Sane(u, n) && Sane(u, Moved(n, m)) && Hopeless(u, n) && Possible(u, n, m)
    ensures Hopeless(u, Moved(n, m))
  {
    if Dead(u, n) {
      DeadStays(u, n, m);
    } else if LastDue(u, n) {
      LastDueMove(u, n, m);
    } else if p :| LastUnderWay(u, n, p) {
      LastUnderWayMove(u, n, m, p);
    } else {
      var ack :| LastAnswered(u, n, ack);
      LastAnsweredMove(u, n, m, ack);
    }
  }

  lemma {:induction false} HopelessForever(u: Setup, run: seq<Net>, more: seq<Net>)
    requires NetRun(u, run) && NetRun(u, more) && run <= more && |u.plan| <= 255 && Hopeless(u, End(run))
    ensures Hopeless(u, End(more))
    decreases |more|
  {
    if |more| == |run| {
      assert more == run;
    } else {
      var init, m := LastMove(u, more);
      assert run <= init;
      HopelessForever(u, run, init);
      AlwaysSane(u, init);
      AlwaysSane(u, more);
      HopelessMove(u, End(init), m);
    }
  }

  // ----- a state with hope -----

  /** The packet that fast retransmit sends arrives, and its answer is under way. */
  lemma FastDelivered(u: Setup, run: seq<Net>) returns (more: seq<Net>)
    requires NetRun(u, run) && |u.plan| <= 255 && AllPassable(u.ch, u.plan)
    requires !End(run).s.finished && Waiting(u, End(run).s) && Sender.FastResent(End(run).s.snd) != []
    ensures NetRun(u, more) && run <= more && (Right(u, End(run).s) ==> Right(u, End(more).s))
    ensures var n, t := End(run).s, End(more).s;
            && t.chunks == n.chunks && !t.finished && AckOf(t.rcv) in End(more).up
            && t.rcv.seqnum == Answer(n, Sender.FastResent(n.snd)[0])
  {
    var n := End(run);
    AlwaysSane(u, run);
    FastOnce(n.s);
    var p := Sender.FastResent(n.s.snd)[0];
    IdleTurn(u, n, 0);
    var sent := StdTurn(u, run, 0, None);
    assert p in Sender.Resent(n.s.snd, Std(u, n, 0, None).i);
    more := Deliver(u, sent, p);
  }

  /** Up to date, a sender that is helped does not wait. */
  lemma HelpedReads(u: Setup, s: Session)
    requires NumbersGood(s) && Level(s) && Helps(u, s, s.rcv.seqnum)
    ensures !Waiting(u, s)
  {
    FreeSlots(s);
  }

  /** If fast retransmit is due and the answer helps, there is progress. */
  lemma ByFast(u: Setup, run: seq<Net>) returns (more: seq<Net>)
    requires NetRun(u, run) && |u.plan| <= 255 && AllPassable(u.ch, u.plan)
    requires !End(run).s.finished && Waiting(u, End(run).s) && Sender.FastResent(End(run).s.snd) != []
    requires Helps(u, End(run).s, Answer(End(run).s, Sender.FastResent(End(run).s.snd)[0]))
    ensures NetRun(u, more) && run <= more && Progress(End(run), End(more))
    ensures Right(u, End(run).s) ==> Right(u, End(more).s)
  {
    var answered := FastDelivered(u, run);
    more := AckBack(u, answered);
    if !Progress(End(answered), End(more)) {
      HelpedReads(u, End(more).s);
    }
  }

  /** Whatever is under way, a state that is alive can be completed. */
  lemma AliveEnds(u: Setup, run: seq<Net>) returns (more: seq<Net>)
    requires NetRun(u, run) && |u.plan| <= 255 && AllPassable(u.ch, u.plan)
    requires !End(run).s.finished && Alive(u, End(run).s)
    ensures NetRun(u, more) && run <= more && End(more).s.finished
    ensures Right(u, End(run).s) ==> Right(u, End(more).s)
  {
    if Aged(End(run).s.snd) {
      more := Recover(u, run);
    } else {
      var next: seq<Net>;
      if Waiting(u, End(run).s) {
        next := ByFast(u, run);
      } else {
        next := ReadOn(u, run);
      }
      more := Recover(u, next);
    }
  }

  // ----- the exact conditions -----

  /** Some continuation ends the sender's loop; with the whole input written. */
  ghost predicate CanEnd(u: Setup, run: seq<Net>) {
    exists more :: NetRun(u, more) && run <= more && End(more).s.finished
  }

  ghost predicate CanEndWell(u: Setup, run: seq<Net>) {
    exists more :: NetRun(u, more) && run <= more && End(more).s.finished && End(more).s.rcv.output == End(more).s.input
  }

  lemma {:induction false} LongerConcat(chunks: seq<seq<byte>>, n: nat)
    requires Chunks(chunks) && n < |chunks|
    ensures |Concat(chunks[..n])| < |Concat(chunks)|
  {
    NextChunk(chunks, n);
    ConcatPrefix(chunks, n + 1);
  }

  /** A run that ends has read everything. */
  lemma EndReadsAll(u: Setup, run: seq<Net>)
    requires NetRun(u, run) && |u.plan| <= 255 && End(run).s.finished
    ensures End(run).s.chunks == u.plan
  {
    AlwaysSane(u, run);
    var s := End(run).s;
    assert s.chunks == u.plan[..|s.chunks|];
    if |s.chunks| < |u.plan| {
      LongerConcat(u.plan, |s.chunks|);
    }
  }

  /** And every chunk could pass. */
  lemma EndNeedsPassable(u: Setup, run: seq<Net>)
    requires NetRun(u, run) && |u.plan| <= 255 && End(run).s.finished
    ensures AllPassable(u.ch, u.plan)
  {
    var w := Projected(u, run);
    EndReadsAll(u, run);
    forall k | 0 <= k < |u.plan| ensures Passable(u.ch, u.plan[k]) {
      if !Passable(u.ch, u.plan[k]) {
        NeverPassed(u.ch, w, k);
      }
    }
  }

  /** With nothing under way, a session of at most 255 chunks can still end exactly when every chunk can
      pass and the state is alive. */
  lemma CanEndIff(u: Setup, run: seq<Net>)
    requires NetRun(u, run) && |u.plan| <= 255 && Quiet(End(run)) && !End(run).s.finished
    ensures CanEnd(u, run) <==> AllPassable(u.ch, u.plan) && Alive(u, End(run).s)
  {
    if AllPassable(u.ch, u.plan) && Alive(u, End(run).s) {
      var more := AliveEnds(u, run);
    }
    if CanEnd(u, run) {
      var more :| NetRun(u, more) && run <= more && End(more).s.finished;
      EndNeedsPassable(u, more);
      if !Alive(u, End(run).s) {
        assert Hopeless(u, End(run));
        HopelessForever(u, run, more);
      }
    }
  }

  // ----- a file -----

  /** With an input that is always readable, the turn that frees the last slots reads on or ends. */
  lemma FileTurn(s: Session, i: Sender.Input)
    requires NumbersGood(s) && NumbersGood(SenderTurn(s, i)) && i.read.Some? && !SenderTurn(s, i).finished
    requires (s.chunks == [] || s.acked < |s.chunks|) && HighestAck(s.acked, i.ack) <= |s.chunks|
    ensures SenderTurn(s, i).acked < |SenderTurn(s, i).chunks|
  {
    if SenderTurn(s, i).acked == |s.chunks| && !Sender.SendsChunk(s.snd, i) {
      FreeSlots(SenderTurn(s, i));
    }
  }

  /** What arrives as an acknowledgement is of a number that the receiver has reached. */
  lemma AckedBelow(u: Setup, n: Net, m: Move)
    requires Sane(u, n) && Possible(u, n, m) && m.Turn?
    ensures HighestAck(n.s.acked, m.i.ack) <= |n.s.chunks|
  {
    if m.ack.Some? {
      FromAck(m.ack.value, m.i.ack.value);
    }
  }

  lemma {:induction false} FileHolds(u: Setup, run: seq<Net>)
    requires NetRun(u, run) && |u.plan| <= 255 && u.file
    ensures var s := End(run).s; s.finished || s.chunks == [] || s.acked < |s.chunks|
  {
    if |run| > 1 {
      var init, m := LastMove(u, run);
      FileHolds(u, init);
      AlwaysSane(u, init);
      AlwaysSane(u, run);
      if m.Turn? && !End(run).s.finished {
        AckedBelow(u, End(init), m);
        FileTurn(End(init).s, m.i);
      }
    }
  }

  /** With a file whose chunks can pass, a session that can no longer end, with nothing under way, holds
      packets, all stamped in the last second of a minute. */
  lemma FileStuck(u: Setup, run: seq<Net>)
    requires NetRun(u, run) && |u.plan| <= 255 && u.file && AllPassable(u.ch, u.plan)
    requires Quiet(End(run)) && !End(run).s.finished && !CanEnd(u, run)
    ensures var slots := End(run).s.snd.slots;
            && Occupied(slots) > 0
            && forall k :: 0 <= k < WINDOW_SIZE && slots[k].Some? ==> slots[k].value.timestamp >= LAST_SECOND
  {
    CanEndIff(u, run);
    FileHolds(u, run);
    AlwaysSane(u, run);
    FreeSlots(End(run).s);
    forall k | 0 <= k < WINDOW_SIZE && End(run).s.snd.slots[k].Some?
      ensures End(run).s.snd.slots[k].value.timestamp >= LAST_SECOND
    {
      assert !Sender.Older(End(run).s.snd.slots[k].value, LAST_SECOND);
    }
  }

  /** Pieces of the same lengths that give the same bytes are the same. */
  lemma {:induction false} SamePieces(ch: Channel, chunks: seq<seq<byte>>, ws: seq<seq<byte>>)
    requires StandsFor(ch, chunks, ws) && |ws| == |chunks| && Concat(ws) == Concat(chunks)
    ensures ws == chunks
    decreases |ws|
  {
    if ws != [] {
      var k := |ws| - 1;
      AcceptedLength(ch, chunks[k], ws[k]);
      SameLength(ch, chunks[..k], ws[..k]);
      var n := |Concat(ws[..k])|;
      assert Concat(ws)[..n] == Concat(ws[..k]) && Concat(chunks)[..n] == Concat(chunks[..k]);
      assert Concat(ws)[n..] == ws[k] && Concat(chunks)[n..] == chunks[k];
      SamePieces(ch, chunks[..k], ws[..k]);
      assert ws == ws[..k] + [ws[k]] && chunks == chunks[..k] + [chunks[k]];
    }
  }

  lemma {:induction false} SameLength(ch: Channel, chunks: seq<seq<byte>>, ws: seq<seq<byte>>)
    requires StandsFor(ch, chunks, ws) && |ws| == |chunks|
    ensures |Concat(ws)| == |Concat(chunks)|
    decreases |ws|
  {
    if ws != [] {
      var k := |ws| - 1;
      SameLength(ch, chunks[..k], ws[..k]);
      AcceptedLength(ch, chunks[k], ws[k]);
    }
  }

  /** Ending well takes that every chunk passes as it is. */
  lemma EndWellNeedsIntact(u: Setup, run: seq<Net>)
    requires NetRun(u, run) && |u.plan| <= 255 && End(run).s.finished && End(run).s.rcv.output == End(run).s.input
    ensures AllIntact(u.ch, u.plan)
  {
    var w := Projected(u, run);
    AlwaysSane(u, run);
    EndReadsAll(u, run);
    var ws := AlwaysWrote(u.ch, w);
    SamePieces(u.ch, u.plan, ws);
    forall k | 0 <= k < |u.plan| ensures Intact(u.ch, u.plan[k]) {
      assert Accepted(u.ch, u.plan[k], ws[k]);
      PassableIff(u.ch, u.plan[k]);
    }
  }

  /** And if what is written and held is right, it can end with the whole input written exactly when every
      chunk can pass as it is and the state is alive. */
  lemma CanEndWellIff(u: Setup, run: seq<Net>)
    requires NetRun(u, run) && |u.plan| <= 255 && Quiet(End(run)) && !End(run).s.finished
    requires ReceiverGood(End(run).s.chunks, End(run).s.rcv)
    ensures CanEndWell(u, run) <==> AllIntact(u.ch, u.plan) && Alive(u, End(run).s)
  {
    if AllIntact(u.ch, u.plan) && Alive(u, End(run).s) {
      var more := AliveEnds(u, run);
      AlwaysSane(u, more);
      assert End(more).s.chunks[..|End(more).s.chunks|] == End(more).s.chunks;
    }
    if CanEndWell(u, run) {
      var more :| NetRun(u, more) && run <= more && End(more).s.finished && End(more).s.rcv.output == End(more).s.input;
      EndWellNeedsIntact(u, more);
      assert CanEnd(u, run);
      CanEndIff(u, run);
    }
  }
}
