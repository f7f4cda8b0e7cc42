/** How the sender recovers by its own means, when the channel never repeats a datagram: a packet that
    the timer can resend brings as many acknowledgements as are needed to have all
    others resent. */
module Recovery {
  import opened Basics
  import opened Codec
  import opened Receiver
  import opened Transfer
  import opened Wire
  import opened Shadow
  import opened Stall
  import opened Net
  import Sender

  // ----- what holds of every state -----

  ghost predicate Sane(u: Setup, n: Net) {
    Kept(u, n) && NumbersGood(n.s) && WellFormed(n.s) && |n.s.chunks| <= 255
  }

  lemma AlwaysSane(u: Setup, run: seq<Net>)
    requires NetRun(u, run) && |u.plan| <= 255
    ensures Sane(u, End(run))
  {
    var w := Projected(u, run);
    AlwaysNumbersGood(u.ch, w);
    AlwaysWellFormed(u.ch, w);
  }

  /** Some of the input is left. */
  predicate Left(u: Setup, s: Session) { |s.chunks| < |u.plan| }

  /** Some buffered packet was stamped before the last second of a minute, so the timer can resend it. */
  ghost predicate Aged(s: Sender.SenderState) {
    exists i :: 0 <= i < WINDOW_SIZE && s.slots[i].Some? && Sender.Older(s.slots[i].value, LAST_SECOND)
  }

  /** Without an acknowledgement, nothing more is read and the loop does not end. */
  predicate Waiting(u: Setup, s: Session) {
    !(Sender.CanSend(s.snd) && (Left(u, s) || s.snd.free == WINDOW_SIZE))
  }

  /** What is written and held is right, if every chunk can pass as it is. */
  ghost predicate Right(u: Setup, s: Session) {
    AllIntact(u.ch, u.plan) ==> ReceiverGood(s.chunks, s.rcv)
  }

  // ----- turns -----

  /** A turn in which the input is readable; a chunk that is read is stamped with second 0. */
  function Std(u: Setup, n: Net, now: bv32, ack: Option<Packet>): Move
    requires Chunks(u.plan)
  {
    var a := if ack.Some? then Some(Decoded(AsDecoded(ack.value))) else None;
    Turn(Sender.Input(now, a, Some(NextRead(u, n.s)), 0), ack)
  }

  lemma StdPossible(u: Setup, n: Net, now: bv32, ack: Option<Packet>)
    requires Sane(u, n) && !n.s.finished && now <= LAST_SECOND
    requires ack.Some? ==> ack.value in n.up
    ensures Possible(u, n, Std(u, n, now, ack))
  {
    if ack.Some? {
      PlainAck(ack.value);
    }
  }

  lemma StdTurn(u: Setup, run: seq<Net>, now: bv32, ack: Option<Packet>) returns (more: seq<Net>)
    requires NetRun(u, run) && |u.plan| <= 255 && !End(run).s.finished && now <= LAST_SECOND
    requires ack.Some? ==> ack.value in End(run).up
    ensures NetRun(u, more) && run <= more && End(more) == Moved(End(run), Std(u, End(run), now, ack))
    ensures Sane(u, End(more)) && (Right(u, End(run).s) ==> Right(u, End(more).s))
  {
    var n := End(run);
    var m := Std(u, n, now, ack);
    AlwaysSane(u, run);
    StdPossible(u, n, now, ack);
    more := Go(u, run, m);
    AlwaysSane(u, more);
    if Right(u, n.s) {
      TurnRight(u, n.s, m.i);
    }
  }

  lemma TurnRight(u: Setup, s: Session, i: Sender.Input)
    requires Right(u, s)
    ensures Right(u, SenderTurn(s, i))
  {
    if AllIntact(u.ch, u.plan) && Sender.SendsChunk(s.snd, i) {
      ReceiverGoodMore(s.chunks, i.read.value, s.rcv);
    }
  }

  lemma IdleSession(u: Setup, s: Session, i: Sender.Input)
    requires Waiting(u, s) && i.ack == None && i.read == Some(NextRead(u, s))
    ensures SenderTurn(s, i) == s.(snd := Sender.AfterFast(s.snd), data := SenderTurn(s, i).data, finished := false)
    ensures Sender.Sent(s.snd, i) == Sender.Resent(s.snd, i)
  {
    assert Sender.AckTurn(s.snd, i) == Sender.AfterFast(s.snd);
    assert !Sender.SendsChunk(s.snd, i) && !Sender.Ends(s.snd, i);
  }

  lemma InBag<T>(bag: multiset<T>, more: seq<T>)
    ensures bag <= bag + multiset(more) && forall x :: x in more ==> (bag + multiset(more))[x] > bag[x]
  {
    assert forall x :: x in more ==> x in multiset(more);
  }

  /** A turn without an acknowledgement, while the sender waits: at most it resends. */
  lemma IdleTurn(u: Setup, n: Net, now: bv32)
    requires Sane(u, n) && Waiting(u, n.s) && !n.s.finished
    ensures var t := Moved(n, Std(u, n, now, None));
            && t.s == n.s.(snd := Sender.AfterFast(n.s.snd), data := t.s.data)
            && n.down <= t.down && t.up == n.up
            && (forall p :: p in Sender.Resent(n.s.snd, Std(u, n, now, None).i) ==> t.down[p] > n.down[p])
  {
    var i := Std(u, n, now, None).i;
    IdleSession(u, n.s, i);
    InBag(n.down, Sender.Resent(n.s.snd, i));
  }

  /** A chunk just read is buffered with its stamp. */
  lemma ReadIsAged(s: Session, i: Sender.Input)
    requires NumbersGood(s) && NumbersGood(SenderTurn(s, i)) && Sender.SendsChunk(s.snd, i) && i.sendTime == 0
    ensures Aged(SenderTurn(s, i).snd)
  {
    var mid, slots := Sender.AckTurn(s.snd, i), SenderTurn(s, i).snd.slots;
    assert HeldIn(slots, |s.chunks|);
    var k :| 0 <= k < |slots| && Holds(slots[k], |s.chunks|);
    NewestSlot(s.snd.slots, mid.slots, slots, Sender.ChunkPacket(mid, i.read.value, i.sendTime), |s.chunks|, k);
  }

  lemma NewestSlot(before: Slots, mid: Slots, after: Slots, p: Packet, n: nat, k: nat)
    requires k < WINDOW_SIZE && Holds(after[k], n)
    requires forall i :: 0 <= i < WINDOW_SIZE && before[i].Some? ==> before[i].value.seqnum < n
    requires forall i :: 0 <= i < WINDOW_SIZE ==> mid[i] == None || mid[i] == before[i]
    requires forall i :: 0 <= i < WINDOW_SIZE ==> after[i] == mid[i] || after[i] == Some(p)
    ensures after[k] == Some(p)
  {}

  // ----- deliveries -----

  /** The chunk of a packet can pass. */
  predicate Deliverable(u: Setup, p: Packet) {
    p.seqnum < |u.plan| ==> Passable(u.ch, u.plan[p.seqnum])
  }

  /** A DATA packet under way is delivered, as it is if it can: the receiver moves on if it waits for it,
      and answers. */
  lemma Deliver(u: Setup, run: seq<Net>, p: Packet) returns (more: seq<Net>)
    requires NetRun(u, run) && |u.plan| <= 255 && p in End(run).down && Deliverable(u, p)
    ensures NetRun(u, more) && run <= more && Sane(u, End(more))
    ensures var n, t := End(run), End(more);
            && t.s == n.s.(rcv := t.s.rcv, acks := n.s.acks + {AckOf(t.s.rcv)})
            && t.down == n.down - multiset{p} && t.up == n.up + multiset{AckOf(t.s.rcv)}
            && t.s.rcv.seqnum == Receive(n.s.rcv, Decoded(p)).0.seqnum >= n.s.rcv.seqnum
            && (p.seqnum == n.s.rcv.seqnum ==> t.s.rcv.seqnum > n.s.rcv.seqnum)
            && (Right(u, n.s) ==> Right(u, t.s))
  {
    var n := End(run);
    AlwaysSane(u, run);
    assert Of(n.s.chunks, p) && Carries(n.s.chunks, p);
    ChunkOf(u, n.s, p);
    var w := PassFor(u.ch, p.payload.value);
    AcceptedArrives(u.ch, p, w);
    more := Go(u, run, Arrive(p, Decoded(WithPayload(p, w))));
    AlwaysSane(u, more);
    SameNumber(n.s.rcv, p, w);
    ReceiveNumbers(n.s.rcv, p, |n.s.chunks|);
    if Right(u, n.s) {
      DeliverRight(u, n.s, p, w);
    }
  }

  lemma ChunkOf(u: Setup, s: Session, p: Packet)
    requires s.chunks <= u.plan && DataForm(p) && Carries(s.chunks, p)
    ensures p.seqnum < |u.plan| && p.payload.value == u.plan[p.seqnum] == s.chunks[p.seqnum]
  {
    WholePayload(p, p.payload.value);
  }

  lemma SameNumber(r: ReceiverState, p: Packet, w: seq<byte>)
    ensures Receive(r, Decoded(WithPayload(p, w))).0.seqnum == Receive(r, Decoded(p)).0.seqnum
  {
    ReceiveAlike(r, r, Decoded(WithPayload(p, w)), Decoded(p));
  }

  lemma DeliverRight(u: Setup, s: Session, p: Packet, w: seq<byte>)
    requires Right(u, s) && s.chunks <= u.plan && |s.chunks| <= 255 && DataForm(p) && Carries(s.chunks, p)
    requires Intact(u.ch, p.payload.value) ==> w == p.payload.value
    ensures Right(u, ReceiverTurn(s, Decoded(WithPayload(p, w))))
  {
    if AllIntact(u.ch, u.plan) {
      ChunkOf(u, s, p);
      assert WithPayload(p, w) == p;
      ReceiveGood(s.chunks, s.rcv, Decoded(p));
    }
  }

  // ----- acknowledgements -----

  /** The sender is up to date. */
  predicate Level(s: Session) {
    s.snd.lastack == s.acked == s.rcv.seqnum
  }

  /** The next chunk was read, and its packet is under way. */
  ghost predicate ReadNext(n: Net, t: Net) {
    |t.s.chunks| == |n.s.chunks| + 1 && exists p :: p in t.down && p.seqnum == |n.s.chunks|
  }

  /** A turn reads one chunk at most. */
  lemma ReadsOne(n: Net, m: Move)
    requires m.Turn? && NumbersGood(n.s) && |n.s.chunks| <= 255
    ensures |Moved(n, m).s.chunks| > |n.s.chunks| ==> ReadNext(n, Moved(n, m))
    ensures Moved(n, m).s.finished ==> Moved(n, m).s.chunks == n.s.chunks
  {
    if Sender.SendsChunk(n.s.snd, m.i) {
      var p := Sender.ChunkPacket(Sender.AckTurn(n.s.snd, m.i), m.i.read.value, m.i.sendTime);
      assert p in Sender.Sent(n.s.snd, m.i);
      InBag(n.down, Sender.Sent(n.s.snd, m.i));
      assert p in Moved(n, m).down;
    }
  }

  /** What is read in such a turn can be resent. */
  lemma StdReads(u: Setup, n: Net, now: bv32, ack: Option<Packet>)
    requires Sane(u, n) && Sane(u, Moved(n, Std(u, n, now, ack))) && |u.plan| <= 255
    ensures var t := Moved(n, Std(u, n, now, ack));
            && (|t.s.chunks| > |n.s.chunks| ==> ReadNext(n, t) && Aged(t.s.snd))
            && (t.s.finished ==> t.s.chunks == n.s.chunks)
  {
    var m := Std(u, n, now, ack);
    ReadsOne(n, m);
    if Sender.SendsChunk(n.s.snd, m.i) {
      ReadIsAged(n.s, m.i);
    }
  }

  /** The loop has ended, or more was read, and can be resent. */
  ghost predicate Progress(n: Net, t: Net) {
    t.s.finished || (Aged(t.s.snd) && |t.s.chunks| > |n.s.chunks|)
  }

  lemma FreeSlots(s: Session)
    requires NumbersGood(s)
    ensures s.snd.free == WINDOW_SIZE - (|s.chunks| - s.acked) && s.snd.seqnum == |s.chunks|
  {
    IntervalOccupied(s.snd.slots, s.acked, |s.chunks|);
  }

  /** The sender is level and waits, and has read nothing; the count goes up if it was level before. */
  ghost predicate Levelled(u: Setup, s: Session, t: Session) {
    && Level(t) && Waiting(u, t) && !t.finished && t.chunks == s.chunks
    && t.snd.count == Sender.AfterFast(s.snd).count + (if s.snd.lastack == s.rcv.seqnum then 1 else 0)
  }

  lemma AckLevels(u: Setup, n: Net)
    requires Sane(u, n) && !n.s.finished && Sane(u, Moved(n, Std(u, n, 0, Some(AckOf(n.s.rcv)))))
    ensures var t := Moved(n, Std(u, n, 0, Some(AckOf(n.s.rcv))));
            && n.down <= t.down && t.s.rcv == n.s.rcv
            && (t.s.finished || |t.s.chunks| > |n.s.chunks| || Levelled(u, n.s, t.s))
  {
    var m := Std(u, n, 0, Some(AckOf(n.s.rcv)));
    InBag(n.down, Sender.Sent(n.s.snd, m.i));
    AckTurns(u, n.s, m.i);
  }

  lemma AckTurns(u: Setup, s: Session, i: Sender.Input)
    requires NumbersGood(s) && NumbersGood(SenderTurn(s, i)) && s.chunks <= u.plan && Chunks(u.plan) && !s.finished
    requires i.ack == Some(Decoded(AsDecoded(AckOf(s.rcv)))) && i.read == Some(NextRead(u, s))
    ensures var t := SenderTurn(s, i); t.finished || |t.chunks| > |s.chunks| || Levelled(u, s, t)
  {
    if !Sender.SendsChunk(s.snd, i) && !Sender.Ends(s.snd, i) {
      AckIdles(u, s, i);
    }
  }

  lemma AckIdles(u: Setup, s: Session, i: Sender.Input)
    requires NumbersGood(s) && NumbersGood(SenderTurn(s, i)) && s.chunks <= u.plan && Chunks(u.plan) && !s.finished
    requires i.ack == Some(Decoded(AsDecoded(AckOf(s.rcv)))) && i.read == Some(NextRead(u, s))
    requires !Sender.SendsChunk(s.snd, i) && !Sender.Ends(s.snd, i)
    ensures Levelled(u, s, SenderTurn(s, i))
  {}

  /** An acknowledgement of what is expected now brings progress or makes the sender level, still waiting. */
  lemma AckBack(u: Setup, run: seq<Net>) returns (more: seq<Net>)
    requires NetRun(u, run) && |u.plan| <= 255 && !End(run).s.finished && AckOf(End(run).s.rcv) in End(run).up
    ensures NetRun(u, more) && run <= more && Sane(u, End(more)) && (Right(u, End(run).s) ==> Right(u, End(more).s))
    ensures |End(more).s.chunks| > |End(run).s.chunks| ==> ReadNext(End(run), End(more))
    ensures End(more).s.finished ==> End(more).s.chunks == End(run).s.chunks
    ensures var n, t := End(run), End(more);
            && n.down <= t.down && t.s.rcv == n.s.rcv
            && (Progress(n, t) || Levelled(u, n.s, t.s))
  {
    var ack := AckOf(End(run).s.rcv);
    AlwaysSane(u, run);
    more := StdTurn(u, run, 0, Some(ack));
    StdReads(u, End(run), 0, Some(ack));
    AckLevels(u, End(run));
  }

  // ----- a packet that the timer can resend -----

  lemma TimerResends(u: Setup, n: Net, p: Packet)
    requires Sane(u, n) && Some(p) in n.s.snd.slots && Sender.Older(p, LAST_SECOND)
    ensures p in Sender.Resent(n.s.snd, Std(u, n, LAST_SECOND, None).i) && n.s.snd.free < WINDOW_SIZE
  {
    TimerGuard(n.s.chunks, n.s.snd, n.s.acked, p);
    Sender.SelectBuffered(n.s.snd.slots, Sender.Due(LAST_SECOND, n.s.snd.seqnum), p);
  }

  /** Before anything else happens, it can be brought under way any number of times. */
  lemma {:induction false} Stock(u: Setup, run: seq<Net>, p: Packet, k: nat) returns (more: seq<Net>)
    requires NetRun(u, run) && |u.plan| <= 255 && !End(run).s.finished && Waiting(u, End(run).s)
    requires Some(p) in End(run).s.snd.slots && Sender.Older(p, LAST_SECOND)
    ensures NetRun(u, more) && run <= more && (Right(u, End(run).s) ==> Right(u, End(more).s))
    ensures var n, t := End(run), End(more);
            && t.down[p] >= k && t.up == n.up
            && t.s == n.s.(snd := n.s.snd.(count := t.s.snd.count), data := t.s.data)
    decreases k
  {
    if k == 0 {
      more := run;
    } else {
      var before := Stock(u, run, p, k - 1);
      AlwaysSane(u, before);
      IdleTurn(u, End(before), LAST_SECOND);
      TimerResends(u, End(before), p);
      more := StdTurn(u, before, LAST_SECOND, None);
    }
  }

  function Counted(count: nat): nat { if count < 3 then count else 3 }

  /** How many more acknowledgements it takes to have all that is missing resent. */
  function Need(s: Session): int { 3 * (|s.chunks| - s.rcv.seqnum) - Counted(s.snd.count) }

  /** With three repeated acknowledgements, the packet that the receiver waits for comes. */
  lemma AskAgain(u: Setup, run: seq<Net>) returns (more: seq<Net>)
    requires NetRun(u, run) && |u.plan| <= 255 && AllPassable(u.ch, u.plan)
    requires Level(End(run).s) && Waiting(u, End(run).s) && !End(run).s.finished && End(run).s.snd.count >= 3
    requires End(run).s.rcv.seqnum < |End(run).s.chunks|
    ensures NetRun(u, more) && run <= more && (Right(u, End(run).s) ==> Right(u, End(more).s))
    ensures var n, t := End(run), End(more);
            && n.down <= t.down && t.s.chunks == n.s.chunks && !t.s.finished && t.s.snd.count == 0
            && t.s.snd.lastack == n.s.snd.lastack
            && t.s.rcv.seqnum > n.s.rcv.seqnum && AckOf(t.s.rcv) in t.up
  {
    var n := End(run);
    AlwaysSane(u, run);
    var p := Asked(n.s);
    IdleTurn(u, n, 0);
    var sent := StdTurn(u, run, 0, None);
    assert p in Sender.Resent(n.s.snd, Std(u, n, 0, None).i);
    more := Deliver(u, sent, p);
    CopyKept(n.down, End(sent).down, p);
  }

  lemma CopyKept(before: multiset<Packet>, sent: multiset<Packet>, p: Packet)
    requires before <= sent && sent[p] > before[p]
    ensures before <= sent - multiset{p}
  {}

  /** The packet that fast retransmit sends: the one that the receiver waits for. */
  lemma Asked(s: Session) returns (p: Packet)
    requires NumbersGood(s) && Level(s) && s.snd.count >= 3 && s.rcv.seqnum < |s.chunks|
    ensures p in Sender.FastResent(s.snd) && p.seqnum == s.rcv.seqnum && Sender.AfterFast(s.snd) == s.snd.(count := 0)
  {
    assert HeldIn(s.snd.slots, s.snd.lastack);
    SelectNumber(s.snd.slots, s.snd.lastack);
    p := Sender.FastResent(s.snd)[0];
  }

  /** One copy of p, whatever its number, brings one acknowledgement. */
  lemma UseCopy(u: Setup, run: seq<Net>, p: Packet) returns (more: seq<Net>)
    requires NetRun(u, run) && |u.plan| <= 255 && AllPassable(u.ch, u.plan) && p in End(run).down
    requires !End(run).s.finished
    ensures NetRun(u, more) && run <= more && (Right(u, End(run).s) ==> Right(u, End(more).s))
    ensures var n, t := End(run), End(more);
            || Progress(n, t)
            || (&& Level(t.s) && Waiting(u, t.s) && !t.s.finished && t.s.chunks == n.s.chunks
                && t.down[p] >= n.down[p] - 1 && t.s.rcv.seqnum >= n.s.rcv.seqnum
                && t.s.snd.count == Sender.AfterFast(n.s.snd).count
                                    + (if n.s.snd.lastack == t.s.rcv.seqnum then 1 else 0))
  {
    var next := Deliver(u, run, p);
    more := AckBack(u, next);
  }

  lemma StillMissing(u: Setup, s: Session)
    requires NumbersGood(s) && Level(s) && Waiting(u, s)
    ensures s.rcv.seqnum < |s.chunks|
  {
    FreeSlots(s);
  }

  /** Level, waiting, and with enough copies of p under way. */
  ghost predicate Supplied(u: Setup, n: Net, p: Packet) {
    Level(n.s) && Waiting(u, n.s) && !n.s.finished && n.down[p] >= Need(n.s)
  }

  function Missing(s: Session): int { |s.chunks| - s.rcv.seqnum }

  /** With a copy, or with three repeated acknowledgements, there is progress, or less is missing. */
  lemma CatchUpStep(u: Setup, run: seq<Net>, p: Packet) returns (more: seq<Net>)
    requires NetRun(u, run) && |u.plan| <= 255 && AllPassable(u.ch, u.plan) && Supplied(u, End(run), p)
    ensures NetRun(u, more) && run <= more && (Right(u, End(run).s) ==> Right(u, End(more).s))
    ensures var n, t := End(run), End(more);
            || Progress(n, t)
            || (&& Supplied(u, t, p) && t.s.chunks == n.s.chunks
                && (|| Missing(t.s) < Missing(n.s)
                    || (Missing(t.s) == Missing(n.s) && Counted(t.s.snd.count) > Counted(n.s.snd.count))))
  {
    var n := End(run);
    AlwaysSane(u, run);
    StillMissing(u, n.s);
    if n.s.snd.count < 3 {
      more := UseCopy(u, run, p);
    } else {
      var asked := AskAgain(u, run);
      more := AckBack(u, asked);
    }
  }

  /** A level sender with enough copies of some packet under way makes progress. */
  lemma {:induction false} CatchUp(u: Setup, run: seq<Net>, p: Packet) returns (more: seq<Net>)
    requires NetRun(u, run) && |u.plan| <= 255 && AllPassable(u.ch, u.plan) && Supplied(u, End(run), p)
    ensures NetRun(u, more) && run <= more && Progress(End(run), End(more))
    ensures Right(u, End(run).s) ==> Right(u, End(more).s)
    decreases Missing(End(run).s), 3 - Counted(End(run).s.snd.count)
  {
    AlwaysSane(u, run);
    var next := CatchUpStep(u, run, p);
    if Progress(End(run), End(next)) {
      more := next;
    } else {
      AlwaysSane(u, next);
      more := CatchUp(u, next, p);
    }
  }

  /** From a waiting state with a packet that the timer can resend. */
  lemma ByTimer(u: Setup, run: seq<Net>) returns (more: seq<Net>)
    requires NetRun(u, run) && |u.plan| <= 255 && AllPassable(u.ch, u.plan)
    requires Aged(End(run).s.snd) && Waiting(u, End(run).s) && !End(run).s.finished
    ensures NetRun(u, more) && run <= more && Progress(End(run), End(more))
    ensures Right(u, End(run).s) ==> Right(u, End(more).s)
  {
    var n := End(run);
    var i :| 0 <= i < WINDOW_SIZE && n.s.snd.slots[i].Some? && Sender.Older(n.s.snd.slots[i].value, LAST_SECOND);
    var p := n.s.snd.slots[i].value;
    var many := Stock(u, run, p, 49);
    var next := Quieted(u, many, p);
    if Progress(n, End(next)) {
      more := next;
    } else {
      AlwaysSane(u, next);
      more := CatchUp(u, next, p);
    }
  }

  /** The first copy, which makes the sender level. */
  lemma Quieted(u: Setup, run: seq<Net>, p: Packet) returns (more: seq<Net>)
    requires NetRun(u, run) && |u.plan| <= 255 && AllPassable(u.ch, u.plan) && End(run).down[p] >= 49
    requires Waiting(u, End(run).s) && !End(run).s.finished
    ensures NetRun(u, more) && run <= more && (Right(u, End(run).s) ==> Right(u, End(more).s))
    ensures var n, t := End(run), End(more);
            || Progress(n, t)
            || (Supplied(u, t, p) && t.s.chunks == n.s.chunks)
  {
    more := UseCopy(u, run, p);
    AlwaysSane(u, more);
  }

  lemma ReadsOrEnds(u: Setup, n: Net)
    requires Sane(u, n) && !Waiting(u, n.s)
    ensures var t := Moved(n, Std(u, n, 0, None));
            t.s.rcv == n.s.rcv && (t.s.finished || |t.s.chunks| > |n.s.chunks|)
  {
    assert Sender.AckTurn(n.s.snd, Std(u, n, 0, None).i) == Sender.AfterFast(n.s.snd);
  }

  /** A sender that does not wait reads or ends. */
  lemma ReadOn(u: Setup, run: seq<Net>) returns (more: seq<Net>)
    requires NetRun(u, run) && |u.plan| <= 255 && !Waiting(u, End(run).s) && !End(run).s.finished
    ensures NetRun(u, more) && run <= more && Progress(End(run), End(more)) && End(more).s.rcv == End(run).s.rcv
    ensures |End(more).s.chunks| > |End(run).s.chunks| ==> ReadNext(End(run), End(more))
    ensures End(more).s.finished ==> End(more).s.chunks == End(run).s.chunks
    ensures Right(u, End(run).s) ==> Right(u, End(more).s)
  {
    var n := End(run);
    AlwaysSane(u, run);
    more := StdTurn(u, run, 0, None);
    StdReads(u, n, 0, None);
    ReadsOrEnds(u, n);
  }

  /** With a packet that the timer can resend, the transfer can be completed. */
  lemma {:induction false} Recover(u: Setup, run: seq<Net>) returns (more: seq<Net>)
    requires NetRun(u, run) && |u.plan| <= 255 && AllPassable(u.ch, u.plan)
    requires End(run).s.finished || Aged(End(run).s.snd)
    ensures NetRun(u, more) && run <= more && End(more).s.finished
    ensures Right(u, End(run).s) ==> Right(u, End(more).s)
    decreases |u.plan| - |End(run).s.chunks|
  {
    AlwaysSane(u, run);
    if End(run).s.finished {
      more := run;
    } else {
      var next: seq<Net>;
      if Waiting(u, End(run).s) {
        next := ByTimer(u, run);
      } else {
        next := ReadOn(u, run);
      }
      more := next;
      if !End(next).s.finished {
        AlwaysSane(u, next);
        more := Recover(u, next);
      }
    }
  }
}
