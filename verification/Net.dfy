/** The channel that loses datagrams but never repeats one. What is under way is kept in two bags, from
    which a delivery or a loss takes one datagram. Every run of this system is a run over
    bytes, so all that is proved of those holds here; what can be reached and what cannot is
    decided here. */
module Net {
  import opened Basics
  import opened Codec
  import opened Receiver
  import opened Transfer
  import opened Wire
  import Sender

  /** The channel, what the reads of the input return, in order (at its end, nothing), and whether the
      input is a file, which is always readable. */
  datatype Setup = Setup(ch: Channel, plan: seq<seq<byte>>, file: bool)

  /** A session together with the DATA packets and acknowledgements under way. */
  datatype Net = Net(s: Session, down: multiset<Packet>, up: multiset<Packet>)

  datatype Move =
    | Turn(i: Sender.Input, ack: Option<Packet>)
    | Arrive(p: Packet, a: Arrival)
    | LoseData(p: Packet)
    | LoseAck(lost: Packet)

  /** The last second of a minute, as `localtime` counts them. */
  const LAST_SECOND: bv32 := 59

  /** What the next read returns. */
  function NextRead(u: Setup, s: Session): seq<byte> {
    if |s.chunks| < |u.plan| then u.plan[|s.chunks|] else []
  }

  /** A turn of the sender's loop may find an acknowledgement, a readable input, or, when the writer of a
      pipe has gone, neither. */
  ghost predicate Possible(u: Setup, n: Net, m: Move) {
    match m
    case Turn(i, ack) =>
      && !n.s.finished && i.now <= LAST_SECOND && i.sendTime <= LAST_SECOND
      && (u.file ==> i.read.Some?)
      && (i.ack.Some? <==> ack.Some?)
      && (ack.Some? ==> ack.value in n.up && AckFrom(ack.value, i.ack.value))
      && (i.read.Some? ==> i.read.value == NextRead(u, n.s))
    case Arrive(p, a) => p in n.down && DataFrom(u.ch, p, a)
    case LoseData(p) => p in n.down
    case LoseAck(lost) => lost in n.up
  }

  function Taken(b: multiset<Packet>, o: Option<Packet>): multiset<Packet> {
    if o.Some? then b - multiset{o.value} else b
  }

  function Given(b: multiset<Packet>, o: Option<Packet>): multiset<Packet> {
    if o.Some? then b + multiset{o.value} else b
  }

  function Moved(n: Net, m: Move): Net {
    match m
    case Turn(i, ack) => Net(SenderTurn(n.s, i), n.down + multiset(Sender.Sent(n.s.snd, i)), Taken(n.up, ack))
    case Arrive(p, a) => Net(ReceiverTurn(n.s, a), n.down - multiset{p}, Given(n.up, Receive(n.s.rcv, a).1))
    case LoseData(p) => n.(down := n.down - multiset{p})
    case LoseAck(lost) => n.(up := n.up - multiset{lost})
  }

  /** Chunks as `read` returns them. */
  predicate Chunks(chunks: seq<seq<byte>>) {
    forall k :: 0 <= k < |chunks| ==> 0 < |chunks[k]| <= MAX_PAYLOAD_SIZE
  }

  function Begin(u: Setup): Net {
    Net(Session(Concat(u.plan), [], Sender.Start(), Receiver.Start(), {}, {}, 0, false), multiset{}, multiset{})
  }

  ghost predicate NetNext(u: Setup, n: Net, t: Net) {
    exists m :: Possible(u, n, m) && t == Moved(n, m)
  }

  ghost predicate NetRun(u: Setup, run: seq<Net>) {
    && Chunks(u.plan) && run != [] && run[0] == Begin(u)
    && forall i :: 0 <= i < |run| - 1 ==> NetNext(u, run[i], run[i + 1])
  }

  function End(run: seq<Net>): Net
    requires run != []
  {
    run[|run| - 1]
  }

  lemma NetPrefix(u: Setup, run: seq<Net>, k: nat)
    requires NetRun(u, run) && 0 < k <= |run|
    ensures NetRun(u, run[..k])
  {
    var init := run[..k];
    forall i | 0 <= i < |init| - 1 ensures NetNext(u, init[i], init[i + 1]) {
      assert NetNext(u, run[i], run[i + 1]);
    }
  }

  lemma LastMove(u: Setup, run: seq<Net>) returns (init: seq<Net>, m: Move)
    requires NetRun(u, run) && |run| > 1
    ensures init == run[..|run| - 1] && NetRun(u, init)
    ensures Possible(u, End(init), m) && End(run) == Moved(End(init), m)
  {
    init := run[..|run| - 1];
    NetPrefix(u, run, |run| - 1);
    assert End(init) == run[|run| - 2] && NetNext(u, run[|run| - 2], run[|run| - 1]);
    m :| Possible(u, End(init), m) && End(run) == Moved(End(init), m);
  }

  lemma NextAt(u: Setup, run: seq<Net>, t: Net, i: nat)
    requires NetRun(u, run) && NetNext(u, End(run), t) && i < |run|
    ensures NetNext(u, (run + [t])[i], (run + [t])[i + 1])
  {}

  lemma Go(u: Setup, run: seq<Net>, m: Move) returns (more: seq<Net>)
    requires NetRun(u, run) && Possible(u, End(run), m)
    ensures NetRun(u, more) && run <= more && End(more) == Moved(End(run), m)
  {
    var t := Moved(End(run), m);
    more := run + [t];
    forall i | 0 <= i < |run| ensures NetNext(u, more[i], more[i + 1]) {
      NextAt(u, run, t, i);
    }
  }

  // ----- projection -----

  /** What is under way was sent, and what was read is the first part of the plan. */
  ghost predicate Kept(u: Setup, n: Net) {
    && (forall p :: p in n.down ==> p in n.s.data)
    && (forall a :: a in n.up ==> a in n.s.acks)
    && Chunks(u.plan) && n.s.input == Concat(u.plan) && n.s.chunks <= u.plan
  }

  lemma PlanReadable(u: Setup, s: Session)
    requires Chunks(u.plan) && s.input == Concat(u.plan) && s.chunks <= u.plan
    ensures ReadPossible(s, NextRead(u, s))
  {
    var k := |s.chunks|;
    assert s.chunks == u.plan[..k];
    if k < |u.plan| {
      NextChunk(u.plan, k);
      ConcatPrefix(u.plan, k + 1);
    } else {
      assert s.chunks == u.plan;
    }
  }

  lemma SentIsData(s: Session, i: Sender.Input, down: multiset<Packet>)
    requires forall p :: p in down ==> p in s.data
    ensures forall p :: p in down + multiset(Sender.Sent(s.snd, i)) ==> p in SenderTurn(s, i).data
  {}

  lemma NextChunkRead(u: Setup, s: Session, i: Sender.Input)
    requires s.chunks <= u.plan && (i.read.Some? ==> i.read.value == NextRead(u, s))
    ensures SenderTurn(s, i).chunks <= u.plan
  {
    if Sender.SendsChunk(s.snd, i) {
      assert s.chunks + [u.plan[|s.chunks|]] == u.plan[..|s.chunks| + 1];
    }
  }

  lemma KeptMove(u: Setup, n: Net, m: Move)
    requires Kept(u, n) && Possible(u, n, m)
    ensures Kept(u, Moved(n, m))
  {
    match m
    case Turn(i, ack) =>
      SentIsData(n.s, i, n.down);
      NextChunkRead(u, n.s, i);
    case Arrive(p, a) =>
      AnswerKept(n, p, a);
    case LoseData(p) =>
    case LoseAck(lost) =>
  }

  lemma AnswerKept(n: Net, p: Packet, a: Arrival)
    requires forall ack :: ack in n.up ==> ack in n.s.acks
    ensures forall ack :: ack in Moved(n, Arrive(p, a)).up ==> ack in ReceiverTurn(n.s, a).acks
  {}

  lemma MoveOnWire(u: Setup, n: Net, m: Move) returns (l: Option<Step>)
    requires Kept(u, n) && Possible(u, n, m)
    ensures if l == None then Moved(n, m).s == n.s
            else WireEnabled(u.ch, n.s, l.value) && Moved(n, m).s == Apply(n.s, l.value)
  {
    match m
    case Turn(i, ack) =>
      PlanReadable(u, n.s);
      l := Some(SenderStep(i));
    case Arrive(p, a) =>
      assert DataDelivered(u.ch, n.s, a);
      l := Some(ReceiverStep(a));
    case LoseData(p) => l := None;
    case LoseAck(lost) => l := None;
  }

  /** Every run of this system goes through the sessions of a run over bytes. */
  lemma {:induction false} Projected(u: Setup, run: seq<Net>) returns (w: seq<Session>)
    requires NetRun(u, run)
    ensures Kept(u, End(run)) && WireRun(u.ch, w) && Last(w) == End(run).s
  {
    if |run| == 1 {
      w := [run[0].s];
    } else {
      var init, m := LastMove(u, run);
      w := Projected(u, init);
      KeptMove(u, End(init), m);
      var l := MoveOnWire(u, End(init), m);
      if l.Some? {
        w := WireExtend(u.ch, w, l.value);
      }
    }
  }
}
