/** Runs over a channel that never repeats a datagram: two after which the sender is dead, and one in
    which a late copy is written. */
module DeadEnds {
  import opened Basics
  import opened Codec
  import opened Receiver
  import opened Transfer
  import opened Wire
  import opened Net
  import opened Recovery
  import opened Completion
  import W = WrapAround
  import Sender

  // ----- moves in which nothing is lost or damaged -----

  predicate Clean(m: Move) {
    match m
    case Turn(i, ack) => i.ack.Some? ==> i.ack.value.Decoded?
    case Arrive(p, a) => a.Decoded?
    case LoseData(p) => false
    case LoseAck(lost) => false
  }

  ghost predicate CleanNext(u: Setup, n: Net, t: Net) {
    exists m :: Possible(u, n, m) && Clean(m) && t == Moved(n, m)
  }

  ghost predicate CleanRun(u: Setup, run: seq<Net>) {
    NetRun(u, run) && forall i :: 0 <= i < |run| - 1 ==> CleanNext(u, run[i], run[i + 1])
  }

  lemma CleanAt(u: Setup, run: seq<Net>, t: Net, i: nat)
    requires CleanRun(u, run) && CleanNext(u, End(run), t) && i < |run|
    ensures CleanNext(u, (run + [t])[i], (run + [t])[i + 1])
  {}

  lemma GoClean(u: Setup, run: seq<Net>, m: Move) returns (more: seq<Net>)
    requires CleanRun(u, run) && Possible(u, End(run), m) && Clean(m)
    ensures CleanRun(u, more) && run <= more && End(more) == Moved(End(run), m)
  {
    var t := Moved(End(run), m);
    more := run + [t];
    forall i | 0 <= i < |run| ensures CleanNext(u, more[i], more[i + 1]) && NetNext(u, more[i], more[i + 1]) {
      CleanAt(u, run, t, i);
      NextAt(u, run, t, i);
    }
  }

  // ----- in lockstep, with something held up -----

  /** One byte for each of n chunks, from an input that is not always readable. */
  function Bytes(n: nat): Setup { Setup(Direct, W.Chunks(n), false) }

  /** The sender's state; k chunks written, nothing held by the receiver; some chunks read; and what is
      under way. */
  ghost predicate At(n: Net, snd: Sender.SenderState, k: nat, read: nat, down: multiset<Packet>, up: multiset<Packet>) {
    && n.s.snd == snd && n.s.rcv == Written(k) && n.s.chunks == W.Chunks(read) && !n.s.finished
    && n.down == down && n.up == up
  }

  function Written(k: nat): ReceiverState { ReceiverState(k % 256, WINDOW_SIZE, W.NoSlots(), W.Repeat(k)) }

  function Idle(k: uint8): Sender.SenderState { Sender.SenderState(k, k, 0, WINDOW_SIZE, W.NoSlots()) }

  function OneSent(k: uint8): Sender.SenderState {
    Sender.SenderState(IncSeqnum(k), k, 0, 30, W.NoSlots()[0 := Some(W.ChunkNo(k, 30))])
  }

  /** What has been sent is written and acknowledged; `down` and `up` are held up. */
  ghost predicate Locked(n: Net, k: uint8, down: multiset<Packet>, up: multiset<Packet>) {
    At(n, Idle(k), k, k, down, up)
  }

  function ReadMove(now: bv32): Move { Turn(Sender.Input(now, None, Some([W.A]), 0), None) }

  function ArriveMove(p: Packet): Move { Arrive(p, Decoded(p)) }

  function AckMove(k: uint8): Move {
    Turn(Sender.Input(0, Some(Decoded(AsDecoded(W.AckNo(k)))), None, 0), Some(W.AckNo(k)))
  }

  lemma BytesFacts(n: nat)
    ensures Chunks(Bytes(n).plan) && Concat(Bytes(n).plan) == W.Repeat(n) && |Bytes(n).plan| == n
  {
    W.ConcatChunks(n);
  }

  lemma ReadPossibleNow(n: nat, t: Net, k: nat, now: bv32)
    requires k < n && t.s.chunks == W.Chunks(k) && !t.s.finished && now <= LAST_SECOND
    ensures Possible(Bytes(n), t, ReadMove(now))
  {}

  lemma ArrivePossible(u: Setup, t: Net, p: Packet)
    requires u.ch == Direct && p in t.down && DataForm(p)
    ensures Possible(u, t, ArriveMove(p)) && Clean(ArriveMove(p))
  {
    WholeArrival(p);
  }

  lemma AckPossible(n: nat, t: Net, k: uint8)
    requires !t.s.finished && W.AckNo(k) in t.up
    ensures Possible(Bytes(n), t, AckMove(k)) && Clean(AckMove(k))
  {
    PlainAck(W.AckNo(k));
  }

  /** What the sender does in a turn: the packets sent, its next state, and whether it reads more. */
  predicate Does(s: Sender.SenderState, i: Sender.Input, sent: seq<Packet>, t: Sender.SenderState, more: bool) {
    && Sender.Sent(s, i) == sent && Sender.Turn(s, i) == t && Sender.SendsChunk(s, i) == more && !Sender.Ends(s, i)
  }

  lemma GoRead(n: nat, run: seq<Net>, now: bv32, snd: Sender.SenderState, sent: seq<Packet>, t: Sender.SenderState,
               k: nat, read: nat, down: multiset<Packet>, up: multiset<Packet>) returns (more: seq<Net>)
    requires CleanRun(Bytes(n), run) && At(End(run), snd, k, read, down, up) && read < n && now <= LAST_SECOND
    requires Does(snd, ReadMove(now).i, sent, t, true)
    ensures CleanRun(Bytes(n), more) && At(End(more), t, k, read + 1, down + multiset(sent), up)
  {
    assert W.Chunks(read) + [[W.A]] == W.Chunks(read + 1);
    ReadPossibleNow(n, End(run), read, now);
    more := GoClean(Bytes(n), run, ReadMove(now));
  }

  lemma ArriveInLock(k: nat, w: uint5)
    ensures Receive(Written(k), Decoded(W.ChunkNo(k % 256, w))) == (Written(k + 1), Some(W.AckNo((k + 1) % 256)))
  {
    assert Payload(W.ChunkNo(k % 256, w)) == [W.A] && W.Repeat(k) + [W.A] == W.Repeat(k + 1);
    W.DrainNothing(Written(k).(seqnum := IncSeqnum(k % 256), output := W.Repeat(k + 1)), 0);
  }

  lemma GoArrive(n: nat, run: seq<Net>, w: uint5, snd: Sender.SenderState,
                 k: nat, read: nat, down: multiset<Packet>, up: multiset<Packet>) returns (more: seq<Net>)
    requires CleanRun(Bytes(n), run) && At(End(run), snd, k, read, down, up) && W.ChunkNo(k % 256, w) in down
    ensures CleanRun(Bytes(n), more)
    ensures At(End(more), snd, k + 1, read, down - multiset{W.ChunkNo(k % 256, w)},
               up + multiset{W.AckNo((k + 1) % 256)})
  {
    ArriveInLock(k, w);
    ArrivePossible(Bytes(n), End(run), W.ChunkNo(k % 256, w));
    more := GoClean(Bytes(n), run, ArriveMove(W.ChunkNo(k % 256, w)));
  }

  lemma GoAck(n: nat, run: seq<Net>, x: uint8, snd: Sender.SenderState, t: Sender.SenderState,
              k: nat, read: nat, down: multiset<Packet>, up: multiset<Packet>) returns (more: seq<Net>)
    requires CleanRun(Bytes(n), run) && At(End(run), snd, k, read, down, up) && W.AckNo(x) in up
    requires Does(snd, AckMove(x).i, [], t, false)
    ensures CleanRun(Bytes(n), more) && At(End(more), t, k, read, down, up - multiset{W.AckNo(x)})
  {
    AckPossible(n, End(run), x);
    more := GoClean(Bytes(n), run, AckMove(x));
    assert down + multiset([]) == down;
  }

  lemma ReadFromLock(k: uint8)
    ensures Does(Idle(k), ReadMove(0).i, [W.ChunkNo(k, 30)], OneSent(k), true)
  {
    assert Sender.AckTurn(Idle(k), ReadMove(0).i) == Idle(k) && FirstHole(Idle(k).slots) == 0;
  }

  lemma AckInLock(k: uint8)
    requires k < 255
    ensures Does(OneSent(k), AckMove(k + 1).i, [], Idle(k + 1), false)
  {
    W.NothingDue(OneSent(k).slots, 0, k + 1);
    assert Sender.Freed(OneSent(k).slots, k + 1, k + 1) == W.NoSlots();
    OccupiedUpdate(W.NoSlots(), 0, Some(W.ChunkNo(k, 30)));
  }

  /** A chunk is read and delivered. */
  lemma HalfRound(n: nat, run: seq<Net>, k: uint8, down: multiset<Packet>, up: multiset<Packet>)
    returns (more: seq<Net>)
    requires CleanRun(Bytes(n), run) && Locked(End(run), k, down, up) && k < n
    ensures CleanRun(Bytes(n), more)
    ensures At(End(more), OneSent(k), k + 1, k + 1, down, up + multiset{W.AckNo(IncSeqnum(k))})
  {
    var p := W.ChunkNo(k, 30);
    ReadFromLock(k);
    var read := GoRead(n, run, 0, Idle(k), [p], OneSent(k), k, k, down, up);
    more := GoArrive(n, read, 30, OneSent(k), k, k + 1, down + multiset([p]), up);
    assert down + multiset([p]) - multiset{p} == down;
  }

  lemma Round(n: nat, run: seq<Net>, k: uint8, down: multiset<Packet>, up: multiset<Packet>) returns (more: seq<Net>)
    requires CleanRun(Bytes(n), run) && Locked(End(run), k, down, up) && k < n && k < 255
    ensures CleanRun(Bytes(n), more) && Locked(End(more), k + 1, down, up)
  {
    var ack := W.AckNo(k + 1);
    var half := HalfRound(n, run, k, down, up);
    AckInLock(k);
    more := GoAck(n, half, k + 1, OneSent(k), Idle(k + 1), k + 1, k + 1, down, up + multiset{ack});
    assert up + multiset{ack} - multiset{ack} == up;
  }

  lemma {:induction false} Rounds(n: nat, run: seq<Net>, k: nat, last: nat, down: multiset<Packet>,
                                  up: multiset<Packet>)
    returns (more: seq<Net>)
    requires k <= last <= n && last <= 255
    requires CleanRun(Bytes(n), run) && Locked(End(run), k, down, up)
    ensures CleanRun(Bytes(n), more) && Locked(End(more), last, down, up)
    decreases last - k
  {
    more := run;
    if k < last {
      more := Round(n, run, k, down, up);
      more := Rounds(n, more, k + 1, last, down, up);
    }
  }

  lemma BeginLocked(n: nat)
    ensures CleanRun(Bytes(n), [Begin(Bytes(n))]) && Locked(Begin(Bytes(n)), 0, multiset{}, multiset{})
  {
    BytesFacts(n);
    assert W.Repeat(0) == [];
    assert W.Chunks(0) == [];
  }

  // ----- the first two chunks -----

  function TwoSlots(): Slots {
    W.NoSlots()[0 := Some(W.ChunkNo(0, 30))][1 := Some(W.ChunkNo(1, 29))]
  }

  function TwoSent(): Sender.SenderState { Sender.SenderState(2, 0, 0, 29, TwoSlots()) }

  function SecondSent(): Sender.SenderState { Sender.SenderState(2, 1, 0, 30, TwoSlots()[0 := None]) }

  lemma {:induction false} FirstIsOlder(slots: seq<Option<Packet>>, now: bv32, seqnum: uint8)
    requires slots != [] && slots[0] == Some(W.ChunkNo(0, 30)) && forall i :: 1 <= i < |slots| ==> slots[i] == None
    ensures Sender.Select(slots, Sender.Due(now, seqnum)) == if now == 0 then [] else [W.ChunkNo(0, 30)]
  {
    if |slots| > 1 {
      FirstIsOlder(slots[..|slots| - 1], now, seqnum);
    } else {
      assert slots[..0] == [];
    }
  }

  /** The second chunk is read while the first is not acknowledged; in second 1 the first is sent again. */
  lemma SecondRead(now: bv32)
    ensures Does(OneSent(0), ReadMove(now).i, Copies(now) + [W.ChunkNo(1, 29)],
                 TwoSent(), true)
  {
    FirstIsOlder(OneSent(0).slots, now, 1);
    assert Sender.AckTurn(OneSent(0), ReadMove(now).i) == OneSent(0);
    W.HoleAt(OneSent(0).slots, 1);
  }

  lemma TwoOccupied()
    ensures Occupied(TwoSlots()) == 2 && Occupied(TwoSlots()[0 := None]) == 1 && Occupied(W.NoSlots()) == 0
  {
    NoneOccupied(WINDOW_SIZE);
    OccupiedUpdate(W.NoSlots(), 0, Some(W.ChunkNo(0, 30)));
    OccupiedUpdate(W.NoSlots()[0 := Some(W.ChunkNo(0, 30))], 1, Some(W.ChunkNo(1, 29)));
    OccupiedUpdate(TwoSlots(), 0, None);
  }

  lemma Acked(s: Sender.SenderState, x: uint8, t: Sender.SenderState)
    requires s.count == 0 && s.lastack != x && s.seqnum == t.seqnum && t.count == 0 && t.lastack == x
    requires Sender.Freed(s.slots, x, s.seqnum) == t.slots
    requires t.free == (s.free + Occupied(s.slots) - Occupied(t.slots)) % 256
    ensures Does(s, AckMove(x).i, [], t, false)
  {
    W.NothingDue(s.slots, 0, s.seqnum);
  }

  lemma BothFreed()
    ensures Does(TwoSent(), AckMove(2).i, [], Idle(2), false)
  {
    TwoOccupied();
    assert Sender.Freed(TwoSlots(), 2, 2) == W.NoSlots();
    Acked(TwoSent(), 2, Idle(2));
  }

  lemma FirstFreed()
    ensures Does(TwoSent(), AckMove(1).i, [], SecondSent(), false)
  {
    TwoOccupied();
    assert Sender.Freed(TwoSlots(), 1, 2) == TwoSlots()[0 := None];
    Acked(TwoSent(), 1, SecondSent());
  }

  lemma SecondFreed()
    ensures Does(SecondSent(), AckMove(2).i, [], Idle(2), false)
  {
    TwoOccupied();
    assert Sender.Freed(TwoSlots()[0 := None], 2, 2) == W.NoSlots();
    Acked(SecondSent(), 2, Idle(2));
  }

  /** The copies of the first chunk that stay under way. */
  function Copies(now: bv32): seq<Packet> { if now == 0 then [] else [W.ChunkNo(0, 30)] }

  lemma EmptyPlus<T>(b: multiset<T>)
    ensures multiset{} + b == b
  {}

  lemma SentBag(now: bv32)
    ensures var second := W.ChunkNo(1, 29);
            multiset{} + multiset(Copies(now) + [second]) == multiset(Copies(now)) + multiset{second}
  {}

  lemma OneWritten(n: nat) returns (run: seq<Net>)
    requires n >= 2
    ensures CleanRun(Bytes(n), run) && At(End(run), OneSent(0), 1, 1, multiset{}, multiset{W.AckNo(1)})
  {
    BeginLocked(n);
    EmptyPlus(multiset{W.AckNo(1)});
    run := HalfRound(n, [Begin(Bytes(n))], 0, multiset{}, multiset{});
  }

  lemma TwoRead(n: nat, now: bv32) returns (run: seq<Net>)
    requires n >= 2 && now <= LAST_SECOND
    ensures CleanRun(Bytes(n), run)
    ensures At(End(run), TwoSent(), 1, 2, multiset(Copies(now)) + multiset{W.ChunkNo(1, 29)}, multiset{W.AckNo(1)})
  {
    run := OneWritten(n);
    SecondRead(now);
    SentBag(now);
    run := GoRead(n, run, now, OneSent(0), Copies(now) + [W.ChunkNo(1, 29)], TwoSent(), 1, 1,
                  multiset{}, multiset{W.AckNo(1)});
  }

  /** Both are written, the second read in the given second; neither acknowledgement has arrived. */
  lemma TwoWritten(n: nat, now: bv32) returns (run: seq<Net>)
    requires n >= 2 && now <= LAST_SECOND
    ensures CleanRun(Bytes(n), run)
    ensures At(End(run), TwoSent(), 2, 2, multiset(Copies(now)), multiset{W.AckNo(1), W.AckNo(2)})
  {
    var second := multiset{W.ChunkNo(1, 29)};
    run := TwoRead(n, now);
    run := GoArrive(n, run, 29, TwoSent(), 1, 2, multiset(Copies(now)) + second, multiset{W.AckNo(1)});
    assert multiset(Copies(now)) + second - second == multiset(Copies(now));
    assert multiset{W.AckNo(1)} + multiset{W.AckNo(2)} == multiset{W.AckNo(1), W.AckNo(2)};
  }

  // ----- an acknowledgement that is held up -----

  function OldAcked(): Sender.SenderState { Sender.SenderState(32, 1, 0, WINDOW_SIZE, W.NoSlots()) }

  lemma OldAck()
    ensures Does(Idle(32), AckMove(1).i, [], OldAcked(), false)
  {
    assert Sender.Freed(W.NoSlots(), 1, 32) == W.NoSlots();
  }

  lemma NothingHeld(s: Sender.SenderState)
    requires s.slots == W.NoSlots() && s.count == 0
    ensures !Aged(s) && Sender.FastResent(s) == []
  {}

  /** The second acknowledgement arrives; the first is held up. */
  lemma AckHeldUp(n: nat) returns (run: seq<Net>)
    requires n >= 2
    ensures CleanRun(Bytes(n), run) && Locked(End(run), 2, multiset{}, multiset{W.AckNo(1)})
  {
    run := TwoWritten(n, 0);
    assert multiset(Copies(0)) == multiset{};
    BothFreed();
    run := GoAck(n, run, 2, TwoSent(), Idle(2), 2, 2, multiset{}, multiset{W.AckNo(1), W.AckNo(2)});
    assert multiset{W.AckNo(1), W.AckNo(2)} - multiset{W.AckNo(2)} == multiset{W.AckNo(1)};
  }

  lemma OldAckIsDead(u: Setup, n: Net)
    requires At(n, OldAcked(), 32, 32, multiset{}, multiset{}) && |u.plan| == 32
    ensures Dead(u, n)
  {
    NothingHeld(OldAcked());
  }

  /** Nothing is lost, damaged or repeated, and all 32 chunks are written; but the acknowledgement of the
      first comes last. Then the sender is dead: it neither reads on nor ends. */
  lemma DeadAfterOldAck() returns (run: seq<Net>)
    ensures CleanRun(Bytes(32), run) && Dead(Bytes(32), End(run))
    ensures var s := End(run).s; s.chunks == Bytes(32).plan && s.rcv.output == Concat(s.chunks)
  {
    var held := multiset{W.AckNo(1)};
    run := AckHeldUp(32);
    run := Rounds(32, run, 2, 32, multiset{}, held);
    OldAck();
    run := GoAck(32, run, 1, Idle(32), OldAcked(), 32, 32, multiset{}, held);
    assert held - held == multiset{};
    W.ConcatChunks(32);
    OldAckIsDead(Bytes(32), End(run));
  }

  // ----- a copy that is held up -----

  /** Both acknowledgements arrive; a copy of the first packet is still under way. */
  lemma CopyHeldUp(n: nat) returns (run: seq<Net>)
    requires n >= 2
    ensures CleanRun(Bytes(n), run) && Locked(End(run), 2, multiset(Copies(1)), multiset{})
  {
    var held := multiset(Copies(1));
    run := TwoWritten(n, 1);
    FirstFreed();
    run := GoAck(n, run, 1, TwoSent(), SecondSent(), 2, 2, held, multiset{W.AckNo(1), W.AckNo(2)});
    assert multiset{W.AckNo(1), W.AckNo(2)} - multiset{W.AckNo(1)} == multiset{W.AckNo(2)};
    SecondFreed();
    run := GoAck(n, run, 2, SecondSent(), Idle(2), 2, 2, held, multiset{W.AckNo(2)});
    assert multiset{W.AckNo(2)} - multiset{W.AckNo(2)} == multiset{};
  }

  /** A copy that the timer sent and that arrives 256 chunks later is written again. */
  lemma LateCopyWritten() returns (run: seq<Net>)
    ensures CleanRun(Bytes(256), run) && |End(run).s.chunks| == 256 && !(End(run).s.rcv.output <= End(run).s.input)
  {
    var held := multiset(Copies(1));
    run := CopyHeldUp(256);
    run := Rounds(256, run, 2, 255, held, multiset{});
    run := HalfRound(256, run, 255, held, multiset{});
    EmptyPlus(multiset{W.AckNo(0)});
    run := GoArrive(256, run, 30, OneSent(255), 256, 256, held, multiset{W.AckNo(0)});
    var path := Projected(Bytes(256), run);
    BytesFacts(256);
  }

  // ----- second 59 -----

  function LatePacket(c: Sender.Chunk): Packet { Packet(PTYPE_DATA, false, 30, 0, |c|, LAST_SECOND, Some(c)) }

  function LateInput(c: Sender.Chunk): Sender.Input { Sender.Input(0, None, Some(c), LAST_SECOND) }

  function LateSent(c: Sender.Chunk): Sender.SenderState {
    Sender.SenderState(1, 0, 0, 30, W.NoSlots()[0 := Some(LatePacket(c))])
  }

  lemma LateRead(c: Sender.Chunk)
    requires c != []
    ensures Does(Sender.Start(), LateInput(c), [LatePacket(c)], LateSent(c), true)
  {
    assert Sender.AckTurn(Sender.Start(), LateInput(c)) == Sender.Start() && FirstHole(Sender.Start().slots) == 0;
  }

  /** A chunk stamped in the last second of a minute and dropped: the timer never asks for a later one. */
  lemma DeadAfterLateLoss(ch: Channel, c: Sender.Chunk, file: bool) returns (run: seq<Net>)
    requires c != []
    ensures var u := Setup(ch, [c], file);
            NetRun(u, run) && Dead(u, End(run)) && End(run).s.chunks == [c] && End(run).s.rcv.output == []
  {
    var u := Setup(ch, [c], file);
    LateRead(c);
    run := Go(u, [Begin(u)], Turn(LateInput(c), None));
    assert multiset{} + multiset([LatePacket(c)]) - multiset{LatePacket(c)} == multiset{};
    run := Go(u, run, LoseData(LatePacket(c)));
    LateIsDead(u, End(run), c);
  }

  lemma LateIsDead(u: Setup, n: Net, c: Sender.Chunk)
    requires n.s.snd == LateSent(c) && n.s.chunks == u.plan == [c] && Quiet(n) && !n.s.finished
    ensures Dead(u, n)
  {}
}
