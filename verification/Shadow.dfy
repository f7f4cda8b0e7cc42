/** Confusion does not reach the sender. Every run over bytes has a shadow: a run of `Transfer` in
    which all is the same but the payloads that the receiver holds and has written. So all that
    `Transfer` proves of numbers and of the sender holds over every channel. */
module Shadow {
  import opened Basics
  import opened Codec
  import opened CrcErrors
  import opened Receiver
  import opened Transfer
  import opened Truncation
  import opened Wire
  import Sender

  // ----- receivers that differ in payloads only -----

  predicate AlikeSlot(a: Option<Packet>, b: Option<Packet>) {
    (a == None <==> b == None) && (a.Some? && b.Some? ==> a.value.seqnum == b.value.seqnum)
  }

  predicate Alike(r: ReceiverState, t: ReceiverState) {
    && r.seqnum == t.seqnum && r.window == t.window
    && forall i :: 0 <= i < WINDOW_SIZE ==> AlikeSlot(r.slots[i], t.slots[i])
  }

  predicate AlikeArrival(a: Arrival, b: Arrival) {
    && (a.Decoded? <==> b.Decoded?)
    && (a.Decoded? && b.Decoded? ==> a.p.typ == b.p.typ && a.p.seqnum == b.p.seqnum)
  }

  lemma {:induction false} StoreAlike(r: ReceiverState, t: ReceiverState, p: Packet, q: Packet, i: nat)
    requires Alike(r, t) && p.seqnum == q.seqnum
    ensures Alike(StoreFrom(r, p, i), StoreFrom(t, q, i))
    decreases WINDOW_SIZE - i
  {
    if i < WINDOW_SIZE {
      assert AlikeSlot(r.slots[i], t.slots[i]);
      if !Holds(r.slots[i], p.seqnum) && r.slots[i] != None {
        StoreAlike(r, t, p, q, i + 1);
      }
    }
  }

  lemma {:induction false} DrainAlike(r: ReceiverState, t: ReceiverState, i: nat)
    requires Alike(r, t)
    ensures Alike(DrainFrom(r, i), DrainFrom(t, i))
    decreases Occupied(r.slots), WINDOW_SIZE - i
  {
    if i < WINDOW_SIZE {
      assert AlikeSlot(r.slots[i], t.slots[i]);
      if Holds(r.slots[i], r.seqnum) {
        OccupiedUpdate(r.slots, i, None);
        DrainAlike(Take(r, i), Take(t, i), 1);
      } else {
        DrainAlike(r, t, i + 1);
      }
    }
  }

  /** The reply depends on numbers only. */
  lemma ReceiveAlike(r: ReceiverState, t: ReceiverState, a: Arrival, b: Arrival)
    requires Alike(r, t) && AlikeArrival(a, b)
    ensures Alike(Receive(r, a).0, Receive(t, b).0) && Receive(r, a).1 == Receive(t, b).1
  {
    if a.Decoded? && a.p.typ == PTYPE_DATA {
      if a.p.seqnum == r.seqnum {
        DrainAlike(r.(seqnum := IncSeqnum(r.seqnum), output := r.output + Payload(a.p)),
                   t.(seqnum := IncSeqnum(t.seqnum), output := t.output + Payload(b.p)), 0);
      } else if r.seqnum < a.p.seqnum < r.seqnum + r.window {
        StoreAlike(r, t, a.p, b.p, 0);
      }
    }
  }

  /** The same session but for the payloads that the receiver got. */
  predicate Like(s: Session, t: Session) {
    t == s.(rcv := t.rcv) && Alike(s.rcv, t.rcv)
  }

  lemma ReceiverTurnLike(s: Session, t: Session, a: Arrival, b: Arrival)
    requires Like(s, t) && AlikeArrival(a, b)
    ensures Like(ReceiverTurn(s, a), ReceiverTurn(t, b))
  {
    ReceiveAlike(s.rcv, t.rcv, a, b);
  }

  lemma SenderTurnLike(s: Session, t: Session, i: Sender.Input)
    requires Like(s, t)
    ensures Like(SenderTurn(s, i), SenderTurn(t, i))
  {}

  // ----- the shadow of a run -----

  /** The packet that was sent, in place of what the receiver took it for. */
  lemma ShadowArrival(ch: Channel, s: Session, a: Arrival) returns (b: Arrival)
    requires WellFormed(s) && DataDelivered(ch, s, a)
    ensures DataAvailable(s, b) && AlikeArrival(a, b)
  {
    var p :| p in s.data && DataFrom(ch, p, a);
    assert Of(s.chunks, p);
    var w := FromData(ch, p, a);
    b := if a == Rejected then Rejected else Decoded(p);
  }

  lemma ShadowStep(ch: Channel, s: Session, t: Session, l: Step) returns (m: Step)
    requires Like(s, t) && WellFormed(s) && WireEnabled(ch, s, l)
    ensures Enabled(t, m) && Like(Apply(s, l), Apply(t, m))
  {
    match l
    case SenderStep(i) =>
      if i.ack.Some? {
        AckAvailableOnWire(s, i.ack.value);
      }
      SenderTurnLike(s, t, i);
      m := l;
    case ReceiverStep(a) =>
      var b := ShadowArrival(ch, s, a);
      ReceiverTurnLike(s, t, a, b);
      m := ReceiverStep(b);
  }

  lemma RunSnoc(run: seq<Session>, l: Step)
    requires Run(run) && Enabled(Last(run), l)
    ensures Run(run + [Apply(Last(run), l)])
  {
    var more := run + [Apply(Last(run), l)];
    forall i | 0 <= i < |more| - 1 ensures Next(more[i], more[i + 1]) {
      if i < |run| - 1 {
        assert Next(run[i], run[i + 1]);
      }
    }
  }

  /** Every run over bytes, whatever the channel and the chunks, has a shadow. */
  lemma {:induction false} Shadowed(ch: Channel, run: seq<Session>) returns (shadow: seq<Session>)
    requires WireRun(ch, run)
    ensures Run(shadow) && Like(Last(run), Last(shadow))
  {
    if |run| == 1 {
      shadow := run;
    } else {
      var init, l := LastStep(ch, run);
      var before := Shadowed(ch, init);
      AlwaysWellFormed(ch, init);
      var m := ShadowStep(ch, Last(init), Last(before), l);
      RunSnoc(before, m);
      shadow := before + [Apply(Last(before), m)];
    }
  }

  /** All that the receiver holds has a number below n. */
  predicate HoldsBelow(r: ReceiverState, n: nat) {
    forall i :: 0 <= i < WINDOW_SIZE && r.slots[i].Some? ==> r.slots[i].value.seqnum < n
  }

  lemma {:induction false} DrainNumbers(r: ReceiverState, i: nat, n: nat)
    requires r.seqnum <= n <= 255 && HoldsBelow(r, n)
    ensures r.seqnum <= DrainFrom(r, i).seqnum <= n
    decreases Occupied(r.slots), WINDOW_SIZE - i
  {
    if i < WINDOW_SIZE {
      if Holds(r.slots[i], r.seqnum) {
        OccupiedUpdate(r.slots, i, None);
        DrainNumbers(Take(r, i), 1, n);
      } else {
        DrainNumbers(r, i + 1, n);
      }
    }
  }

  lemma {:induction false} StoreNumber(r: ReceiverState, p: Packet, i: nat)
    ensures StoreFrom(r, p, i).seqnum == r.seqnum
    decreases WINDOW_SIZE - i
  {
    if i < WINDOW_SIZE && !Holds(r.slots[i], p.seqnum) && r.slots[i] != None {
      StoreNumber(r, p, i + 1);
    }
  }

  /** The number expected never goes back, and moves on when its packet comes. */
  lemma ReceiveNumbers(r: ReceiverState, p: Packet, n: nat)
    requires r.seqnum <= n <= 255 && HoldsBelow(r, n) && p.seqnum < n && p.typ == PTYPE_DATA
    ensures r.seqnum <= Receive(r, Decoded(p)).0.seqnum <= n
    ensures p.seqnum == r.seqnum ==> Receive(r, Decoded(p)).0.seqnum > r.seqnum
  {
    if p.seqnum == r.seqnum {
      DrainNumbers(r.(seqnum := IncSeqnum(r.seqnum), output := r.output + Payload(p)), 0, n);
    } else {
      StoreNumber(r, p, 0);
    }
  }

  /** What holds of the sender and of all numbers over every channel. */
  ghost predicate NumbersGood(s: Session) {
    && SenderGood(s.chunks, s.snd, s.acked)
    && s.acked <= s.rcv.seqnum <= |s.chunks| && HoldsBelow(s.rcv, |s.chunks|)
    && (forall p :: p in s.data ==> Carries(s.chunks, p))
    && (forall a :: a in s.acks ==> a.typ == PTYPE_ACK && a.seqnum <= s.rcv.seqnum)
    && Concat(s.chunks) <= s.input
    && (s.finished ==> s.rcv.seqnum == |s.chunks| && Concat(s.chunks) == s.input)
  }

  lemma AlwaysNumbersGood(ch: Channel, run: seq<Session>)
    requires WireRun(ch, run) && |Last(run).chunks| <= 255
    ensures NumbersGood(Last(run))
  {
    var shadow := Shadowed(ch, run);
    AlwaysGood(shadow);
    var r, t := Last(run).rcv, Last(shadow).rcv;
    assert forall i :: 0 <= i < WINDOW_SIZE && r.slots[i].Some? ==> AlikeSlot(r.slots[i], t.slots[i]);
  }

  // ----- chunks that can pass -----

  /** A chunk that the receiver may accept as it is. */
  predicate Intact(ch: Channel, c: seq<byte>) {
    ch.Link? ==> Survives(c)
  }

  /** One that it may accept, as it is or as another one. */
  predicate Passable(ch: Channel, c: seq<byte>) {
    Intact(ch, c) || (ch == Link(true) && Confusable(c))
  }

  predicate AllIntact(ch: Channel, chunks: seq<seq<byte>>) {
    forall k :: 0 <= k < |chunks| ==> Intact(ch, chunks[k])
  }

  predicate AllPassable(ch: Channel, chunks: seq<seq<byte>>) {
    forall k :: 0 <= k < |chunks| ==> Passable(ch, chunks[k])
  }

  lemma PassableIff(ch: Channel, c: seq<byte>)
    ensures Passable(ch, c) <==> exists w :: Accepted(ch, c, w)
    ensures Accepted(ch, c, c) <==> Intact(ch, c)
  {
    NotInverted(c);
    if Intact(ch, c) {
      assert Accepted(ch, c, c);
    } else if ch == Link(true) && Confusable(c) {
      var j :| 0 <= j < |c| && Passes(c, Inverted(c, j), MAX_PKT_LEN);
      assert Accepted(ch, c, Inverted(c, j));
    }
  }

  lemma NotInverted(c: seq<byte>)
    ensures forall j :: 0 <= j < |c| ==> Inverted(c, j) != c
  {
    forall j | 0 <= j < |c| ensures Inverted(c, j) != c {
      InvertedDiffers(c, j, c);
    }
  }

  /** What passes for a chunk: the chunk itself if it can. */
  lemma PassFor(ch: Channel, c: seq<byte>) returns (w: seq<byte>)
    requires Passable(ch, c)
    ensures Accepted(ch, c, w) && (Intact(ch, c) ==> w == c)
  {
    PassableIff(ch, c);
    w :| Accepted(ch, c, w);
    if Intact(ch, c) {
      w := c;
    }
  }
}
