/** A run in which fast retransmit fires although no acknowledgement was repeated three times. */
module EarlyRetransmit {
  import opened Basics
  import opened Codec
  import opened Receiver
  import opened Transfer
  import opened WrapAround
  import Sender

  /** Where these steps lead. */
  function After(s: Session, steps: seq<Step>): Session
    decreases |steps|
  {
    if steps == [] then s else Apply(After(s, steps[..|steps| - 1]), steps[|steps| - 1])
  }

  ghost predicate AllEnabled(s: Session, steps: seq<Step>)
    decreases |steps|
  {
    steps == [] || (AllEnabled(s, steps[..|steps| - 1]) && Enabled(After(s, steps[..|steps| - 1]), steps[|steps| - 1]))
  }

  /** The numbers acknowledged to the sender, in order. */
  function Acknowledged(steps: seq<Step>): seq<uint8>
    decreases |steps|
  {
    if steps == [] then []
    else
      var l := steps[|steps| - 1];
      Acknowledged(steps[..|steps| - 1])
      + (if l.SenderStep? && l.i.ack.Some? && l.i.ack.value.Decoded? then [l.i.ack.value.p.seqnum] else [])
  }

  /** `steps` lead from `s` to `t`, with these acknowledgements. */
  ghost predicate Leads(s: Session, steps: seq<Step>, numbers: seq<uint8>, t: Session) {
    AllEnabled(s, steps) && After(s, steps) == t && Acknowledged(steps) == numbers
  }

  lemma LeadsOn(s: Session, steps: seq<Step>, numbers: seq<uint8>, t: Session, l: Step)
    requires Leads(s, steps, numbers, t) && Enabled(t, l)
    ensures Leads(s, steps + [l], numbers + Acknowledged([l]), Apply(t, l))
  {
    assert (steps + [l])[..|steps|] == steps;
    assert [l][..0] == [];
  }

  function WithCount(s: Session, count: nat): Session { s.(snd := s.snd.(count := count)) }

  lemma AckAlong(s: Sender.SenderState, a: Arrival, count: nat)
    requires s.count == 0
    ensures var t := Sender.OnAck(s, a); Sender.OnAck(s.(count := count), a) == t.(count := count + t.count)
  {}

  lemma AckTurnAlong(s: Sender.SenderState, i: Sender.Input, count: nat)
    requires s.count == 0 && count < 3
    ensures var t := Sender.AckTurn(s, i); Sender.AckTurn(s.(count := count), i) == t.(count := count + t.count)
    ensures Sender.Resent(s.(count := count), i) == Sender.Resent(s, i)
  {
    assert Sender.AfterFast(s.(count := count)) == s.(count := count) && Sender.AfterFast(s) == s;
    if i.ack.Some? {
      AckAlong(s, i.ack.value, count);
    }
  }

  lemma SendAlong(s: Sender.SenderState, chunk: Sender.Chunk, now: bv32, count: nat)
    ensures Sender.Send(s.(count := count), chunk, now) == Sender.Send(s, chunk, now).(count := count)
    ensures Sender.ChunkPacket(s.(count := count), chunk, now) == Sender.ChunkPacket(s, chunk, now)
    ensures Sender.Send(s, chunk, now).count == s.count
  {}

  lemma TurnAlong(s: Sender.SenderState, i: Sender.Input, count: nat)
    requires s.count == 0 && count < 3
    ensures var t := Sender.Turn(s, i); Sender.Turn(s.(count := count), i) == t.(count := count + t.count)
    ensures Sender.Sent(s.(count := count), i) == Sender.Sent(s, i)
    ensures Sender.SendsChunk(s.(count := count), i) == Sender.SendsChunk(s, i)
    ensures Sender.Ends(s.(count := count), i) == Sender.Ends(s, i)
  {
    var t := Sender.AckTurn(s, i);
    AckTurnAlong(s, i, count);
    if Sender.SendsChunk(s, i) {
      SendAlong(t, i.read.value, i.sendTime, count + t.count);
    }
  }

  /** Below three, the count changes nothing but itself. */
  lemma CountAlong(s: Session, l: Step, count: nat)
    requires s.snd.count == 0 && count < 3
    ensures Enabled(WithCount(s, count), l) <==> Enabled(s, l)
    ensures Apply(WithCount(s, count), l) == WithCount(Apply(s, l), count + Apply(s, l).snd.count)
  {
    if l.SenderStep? {
      TurnAlong(s.snd, l.i, count);
    }
  }

  lemma CountIsZero(s: Session)
    requires s.snd.count == 0
    ensures WithCount(s, 0) == s
  {}

  /** A step known from a count of 0, taken with another count. */
  lemma LeadsWith(
    s: Session, steps: seq<Step>, numbers: seq<uint8>, t: Session, count: nat, l: Step, u: Session, again: nat)
    requires Leads(s, steps, numbers, WithCount(t, count)) && t.snd.count == 0 && count < 3
    requires Enabled(t, l) && Apply(t, l) == WithCount(u, again)
    ensures Leads(s, steps + [l], numbers + Acknowledged([l]), WithCount(u, count + again))
  {
    CountAlong(t, l, count);
    LeadsOn(s, steps, numbers, WithCount(t, count), l);
  }

  /** The acknowledgement of k once more, while chunk k is under way. */
  lemma AgainStep(k: uint8, n: nat)
    requires 1 <= k
    ensures Enabled(AfterRead(k, n), Acknowledge(k))
    ensures Apply(AfterRead(k, n), Acknowledge(k)) == WithCount(AfterRead(k, n), 1)
  {
    var s := AfterRead(k, n);
    var i := Acknowledge(k).i;
    NothingDue(s.snd.slots, i.now, s.snd.seqnum);
    assert AckNo(k) in s.acks;
    assert Sender.Freed(s.snd.slots, k, s.snd.seqnum) == s.snd.slots;
  }

  /** Chunk k is read, and the acknowledgement of k arrives once more. */
  lemma Again(steps: seq<Step>, numbers: seq<uint8>, k: uint8, n: nat, count: nat) returns (more: seq<Step>)
    requires 1 <= k < n && count < 3
    requires Leads(Lock(0, n), steps, numbers, WithCount(Lock(k, n), count))
    ensures Leads(Lock(0, n), more, numbers + [k], WithCount(AfterRead(k, n), count + 1))
  {
    var s, t := Lock(k, n), AfterRead(k, n);
    ReadStep(k, n);
    CountIsZero(t);
    Silent(s, READ_CHUNK);
    LeadsWith(Lock(0, n), steps, numbers, s, count, READ_CHUNK, t, 0);
    AgainStep(k, n);
    Numbered(k);
    LeadsWith(Lock(0, n), steps + [READ_CHUNK], numbers + [], t, count, Acknowledge(k), t, 1);
    more := steps + [READ_CHUNK] + [Acknowledge(k)];
    assert numbers + [] + [k] == numbers + [k];
  }

  lemma Silent(s: Session, l: Step)
    requires l == READ_CHUNK || l.ReceiverStep?
    ensures Acknowledged([l]) == []
  {
    assert [l][..0] == [];
  }

  lemma Numbered(k: uint8)
    ensures Acknowledged([Acknowledge(k)]) == [k]
  {
    assert [Acknowledge(k)][..0] == [];
  }

  lemma Delivered(steps: seq<Step>, numbers: seq<uint8>, k: uint8, n: nat, count: nat)
    requires count < 3 && Leads(Lock(0, n), steps, numbers, WithCount(AfterRead(k, n), count))
    ensures Leads(Lock(0, n), steps + [Deliver(k)], numbers, WithCount(AfterDelivery(k, n), count))
  {
    var s, t := AfterRead(k, n), AfterDelivery(k, n);
    DeliverStep(k, n);
    CountIsZero(t);
    Silent(s, Deliver(k));
    LeadsWith(Lock(0, n), steps, numbers, s, count, Deliver(k), t, 0);
    assert numbers + [] == numbers;
  }

  /** Chunk k is delivered and acknowledged. */
  lemma Finish(steps: seq<Step>, numbers: seq<uint8>, k: uint8, n: nat, count: nat) returns (more: seq<Step>)
    requires k < 255 && k < n && count < 3
    requires Leads(Lock(0, n), steps, numbers, WithCount(AfterRead(k, n), count))
    ensures Leads(Lock(0, n), more, numbers + [k + 1], WithCount(Lock(k + 1, n), count))
  {
    var t, u := AfterDelivery(k, n), Lock(k + 1, n);
    Delivered(steps, numbers, k, n, count);
    AcknowledgeStep(k, n);
    CountIsZero(u);
    Numbered(k + 1);
    more := steps + [Deliver(k)];
    LeadsWith(Lock(0, n), more, numbers, t, count, Acknowledge(k + 1), u, 0);
    more := more + [Acknowledge(k + 1)];
  }

  lemma FirstChunk(n: nat) returns (steps: seq<Step>)
    requires n > 0
    ensures Leads(Lock(0, n), steps, [1], WithCount(Lock(1, n), 0))
  {
    var s := Lock(0, n);
    ReadStep(0, n);
    Silent(s, READ_CHUNK);
    assert Leads(s, [], [], WithCount(s, 0));
    LeadsWith(s, [], [], s, 0, READ_CHUNK, AfterRead(0, n), 0);
    steps := Finish([] + [READ_CHUNK], [] + [], 0, n, 0);
    assert [] + [] + [1] == [1 as uint8];
  }

  lemma Round(steps: seq<Step>, numbers: seq<uint8>, k: uint8, n: nat, count: nat) returns (more: seq<Step>)
    requires 1 <= k < 255 && k < n && count < 2
    requires Leads(Lock(0, n), steps, numbers, WithCount(Lock(k, n), count))
    ensures Leads(Lock(0, n), more, numbers + [k, k + 1], WithCount(Lock(k + 1, n), count + 1))
  {
    more := Again(steps, numbers, k, n, count);
    more := Finish(more, numbers + [k], k, n, count + 1);
    assert numbers + [k] + [k + 1] == numbers + [k, k + 1];
  }

  lemma ThreeRepetitions(n: nat) returns (steps: seq<Step>)
    requires n > 3
    ensures Leads(Lock(0, n), steps, [1, 1, 2, 2, 3, 3], WithCount(AfterRead(3, n), 3))
  {
    steps := FirstChunk(n);
    steps := Round(steps, [1], 1, n, 0);
    assert [1] + [1, 1 + 1] == [1, 1, 2];
    steps := Round(steps, [1, 1, 2], 2, n, 1);
    assert [1, 1, 2] + [2, 2 + 1] == [1, 1, 2, 2, 3];
    steps := Again(steps, [1, 1, 2, 2, 3], 3, n, 2);
    assert [1, 1, 2, 2, 3] + [3] == [1, 1, 2, 2, 3, 3];
  }

  /** Numbers 1, 2 and 3 are acknowledged twice each, none three times, and the packet with
      number 3, just sent, is sent again. */
  lemma FiresEarly(n: nat) returns (s: Session, steps: seq<Step>, t: Session)
    requires n > 3
    ensures Init(s) && s.input == Repeat(n) && Leads(s, steps, [1, 1, 2, 2, 3, 3], t)
    ensures t.snd.count == 3 && Sender.FastResent(t.snd) == [ChunkNo(3, 30)]
  {
    s, t := Lock(0, n), WithCount(AfterRead(3, n), 3);
    steps := ThreeRepetitions(n);
    Resends(t.snd);
  }

  lemma Resends(s: Sender.SenderState)
    requires s.count == 3 && s.lastack == 3 && s.slots == NoSlots()[0 := Some(ChunkNo(3, 30))]
    ensures Sender.FastResent(s) == [ChunkNo(3, 30)]
  {
    SelectFirst(s.slots);
  }

  lemma {:induction false} SelectFirst(slots: seq<Option<Packet>>)
    requires slots != [] && slots[0] == Some(ChunkNo(3, 30)) && forall i :: 1 <= i < |slots| ==> slots[i] == None
    ensures Sender.Select(slots, Sender.Asked(3)) == [ChunkNo(3, 30)]
  {
    if |slots| > 1 {
      SelectFirst(slots[..|slots| - 1]);
    } else {
      assert slots[..0] == [];
    }
  }
}
