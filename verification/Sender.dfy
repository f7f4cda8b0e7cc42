/** The sender: one turn of the loop of `read_write_loop` retransmits, processes an
    acknowledgement and sends a new chunk. As functions on values. */
module Sender {
  import opened Basics
  import opened Codec
  import opened Receiver

  /** `free` is `sender_buffer_size`, the number of slots counted as free. */
  datatype SenderState = SenderState(seqnum: uint8, lastack: uint8, count: nat, free: uint8, slots: Slots)

  function Start(): SenderState {
    SenderState(0, 0, 0, WINDOW_SIZE, seq(WINDOW_SIZE, i => None))
  }

  // ----- retransmission -----

  /** The two reasons to resend: a number asked for, or an age. */
  datatype Reason = Asked(n: uint8) | Due(now: bv32, seqnum: uint8)

  /** Stamped before the second `now`. */
  predicate Older(p: Packet, now: bv32) { now > p.timestamp }

  predicate Wanted(r: Reason, p: Packet) {
    match r
    case Asked(n) => p.seqnum == n
    case Due(now, seqnum) => Older(p, now) && p.seqnum <= seqnum
  }

  /** The buffered packets to resend for a reason, in slot order. */
  function Select(slots: seq<Option<Packet>>, r: Reason): seq<Packet> {
    if slots == [] then []
    else
      var o := slots[|slots| - 1];
      Select(slots[..|slots| - 1], r) + (if o.Some? && Wanted(r, o.value) then [o.value] else [])
  }

  /** Retransmission resends buffered packets and nothing else. */
  lemma {:induction false} SelectBuffered(slots: seq<Option<Packet>>, r: Reason, p: Packet)
    ensures p in Select(slots, r) <==> Some(p) in slots && Wanted(r, p)
  {
    if slots != [] {
      var n := |slots| - 1;
      assert slots == slots[..n] + [slots[n]];
      SelectBuffered(slots[..n], r, p);
    }
  }

  /** Slot order: what the first slots hold goes out before what the others hold. */
  lemma {:induction false} SelectInOrder(a: seq<Option<Packet>>, b: seq<Option<Packet>>, r: Reason)
    ensures Select(a + b, r) == Select(a, r) + Select(b, r)
    decreases |b|
  {
    if b == [] {
      assert a + b == a;
    } else {
      var n := |b| - 1;
      assert (a + b)[..|a + b| - 1] == a + b[..n];
      SelectInOrder(a, b[..n], r);
    }
  }

  /** Of two wanted packets the one in the lower slot goes out first, and each slot gives one. */
  lemma SlotsInOrder(slots: Slots, r: Reason, i: nat, j: nat) returns (x: seq<Packet>, y: seq<Packet>, z: seq<Packet>)
    requires i < j < 31 && slots[i].Some? && slots[j].Some? && Wanted(r, slots[i].value) && Wanted(r, slots[j].value)
    ensures Select(slots, r) == x + [slots[i].value] + (y + [slots[j].value] + z)
    ensures |x| <= i && |y| <= j - i - 1 && |z| <= 30 - j
  {
    var rest := slots[i + 1..];
    x, y, z := Select(slots[..i], r), Select(rest[..j - i - 1], r), Select(rest[j - i..], r);
    SplitSlots(slots, r, i);
    SplitSlots(rest, r, j - i - 1);
    SelectAtMost(slots[..i], r);
    SelectAtMost(rest[..j - i - 1], r);
    SelectAtMost(rest[j - i..], r);
  }

  lemma SplitSlots(slots: seq<Option<Packet>>, r: Reason, i: nat)
    requires i < |slots| && slots[i].Some? && Wanted(r, slots[i].value)
    ensures Select(slots, r) == Select(slots[..i], r) + [slots[i].value] + Select(slots[i + 1..], r)
  {
    assert slots == slots[..i] + ([slots[i]] + slots[i + 1..]);
    SelectInOrder(slots[..i], [slots[i]] + slots[i + 1..], r);
    SelectInOrder([slots[i]], slots[i + 1..], r);
    assert [slots[i]][..0] == [];
  }

  lemma {:induction false} SelectAtMost(slots: seq<Option<Packet>>, r: Reason)
    ensures |Select(slots, r)| <= |slots|
  {
    if slots != [] {
      SelectAtMost(slots[..|slots| - 1], r);
    }
  }

  /** Fast retransmit: once three repetitions have been counted, of whatever numbers, the
      packet that the last acknowledgement asks for. */
  function FastResent(s: SenderState): seq<Packet> {
    if s.count >= 3 then Select(s.slots, Asked(s.lastack)) else []
  }

  function AfterFast(s: SenderState): SenderState {
    if FastResent(s) == [] then s else s.(count := 0)
  }

  /** The timer: packets whose time stamp is older than the current second. */
  function TimedOut(s: SenderState, now: bv32): seq<Packet> {
    if s.free < WINDOW_SIZE then Select(s.slots, Due(now, s.seqnum)) else []
  }

  // ----- acknowledgements -----

  /** An acknowledgement of `n` frees the slots of all lower numbers, unless it is ahead
      of everything sent. */
  predicate Acknowledges(n: uint8, seqnum: uint8, o: Option<Packet>) {
    o.Some? && n > o.value.seqnum && n <= seqnum
  }

  function Freed(slots: Slots, n: uint8, seqnum: uint8): Slots {
    seq(WINDOW_SIZE, i requires 0 <= i < WINDOW_SIZE => if Acknowledges(n, seqnum, slots[i]) then None else slots[i])
  }

  function FreedCount(slots: Slots, n: uint8, seqnum: uint8): int {
    Occupied(slots) - Occupied(Freed(slots, n, seqnum))
  }

  function OnAck(s: SenderState, a: Arrival): SenderState {
    if a.Decoded? && a.p.typ == PTYPE_ACK then
      SenderState(s.seqnum, a.p.seqnum, if s.lastack == a.p.seqnum then s.count + 1 else s.count,
            (s.free + FreedCount(s.slots, a.p.seqnum, s.seqnum)) % 256,
            Freed(s.slots, a.p.seqnum, s.seqnum))
    else s
  }

  // ----- new chunks -----

  predicate CanSend(s: SenderState) { s.seqnum < s.lastack + s.free }

  /** `sender_buffer_size--` on an unsigned byte. */
  function Decremented(free: uint8): uint8 { (free + 255) % 256 }

  function ChunkPacket(s: SenderState, chunk: seq<byte>, now: bv32): Packet
    requires |chunk| <= MAX_PAYLOAD_SIZE
  {
    Packet(PTYPE_DATA, false, Decremented(s.free) % 32, s.seqnum, |chunk|, now, Some(chunk))
  }

  /** The packet is sent in any case; it is kept, and the number advances, only if a
      free slot is found. */
  function Send(s: SenderState, chunk: seq<byte>, now: bv32): SenderState
    requires |chunk| <= MAX_PAYLOAD_SIZE
  {
    var h := FirstHole(s.slots);
    var t := s.(free := Decremented(s.free));
    if h < WINDOW_SIZE then
      t.(slots := s.slots[h := Some(ChunkPacket(s, chunk, now))], seqnum := IncSeqnum(s.seqnum))
    else t
  }

  // ----- one turn of the loop -----

  type Chunk = c: seq<byte> | |c| <= MAX_PAYLOAD_SIZE witness []

  /** What one turn is given: the time when the timer is looked at and when a chunk is sent,
      the acknowledgement on the socket, if readable, and what reading the input
      would return, if readable (nothing at the end of the input). */
  datatype Input = Input(now: bv32, ack: Option<Arrival>, read: Option<Chunk>, sendTime: bv32)

  function AckTurn(s: SenderState, i: Input): SenderState {
    if i.ack.Some? then OnAck(AfterFast(s), i.ack.value) else AfterFast(s)
  }

  /** Whether the turn reads from the input. */
  predicate Reads(s: SenderState, i: Input) { i.read.Some? && CanSend(AckTurn(s, i)) }

  predicate SendsChunk(s: SenderState, i: Input) { Reads(s, i) && i.read.value != [] }

  /** The end of the input with nothing left unacknowledged ends the loop. */
  predicate Ends(s: SenderState, i: Input) {
    Reads(s, i) && i.read.value == [] && AckTurn(s, i).free == WINDOW_SIZE
  }

  function Turn(s: SenderState, i: Input): SenderState {
    if SendsChunk(s, i) then Send(AckTurn(s, i), i.read.value, i.sendTime) else AckTurn(s, i)
  }

  function Resent(s: SenderState, i: Input): seq<Packet> {
    FastResent(s) + TimedOut(AfterFast(s), i.now)
  }

  function Sent(s: SenderState, i: Input): seq<Packet> {
    Resent(s, i) + (if SendsChunk(s, i) then [ChunkPacket(AckTurn(s, i), i.read.value, i.sendTime)] else [])
  }

  /** A turn resends only what is buffered. */
  lemma ResentBuffered(s: SenderState, i: Input, p: Packet)
    requires p in Resent(s, i)
    ensures Some(p) in s.slots
  {
    SelectBuffered(s.slots, Asked(s.lastack), p);
    SelectBuffered(s.slots, Due(i.now, s.seqnum), p);
  }

  // ----- the steps of a turn, one by one -----

  /** The timer sends a packet exactly if it is buffered with an older stamp and no number beyond the
      sender's, and fewer than 31 slots count as free. */
  lemma TimerIff(s: SenderState, now: bv32, p: Packet)
    ensures p in TimedOut(s, now) <==>
            s.free < 31 && Some(p) in s.slots && Older(p, now) && p.seqnum <= s.seqnum
  {
    if s.free < 31 {
      SelectBuffered(s.slots, Due(now, s.seqnum), p);
    }
  }

  /** Fast retransmit sends a packet exactly if it is buffered under the number last acknowledged and
      the count has come to 3, and starts the count again exactly if it sends something. */
  lemma FastIff(s: SenderState, p: Packet)
    ensures p in FastResent(s) <==> s.count >= 3 && Some(p) in s.slots && p.seqnum == s.lastack
    ensures AfterFast(s) == s.(count := if FastResent(s) != [] then 0 else s.count)
  {
    SelectBuffered(s.slots, Asked(s.lastack), p);
  }

  /** Only an acknowledgement that decodes does anything: it becomes the last one, counts if it repeats
      it, and clears exactly the slots of lower numbers, which then count as free, but none
      if it is ahead of all that was sent. */
  lemma AckIff(s: SenderState, a: Arrival)
    ensures var t := OnAck(s, a);
            if a == Rejected || a.p.typ != 2 then t == s
            else
              && t.lastack == a.p.seqnum && t.seqnum == s.seqnum
              && t.count == s.count + (if a.p.seqnum == s.lastack then 1 else 0)
              && (forall i :: 0 <= i < 31 ==>
                    t.slots[i] == if s.slots[i].Some? && s.slots[i].value.seqnum < a.p.seqnum <= s.seqnum then None
                                  else s.slots[i])
              && (t.free + Occupied(t.slots) - s.free - Occupied(s.slots)) % 256 == 0
  {}

  /** A chunk that is sent takes the first free slot and the next number; without one it takes neither,
      but is counted all the same. Its packet has the number before, the length and the stamp. */
  lemma ChunkKept(s: SenderState, chunk: Chunk, now: bv32)
    ensures var t, p := Send(s, chunk, now), ChunkPacket(s, chunk, now);
            && p == Packet(1, false, t.free % 32, s.seqnum, |chunk|, now, Some(chunk))
            && t.free == (if s.free == 0 then 255 else s.free - 1)
            && t.lastack == s.lastack && t.count == s.count
            && (None in s.slots ==>
                  && t.seqnum == (if s.seqnum == 255 then 0 else s.seqnum + 1)
                  && exists h :: 0 <= h < 31 && s.slots[h] == None && (forall i :: 0 <= i < h ==> s.slots[i] != None)
                                 && t.slots == s.slots[h := Some(p)])
            && (None !in s.slots ==> t.seqnum == s.seqnum && t.slots == s.slots)
  {
    var h := FirstHole(s.slots);
    if h < WINDOW_SIZE {
      assert s.slots[h] == None;
      assert Send(s, chunk, now).slots == s.slots[h := Some(ChunkPacket(s, chunk, now))];
    }
  }

  /** A turn reads exactly if the input is readable and the number is below the last acknowledged one
      plus the free slots, both as the turn's acknowledgement left them. It ends
      at the end of the input with 31 slots free, and else sends what was read, after
      what it resends, that for fast retransmit first. */
  lemma TurnIff(s: SenderState, i: Input)
    ensures var mid, sent := AckTurn(s, i), Sent(s, i);
            var open := i.read.Some? && mid.seqnum < mid.lastack + mid.free;
            && (Ends(s, i) <==> open && i.read.value == [] && mid.free == 31)
            && (SendsChunk(s, i) <==> open && i.read.value != [])
            && FastResent(s) + TimedOut(AfterFast(s), i.now) <= sent
            && (SendsChunk(s, i) ==> sent != [] && sent[|sent| - 1] == ChunkPacket(mid, i.read.value, i.sendTime))
            && (!SendsChunk(s, i) ==> Turn(s, i) == mid)
            && |sent| == |FastResent(s)| + |TimedOut(AfterFast(s), i.now)| + (if SendsChunk(s, i) then 1 else 0)
  {}

  // ----- counting repetitions -----

  function OnAcks(s: SenderState, acks: seq<Packet>): SenderState
    decreases |acks|
  {
    if acks == [] then s else OnAcks(OnAck(s, Decoded(acks[0])), acks[1..])
  }

  /** How often a number equals the one before it. */
  function Repetitions(last: uint8, acks: seq<Packet>): nat
    decreases |acks|
  {
    if acks == [] then 0
    else (if acks[0].seqnum == last then 1 else 0) + Repetitions(acks[0].seqnum, acks[1..])
  }

  /** Between fast retransmissions the count is that of all repetitions: it is not reset by a new
      number, so repetitions of different numbers add up. */
  lemma {:induction false} CountIsRepetitions(s: SenderState, acks: seq<Packet>)
    requires forall k :: 0 <= k < |acks| ==> acks[k].typ == PTYPE_ACK
    ensures OnAcks(s, acks).count == s.count + Repetitions(s.lastack, acks)
    decreases |acks|
  {
    if acks != [] {
      CountIsRepetitions(OnAck(s, Decoded(acks[0])), acks[1..]);
    }
  }

  // ----- what the count should be -----

  /** The number acknowledged before the k-th of `acks`. */
  function Before(last: uint8, acks: seq<Packet>, k: nat): uint8
    requires k < |acks|
  {
    if k == 0 then last else acks[k - 1].seqnum
  }

  /** How often the number n equals the one before it. */
  function RepetitionsOf(n: uint8, last: uint8, acks: seq<Packet>): nat
    decreases |acks|
  {
    if acks == [] then 0
    else (if acks[0].seqnum == last == n then 1 else 0) + RepetitionsOf(n, acks[0].seqnum, acks[1..])
  }

  /** No number but n is repeated. */
  predicate OnlyRepeats(n: uint8, last: uint8, acks: seq<Packet>) {
    forall k :: 0 <= k < |acks| && acks[k].seqnum == Before(last, acks, k) ==> acks[k].seqnum == n
  }

  lemma {:induction false} RepetitionsIff(n: uint8, last: uint8, acks: seq<Packet>)
    ensures RepetitionsOf(n, last, acks) <= Repetitions(last, acks)
    ensures RepetitionsOf(n, last, acks) == Repetitions(last, acks) <==> OnlyRepeats(n, last, acks)
    decreases |acks|
  {
    if acks != [] {
      var m, tail := acks[0].seqnum, acks[1..];
      RepetitionsIff(n, m, tail);
      assert forall k :: 0 <= k < |tail| ==> Before(m, tail, k) == Before(last, acks, k + 1);
      assert OnlyRepeats(n, last, acks) <==> (m == last ==> m == n) && OnlyRepeats(n, m, tail) by {
        if OnlyRepeats(n, last, acks) {
          assert Before(last, acks, 0) == last;
          forall k | 0 <= k < |tail| && tail[k].seqnum == Before(m, tail, k) ensures tail[k].seqnum == n {
            assert acks[k + 1].seqnum == Before(last, acks, k + 1);
          }
        }
      }
    }
  }

  /** From a count of 0, the count is that of the repetitions of the number now asked for exactly
      when no other number was repeated. */
  lemma CountIff(s: SenderState, acks: seq<Packet>)
    requires s.count == 0 && forall k :: 0 <= k < |acks| ==> acks[k].typ == PTYPE_ACK
    ensures var t := OnAcks(s, acks);
            t.count == RepetitionsOf(t.lastack, s.lastack, acks) <==> OnlyRepeats(t.lastack, s.lastack, acks)
  {
    CountIsRepetitions(s, acks);
    RepetitionsIff(OnAcks(s, acks).lastack, s.lastack, acks);
  }
}
