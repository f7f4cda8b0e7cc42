/** One turn of the loop of `read_write_loop`, imperative, on the slot array. */
module SenderLoop {
  import opened Basics
  import opened Codec
  import opened Receiver
  import Sender

  function SlotsUpTo(s: Sender.SenderState, n: uint8, i: nat): Slots
    requires i <= WINDOW_SIZE
  {
    Sender.Freed(s.slots, n, s.seqnum)[..i] + s.slots[i..]
  }

  /** The state when the loop that frees acknowledged slots has come to slot i. */
  function FreedUpTo(s: Sender.SenderState, n: uint8, i: nat): Sender.SenderState
    requires i <= WINDOW_SIZE
  {
    var slots := SlotsUpTo(s, n, i);
    s.(slots := slots, free := (s.free + Occupied(s.slots) - Occupied(slots)) % 256)
  }

  lemma FreedNext(s: Sender.SenderState, n: uint8, i: nat)
    requires i < WINDOW_SIZE
    ensures var slots := SlotsUpTo(s, n, i);
            && slots[i] == s.slots[i]
            && SlotsUpTo(s, n, i + 1) ==
               slots[i := if Sender.Acknowledges(n, s.seqnum, s.slots[i]) then None else s.slots[i]]
    ensures var t, u := FreedUpTo(s, n, i), FreedUpTo(s, n, i + 1);
            u.free == (t.free + Occupied(t.slots) - Occupied(u.slots)) % 256
  {
    ModSum(s.free + Occupied(s.slots), Occupied(SlotsUpTo(s, n, i)), Occupied(SlotsUpTo(s, n, i + 1)));
  }

  lemma FreedAtFirst(s: Sender.SenderState, n: uint8)
    ensures FreedUpTo(s, n, 0) == s
  {
    assert SlotsUpTo(s, n, 0) == s.slots;
  }

  lemma FreedAtLast(s: Sender.SenderState, n: uint8)
    ensures FreedUpTo(s, n, WINDOW_SIZE) ==
            s.(slots := Sender.Freed(s.slots, n, s.seqnum),
               free := (s.free + Sender.FreedCount(s.slots, n, s.seqnum)) % 256)
  {
    assert SlotsUpTo(s, n, WINDOW_SIZE) == Sender.Freed(s.slots, n, s.seqnum);
  }

  lemma ModSum(a: int, b: int, c: int)
    ensures (a - c) % 256 == ((a - b) % 256 + b - c) % 256
  {}

  class Loop {
    const senderBuffer: array<Option<Packet>>
    var seqnum: uint8
    var lastack: uint8
    var count: nat
    var senderBufferSize: uint8

    ghost predicate Valid()
      reads this
    {
      senderBuffer.Length == WINDOW_SIZE
    }

    function Contents(): Sender.SenderState
      requires senderBuffer.Length == WINDOW_SIZE
      reads this, senderBuffer
    {
      Sender.SenderState(seqnum, lastack, count, senderBufferSize, senderBuffer[..])
    }

    constructor ()
      ensures Valid() && fresh(senderBuffer) && Contents() == Sender.Start()
    {
      var slots := new Option<Packet>[WINDOW_SIZE](_ => None);
      senderBuffer := slots;
      seqnum, lastack, count, senderBufferSize := 0, 0, 0, WINDOW_SIZE;
      new;
      assert senderBuffer[..] == Sender.Start().slots;
    }

    method FastRetransmit() returns (sent: seq<Packet>)
      requires Valid()
      modifies this
      ensures Contents() == Sender.AfterFast(old(Contents())) && sent == Sender.FastResent(old(Contents()))
    {
      sent := [];
      if count >= 3 {
        ghost var s := Contents();
        for i := 0 to WINDOW_SIZE
          invariant senderBuffer[..] == s.slots && sent == Sender.Select(s.slots[..i], Sender.Asked(s.lastack))
          invariant Contents() == if sent == [] then s else s.(count := 0)
        {
          assert s.slots[..i + 1][..i] == s.slots[..i];
          if senderBuffer[i].Some? && senderBuffer[i].value.seqnum == lastack {
            sent := sent + [senderBuffer[i].value];
            count := 0;
          }
        }
        assert s.slots[..WINDOW_SIZE] == s.slots;
      }
    }

    method Retransmit(now: bv32) returns (sent: seq<Packet>)
      requires Valid()
      ensures sent == Sender.TimedOut(Contents(), now)
    {
      sent := [];
      if senderBufferSize < WINDOW_SIZE {
        ghost var s := Contents();
        for i := 0 to WINDOW_SIZE
          invariant sent == Sender.Select(s.slots[..i], Sender.Due(now, seqnum))
        {
          assert s.slots[..i + 1][..i] == s.slots[..i];
          if senderBuffer[i].Some? {
            var p := senderBuffer[i].value;
            if Sender.Wanted(Sender.Due(now, seqnum), p) {
              sent := sent + [p];
            }
          }
        }
        assert s.slots[..WINDOW_SIZE] == s.slots;
      }
    }

    method HandleAck(a: Arrival)
      requires Valid()
      modifies this, senderBuffer
      ensures Contents() == Sender.OnAck(old(Contents()), a)
    {
      if a.Decoded? && a.p.typ == PTYPE_ACK {
        var n := a.p.seqnum;
        if lastack == n {
          count := count + 1;
        }
        lastack := n;
        FreedAtLast(Contents(), n);
        FreeAcknowledged(n);
      }
    }

    method FreeAcknowledged(n: uint8)
      requires Valid()
      modifies this`senderBufferSize, senderBuffer
      ensures Contents() == FreedUpTo(old(Contents()), n, WINDOW_SIZE)
    {
      ghost var t := Contents();
      FreedAtFirst(t, n);
      for i := 0 to WINDOW_SIZE
        invariant Contents() == FreedUpTo(t, n, i)
      {
        FreeIfAcknowledged(i, n, t);
      }
    }

    /** One turn of that loop. */
    method FreeIfAcknowledged(i: nat, n: uint8, ghost t: Sender.SenderState)
      requires Valid() && i < WINDOW_SIZE && Contents() == FreedUpTo(t, n, i)
      modifies this`senderBufferSize, senderBuffer
      ensures Contents() == FreedUpTo(t, n, i + 1)
    {
      FreedNext(t, n, i);
      if senderBuffer[i].Some? && n > senderBuffer[i].value.seqnum && n <= seqnum {
        FreeSlot(i);
      } else {
        assert senderBuffer[..] == SlotsUpTo(t, n, i + 1);
      }
    }

    method FreeSlot(i: nat)
      requires Valid() && i < WINDOW_SIZE && senderBuffer[i].Some?
      modifies this`senderBufferSize, senderBuffer
      ensures senderBuffer[..] == old(senderBuffer[..])[i := None]
      ensures Occupied(senderBuffer[..]) == old(Occupied(senderBuffer[..])) - 1
      ensures senderBufferSize == (old(senderBufferSize) + 1) % 256
    {
      OccupiedUpdate(senderBuffer[..], i, None);
      senderBuffer[i] := None;
      senderBufferSize := (senderBufferSize + 1) % 256;
      assert senderBuffer[..] == old(senderBuffer[..])[i := None];
    }

    method SendChunk(chunk: Sender.Chunk, now: bv32) returns (p: Packet)
      requires Valid()
      modifies this, senderBuffer
      ensures Contents() == Sender.Send(old(Contents()), chunk, now)
      ensures p == Sender.ChunkPacket(old(Contents()), chunk, now)
    {
      ghost var s := Contents();
      senderBufferSize := Sender.Decremented(senderBufferSize);
      p := Packet(PTYPE_DATA, false, senderBufferSize % 32, seqnum, |chunk|, now, Some(chunk));
      var i := 0;
      while i < WINDOW_SIZE
        invariant 0 <= i <= WINDOW_SIZE && i <= FirstHole(s.slots)
        invariant Contents() == s.(free := Sender.Decremented(s.free))
      {
        if senderBuffer[i] == None {
          senderBuffer[i] := Some(p);
          seqnum := IncSeqnum(seqnum);
          break;
        }
        i := i + 1;
      }
    }

    /** One turn of the loop; `sent` lists the packets given to `sendto`, in order. */
    method Turn(i: Sender.Input) returns (sent: seq<Packet>, done: bool)
      requires Valid()
      modifies this, senderBuffer
      ensures Contents() == Sender.Turn(old(Contents()), i)
      ensures sent == Sender.Sent(old(Contents()), i) && done == Sender.Ends(old(Contents()), i)
    {
      done := false;
      sent := FastRetransmit();
      var resent := Retransmit(i.now);
      sent := sent + resent;
      if i.ack.Some? {
        HandleAck(i.ack.value);
      }
      if i.read.Some? && seqnum < lastack + senderBufferSize {
        if |i.read.value| == 0 && senderBufferSize == WINDOW_SIZE {
          done := true;
        } else if |i.read.value| > 0 {
          var p := SendChunk(i.read.value, i.sendTime);
          sent := sent + [p];
        }
      }
    }
  }
}
