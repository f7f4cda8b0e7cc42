/** What the receiver writes over bytes, chunk by chunk, and what the cut costs: a chunk that cannot
    pass the link is never passed, however often it is sent, and the transfer never ends. */
module Stall {
  import opened Basics
  import opened Codec
  import opened Receiver
  import opened Transfer
  import opened Truncation
  import opened Wire
  import opened Shadow
  import Sender

  // ----- what is written -----

  /** `p` carries what may be taken for the chunk with its number. */
  ghost predicate Stands(ch: Channel, chunks: seq<seq<byte>>, p: Packet) {
    p.seqnum < |chunks| && Accepted(ch, chunks[p.seqnum], Payload(p))
  }

  /** For each chunk below the number expected, something that may be taken for it. */
  ghost predicate StandsFor(ch: Channel, chunks: seq<seq<byte>>, ws: seq<seq<byte>>) {
    |ws| <= |chunks| && forall k :: 0 <= k < |ws| ==> Accepted(ch, chunks[k], ws[k])
  }

  /** `ws` is what the receiver has written; what it holds may be taken for chunks too. */
  ghost predicate Wrote(ch: Channel, chunks: seq<seq<byte>>, r: ReceiverState, ws: seq<seq<byte>>) {
    && |ws| == r.seqnum && r.output == Concat(ws) && StandsFor(ch, chunks, ws)
    && forall i :: 0 <= i < WINDOW_SIZE && r.slots[i].Some? ==> Stands(ch, chunks, r.slots[i].value)
  }

  lemma WroteOne(ch: Channel, chunks: seq<seq<byte>>, r: ReceiverState, ws: seq<seq<byte>>, p: Packet)
    requires |chunks| <= 255 && Wrote(ch, chunks, r, ws) && Stands(ch, chunks, p) && p.seqnum == r.seqnum
    ensures Wrote(ch, chunks, r.(seqnum := IncSeqnum(r.seqnum), output := r.output + Payload(p)), ws + [Payload(p)])
  {
    ConcatSnoc(ws, Payload(p));
  }

  lemma {:induction false} DrainWrote(ch: Channel, chunks: seq<seq<byte>>, r: ReceiverState, i: nat, ws: seq<seq<byte>>)
    returns (more: seq<seq<byte>>)
    requires |chunks| <= 255 && Wrote(ch, chunks, r, ws)
    ensures Wrote(ch, chunks, DrainFrom(r, i), more)
    decreases Occupied(r.slots), WINDOW_SIZE - i
  {
    more := ws;
    if i < WINDOW_SIZE {
      if Holds(r.slots[i], r.seqnum) {
        OccupiedUpdate(r.slots, i, None);
        WroteOne(ch, chunks, r, ws, r.slots[i].value);
        more := DrainWrote(ch, chunks, Take(r, i), 1, ws + [Payload(r.slots[i].value)]);
      } else {
        more := DrainWrote(ch, chunks, r, i + 1, ws);
      }
    }
  }

  lemma {:induction false} StoreWrote(
    ch: Channel, chunks: seq<seq<byte>>, r: ReceiverState, p: Packet, i: nat, ws: seq<seq<byte>>)
    requires Wrote(ch, chunks, r, ws) && Stands(ch, chunks, p)
    ensures Wrote(ch, chunks, StoreFrom(r, p, i), ws)
    decreases WINDOW_SIZE - i
  {
    if i < WINDOW_SIZE && !Holds(r.slots[i], p.seqnum) && r.slots[i] != None {
      StoreWrote(ch, chunks, r, p, i + 1, ws);
    }
  }

  lemma ReceiveWrote(ch: Channel, chunks: seq<seq<byte>>, r: ReceiverState, a: Arrival, ws: seq<seq<byte>>)
    returns (more: seq<seq<byte>>)
    requires |chunks| <= 255 && Wrote(ch, chunks, r, ws) && (a.Decoded? ==> Stands(ch, chunks, a.p))
    ensures Wrote(ch, chunks, Receive(r, a).0, more)
  {
    more := ws;
    if a.Decoded? && a.p.typ == PTYPE_DATA {
      if a.p.seqnum == r.seqnum {
        WroteOne(ch, chunks, r, ws, a.p);
        more := DrainWrote(ch, chunks, r.(seqnum := IncSeqnum(r.seqnum), output := r.output + Payload(a.p)), 0,
                           ws + [Payload(a.p)]);
      } else {
        StoreWrote(ch, chunks, r, a.p, 0, ws);
      }
    }
  }

  lemma ArrivalStands(ch: Channel, s: Session, a: Arrival)
    requires WellFormed(s) && NumbersGood(s) && DataDelivered(ch, s, a)
    ensures a.Decoded? ==> Stands(ch, s.chunks, a.p)
  {
    var p :| p in s.data && DataFrom(ch, p, a);
    assert Of(s.chunks, p) && Carries(s.chunks, p);
    var w := FromData(ch, p, a);
    WholePayload(p, p.payload.value);
    if a.Decoded? {
      AcceptedLength(ch, p.payload.value, w);
      WholePayload(WithPayload(p, w), w);
    }
  }

  lemma AcceptedLength(ch: Channel, c: seq<byte>, w: seq<byte>)
    requires Accepted(ch, c, w)
    ensures |w| == |c|
  {}

  lemma WholePayload(p: Packet, w: seq<byte>)
    requires p.payload == Some(w) && p.length == |w|
    ensures Payload(p) == w
  {}

  lemma WroteMore(ch: Channel, chunks: seq<seq<byte>>, c: seq<byte>, r: ReceiverState, ws: seq<seq<byte>>)
    requires Wrote(ch, chunks, r, ws)
    ensures Wrote(ch, chunks + [c], r, ws)
  {}

  lemma WroteStep(ch: Channel, s: Session, l: Step, ws: seq<seq<byte>>) returns (more: seq<seq<byte>>)
    requires WellFormed(s) && NumbersGood(s) && |s.chunks| <= 255 && Wrote(ch, s.chunks, s.rcv, ws)
    requires WireEnabled(ch, s, l)
    ensures Wrote(ch, Apply(s, l).chunks, Apply(s, l).rcv, more)
  {
    match l
    case SenderStep(i) =>
      more := ws;
      if Sender.SendsChunk(s.snd, i) {
        WroteMore(ch, s.chunks, i.read.value, s.rcv, ws);
      }
    case ReceiverStep(a) =>
      ArrivalStands(ch, s, a);
      more := ReceiveWrote(ch, s.chunks, s.rcv, a, ws);
  }

  /** In every run of at most 255 chunks, over any channel and whatever the chunks are, the output is
      the concatenation of one piece for each chunk below the number expected, each
      of which may be taken for its chunk. */
  lemma {:induction false} AlwaysWrote(ch: Channel, run: seq<Session>) returns (ws: seq<seq<byte>>)
    requires WireRun(ch, run) && |Last(run).chunks| <= 255
    ensures Wrote(ch, Last(run).chunks, Last(run).rcv, ws)
  {
    if |run| == 1 {
      ws := [];
    } else {
      var init, l := LastStep(ch, run);
      ws := AlwaysWrote(ch, init);
      AlwaysWellFormed(ch, init);
      AlwaysNumbersGood(ch, init);
      ws := WroteStep(ch, Last(init), l, ws);
    }
  }

  // ----- a chunk that cannot pass -----

  /** A chunk that cannot pass is never passed, whatever the others are: nothing after it is written,
      and the sender never ends. What is written is right if none of the chunks before it
      can be taken for another one. */
  lemma NeverPassed(ch: Channel, run: seq<Session>, k: nat)
    requires WireRun(ch, run) && |Last(run).chunks| <= 255
    requires k < |Last(run).chunks| && !Passable(ch, Last(run).chunks[k])
    ensures var s := Last(run);
            && s.rcv.seqnum <= k && !s.finished
            && (Sound(ch, s.chunks[..k]) ==> s.rcv.output == Concat(s.chunks[..s.rcv.seqnum]))
  {
    var s := Last(run);
    var ws := AlwaysWrote(ch, run);
    AlwaysNumbersGood(ch, run);
    PassableIff(ch, s.chunks[k]);
    if Sound(ch, s.chunks[..k]) {
      SoundWritten(ch, s.chunks, ws, k);
    }
  }

  lemma SoundWritten(ch: Channel, chunks: seq<seq<byte>>, ws: seq<seq<byte>>, k: nat)
    requires StandsFor(ch, chunks, ws) && |ws| <= k <= |chunks| && Sound(ch, chunks[..k])
    ensures ws == chunks[..|ws|]
  {
    forall i | 0 <= i < |ws| ensures ws[i] == chunks[i] {
      assert chunks[..k][i] == chunks[i];
      AcceptedItself(ch, chunks[i], ws[i]);
    }
  }

  /** There are such chunks, full ones: a session that starts with this one never writes a byte. */
  lemma NothingWritten(errors: bool, run: seq<Session>)
    requires WireRun(Link(errors), run) && 0 < |Last(run).chunks| <= 255 && Last(run).chunks[0] == Lost()
    ensures |Lost()| == MAX_PAYLOAD_SIZE && Last(run).rcv.output == [] && !Last(run).finished
  {
    LostNeverPasses();
    NeverPassed(Link(errors), run, 0);
    assert Last(run).chunks[..0] == [];
  }
}
