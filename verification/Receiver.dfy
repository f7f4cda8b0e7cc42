/** The receiver: `receiver_loop` buffers packets that arrive out of order, writes what is
    expected, drains the buffer and acknowledges. As functions on values. */
module Receiver {
  import opened Basics
  import opened Codec

  const WINDOW_SIZE := 31

  function IncSeqnum(s: uint8): uint8 { (s + 1) % 256 }

  /** What decoding a received datagram amounts to. */
  datatype Arrival = Decoded(p: Packet) | Rejected

  type Slots = s: seq<Option<Packet>> | |s| == WINDOW_SIZE witness seq(WINDOW_SIZE, i => None)

  /** `output` is what was written to the file so far. */
  datatype ReceiverState = ReceiverState(seqnum: uint8, window: nat, slots: Slots, output: seq<byte>)

  function Start(): ReceiverState {
    ReceiverState(0, WINDOW_SIZE, seq(WINDOW_SIZE, i => None), [])
  }

  predicate Holds(o: Option<Packet>, n: int) { o.Some? && o.value.seqnum == n }

  /** The payload a write takes from a packet: `pkt_get_length` bytes. */
  function Payload(p: Packet): seq<byte> {
    if p.payload.Some? && p.length <= |p.payload.value| then p.payload.value[..p.length] else []
  }

  /** The search for a place: it stops at a copy of the packet or at the first hole. */
  function StoreFrom(r: ReceiverState, p: Packet, i: nat): ReceiverState
    decreases WINDOW_SIZE - i
  {
    if i >= WINDOW_SIZE || Holds(r.slots[i], p.seqnum) then r
    else if r.slots[i] == None then
      r.(slots := r.slots[i := Some(p)], window := if r.window == 0 then 255 else r.window - 1)
    else StoreFrom(r, p, i + 1)
  }

  function FirstHole(slots: seq<Option<Packet>>): (h: nat)
    ensures h <= |slots|
    ensures h < |slots| ==> slots[h] == None
    ensures forall i :: 0 <= i < h ==> slots[i] != None
  {
    if slots == [] then 0
    else if slots[0] == None then 0
    else FirstHole(slots[1..]) + 1
  }

  lemma {:induction false} StoreSearch(r: ReceiverState, p: Packet, i: nat)
    requires i <= FirstHole(r.slots) && forall j :: 0 <= j < i ==> !Holds(r.slots[j], p.seqnum)
    ensures var h := FirstHole(r.slots);
            StoreFrom(r, p, i) ==
            if h == WINDOW_SIZE || (exists j :: 0 <= j < h && Holds(r.slots[j], p.seqnum)) then r
            else r.(slots := r.slots[h := Some(p)], window := if r.window == 0 then 255 else r.window - 1)
    decreases WINDOW_SIZE - i
  {
    if i < WINDOW_SIZE && !Holds(r.slots[i], p.seqnum) && r.slots[i] != None {
      StoreSearch(r, p, i + 1);
    }
  }

  /** What the search amounts to: a packet inside the window goes to the first free slot, unless
      there is none or one of the slots before it holds the same number. A copy
      behind that slot is not noticed. */
  lemma BufferStores(r: ReceiverState, p: Packet)
    requires Balanced(r) && r.seqnum < p.seqnum < r.seqnum + r.window
    ensures var h := FirstHole(r.slots);
            && h < WINDOW_SIZE
            && Buffer(r, p) ==
               if exists j :: 0 <= j < h && Holds(r.slots[j], p.seqnum) then r
               else r.(slots := r.slots[h := Some(p)], window := r.window - 1)
  {
    StoreSearch(r, p, 0);
    if FirstHole(r.slots) == WINDOW_SIZE {
      NoHole(r.slots);
    }
  }

  lemma {:induction false} NoHole(slots: seq<Option<Packet>>)
    requires forall i :: 0 <= i < |slots| ==> slots[i] != None
    ensures Occupied(slots) == |slots|
  {
    if slots != [] {
      NoHole(slots[..|slots| - 1]);
    }
  }

  /** How many slots are occupied. */
  function Occupied(slots: seq<Option<Packet>>): nat {
    if slots == [] then 0
    else Occupied(slots[..|slots| - 1]) + (if slots[|slots| - 1] == None then 0 else 1)
  }

  lemma {:induction false} OccupiedUpdate(slots: seq<Option<Packet>>, i: nat, o: Option<Packet>)
    requires i < |slots|
    ensures Occupied(slots[i := o]) ==
            Occupied(slots) - (if slots[i] == None then 0 else 1) + (if o == None then 0 else 1)
  {
    var n := |slots| - 1;
    if i == n {
      assert slots[i := o][..n] == slots[..n];
    } else {
      assert slots[i := o][..n] == slots[..n][i := o];
      OccupiedUpdate(slots[..n], i, o);
    }
  }

  /** Taking the expected packet out of slot `i` and writing it. */
  function Take(r: ReceiverState, i: nat): ReceiverState
    requires i < WINDOW_SIZE && r.slots[i].Some?
  {
    ReceiverState(IncSeqnum(r.seqnum), (r.window + 1) % 256, r.slots[i := None], r.output + Payload(r.slots[i].value))
  }

  /** The drain loop from index `i` on. After each packet taken it resumes at index 1:
      the loop sets its index to 0 and then steps. */
  function DrainFrom(r: ReceiverState, i: nat): ReceiverState
    decreases Occupied(r.slots), WINDOW_SIZE - i
  {
    if i >= WINDOW_SIZE then r
    else if Holds(r.slots[i], r.seqnum) then
      OccupiedUpdate(r.slots, i, None);
      DrainFrom(Take(r, i), 1)
    else DrainFrom(r, i + 1)
  }

  function AckOf(r: ReceiverState): Packet {
    Packet(PTYPE_ACK, false, r.window % 32, r.seqnum, 0, 0, None)
  }

  function Accept(r: ReceiverState, p: Packet): ReceiverState {
    DrainFrom(r.(seqnum := IncSeqnum(r.seqnum), output := r.output + Payload(p)), 0)
  }

  function Buffer(r: ReceiverState, p: Packet): ReceiverState {
    if r.seqnum < p.seqnum < r.seqnum + r.window then StoreFrom(r, p, 0) else r
  }

  /** One datagram: the new state and the acknowledgement sent back, if any. */
  function Receive(r: ReceiverState, a: Arrival): (ReceiverState, Option<Packet>) {
    match a
    case Rejected => (r, Some(AckOf(r)))
    case Decoded(p) =>
      if p.typ != PTYPE_DATA then (r, None)
      else
        var t := if p.seqnum == r.seqnum then Accept(r, p) else Buffer(r, p);
        (t, Some(AckOf(t)))
  }

  /** What is written stays written. */
  lemma {:induction false} DrainExtends(r: ReceiverState, i: nat)
    ensures r.output <= DrainFrom(r, i).output
    decreases Occupied(r.slots), WINDOW_SIZE - i
  {
    if i < WINDOW_SIZE {
      if Holds(r.slots[i], r.seqnum) {
        OccupiedUpdate(r.slots, i, None);
        DrainExtends(Take(r, i), 1);
      } else {
        DrainExtends(r, i + 1);
      }
    }
  }

  // ----- accounting: every sequence of packets, sequence numbers wrapping or not -----

  /** The advertised window and the occupied slots always add up to 31. */
  ghost predicate Balanced(r: ReceiverState) { r.window + Occupied(r.slots) == WINDOW_SIZE }

  lemma {:induction false} StoreBalanced(r: ReceiverState, p: Packet, i: nat)
    requires Balanced(r)
    ensures Balanced(StoreFrom(r, p, i))
    decreases WINDOW_SIZE - i
  {
    if i < WINDOW_SIZE && !Holds(r.slots[i], p.seqnum) {
      if r.slots[i] == None {
        OccupiedUpdate(r.slots, i, Some(p));
        AllOccupied(r.slots[i := Some(p)]);
      } else {
        StoreBalanced(r, p, i + 1);
      }
    }
  }

  lemma {:induction false} AllOccupied(slots: seq<Option<Packet>>)
    ensures Occupied(slots) <= |slots|
  {
    if slots != [] {
      AllOccupied(slots[..|slots| - 1]);
    }
  }

  /** The drain loop keeps the balance and leaves no slot of index 1 or more holding the
      expected number. */
  lemma {:induction false} DrainBalanced(r: ReceiverState, i: nat)
    requires Balanced(r)
    requires forall j :: 1 <= j < i && j < WINDOW_SIZE ==> !Holds(r.slots[j], r.seqnum)
    ensures var t := DrainFrom(r, i);
            && Balanced(t)
            && forall j :: 1 <= j < WINDOW_SIZE ==> !Holds(t.slots[j], t.seqnum)
    decreases Occupied(r.slots), WINDOW_SIZE - i
  {
    if i < WINDOW_SIZE {
      if Holds(r.slots[i], r.seqnum) {
        OccupiedUpdate(r.slots, i, None);
        DrainBalanced(Take(r, i), 1);
      } else {
        DrainBalanced(r, i + 1);
      }
    }
  }

  lemma ReceiveBalanced(r: ReceiverState, a: Arrival)
    requires Balanced(r)
    ensures Balanced(Receive(r, a).0)
  {
    if a.Decoded? && a.p.typ == PTYPE_DATA {
      if a.p.seqnum == r.seqnum {
        DrainBalanced(r.(seqnum := IncSeqnum(r.seqnum), output := r.output + Payload(a.p)), 0);
      } else {
        StoreBalanced(r, a.p, 0);
      }
    }
  }

  /** Every reply carries the next number expected and the number of free slots, and is one
      the decoder accepts. Only a well-formed packet that is not DATA gets none. */
  lemma ReplyDescribesState(r: ReceiverState, a: Arrival)
    requires Balanced(r)
    ensures var (t, ack) := Receive(r, a);
            && (ack == None <==> a.Decoded? && a.p.typ != PTYPE_DATA)
            && (ack.Some? ==>
                  && ack.value.typ == PTYPE_ACK && Acceptable(ack.value)
                  && ack.value.seqnum == t.seqnum
                  && ack.value.window == WINDOW_SIZE - Occupied(t.slots))
  {
    ReceiveBalanced(r, a);
  }

  /** What is not a DATA packet changes nothing: without a reply if it decodes, with one if not. */
  lemma NotData(r: ReceiverState, a: Arrival)
    requires a.Decoded? ==> a.p.typ != 1
    ensures Receive(r, a) == (r, if a.Decoded? then None else Some(AckOf(r)))
  {}

  /** A copy of p lies before the first free slot. */
  predicate CopyNoticed(r: ReceiverState, p: Packet) {
    exists j :: 0 <= j < FirstHole(r.slots) && Holds(r.slots[j], p.seqnum)
  }

  /** A DATA packet that is not the expected one is answered in any case, and changes something exactly
      when its number is less than the window ahead and no copy is noticed: then it takes the first
      free slot and narrows the window by one. An old or a far one changes nothing. */
  lemma UnexpectedIff(r: ReceiverState, p: Packet)
    requires Balanced(r) && p.typ == 1 && p.seqnum != r.seqnum
    ensures var (t, ack), h := Receive(r, Decoded(p)), FirstHole(r.slots);
            && ack == Some(AckOf(t))
            && (t != r <==> 0 < p.seqnum - r.seqnum < 31 - Occupied(r.slots) && !CopyNoticed(r, p))
            && (t != r ==> h < 31 && t == r.(slots := r.slots[h := Some(p)], window := r.window - 1))
  {
    StoreSearch(r, p, 0);
    if r.seqnum < p.seqnum < r.seqnum + r.window {
      BufferStores(r, p);
    }
  }

  function ReceiveAll(r: ReceiverState, arrivals: seq<Arrival>): ReceiverState
    decreases |arrivals|
  {
    if arrivals == [] then r else ReceiveAll(Receive(r, arrivals[0]).0, arrivals[1..])
  }

  lemma {:induction false} AlwaysBalanced(r: ReceiverState, arrivals: seq<Arrival>)
    requires Balanced(r)
    ensures Balanced(ReceiveAll(r, arrivals))
    decreases |arrivals|
  {
    if arrivals != [] {
      ReceiveBalanced(r, arrivals[0]);
      AlwaysBalanced(Receive(r, arrivals[0]).0, arrivals[1..]);
    }
  }

  // ----- how far the drain loop gets -----

  function Ahead(s: int, d: int): int { (s + d) % 256 }

  /** Some slot of index 1 or more holds the number `n`. */
  predicate HeldPastZero(slots: Slots, n: int) {
    exists j :: 1 <= j < WINDOW_SIZE && Holds(slots[j], n)
  }

  /** Slots of index 1 or more hold the k numbers from `s` on but not the next one. */
  predicate FirstGap(slots: Slots, s: uint8, k: nat) {
    && (forall d :: 0 <= d < k ==> HeldPastZero(slots, Ahead(s, d)))
    && !HeldPastZero(slots, Ahead(s, k))
  }

  lemma AheadNext(s: uint8, d: nat)
    ensures Ahead(s, d + 1) == Ahead(IncSeqnum(s), d)
  {}

  lemma HeldAfterTake(slots: Slots, i: nat, s: uint8, n: int)
    requires 1 <= i < WINDOW_SIZE && Holds(slots[i], s)
    ensures HeldPastZero(slots, n) <==> n == s || HeldPastZero(slots[i := None], n)
  {
    var rest: Slots := slots[i := None];
    if HeldPastZero(slots, n) && n != s {
      var j :| 1 <= j < WINDOW_SIZE && Holds(slots[j], n);
      assert Holds(rest[j], n);
    }
    if HeldPastZero(rest, n) {
      var j :| 1 <= j < WINDOW_SIZE && Holds(rest[j], n);
      assert Holds(slots[j], n);
    }
  }

  lemma GapAfterTake(slots: Slots, i: nat, s: uint8, k: nat)
    requires 1 <= i < WINDOW_SIZE && Holds(slots[i], s) && k < WINDOW_SIZE
    requires FirstGap(slots[i := None], IncSeqnum(s), k)
    ensures FirstGap(slots, s, k + 1)
  {
    forall d | 0 <= d < k + 1 ensures HeldPastZero(slots, Ahead(s, d)) {
      HeldAfterTake(slots, i, s, Ahead(s, d));
      if d > 0 {
        AheadNext(s, d - 1);
      }
    }
    AheadNext(s, k);
    HeldAfterTake(slots, i, s, Ahead(s, k + 1));
  }

  lemma TakeToGap(slots: Slots, i: nat, s: uint8, m: nat)
    requires 1 <= i < WINDOW_SIZE && Holds(slots[i], s)
    requires m <= Occupied(slots[i := None]) && FirstGap(slots[i := None], IncSeqnum(s), m)
    ensures m + 1 <= Occupied(slots) && FirstGap(slots, s, m + 1)
    ensures Ahead(IncSeqnum(s), m) == Ahead(s, m + 1)
  {
    OccupiedUpdate(slots, i, None);
    AllOccupied(slots);
    GapAfterTake(slots, i, s, m);
  }

  lemma GapAtOnce(slots: Slots, s: uint8)
    requires forall j :: 1 <= j < WINDOW_SIZE ==> !Holds(slots[j], s)
    ensures FirstGap(slots, s, 0) && Ahead(s, 0) == s
  {
    assert Ahead(s, 0) == s;
  }

  /** From index 1 on, the loop takes exactly the numbers up to the first gap among the
      slots of index 1 or more, however often it starts over. */
  lemma {:induction false} DrainToGap(r: ReceiverState, i: nat) returns (k: nat)
    requires 1 <= i <= WINDOW_SIZE
    requires forall j :: 1 <= j < i ==> !Holds(r.slots[j], r.seqnum)
    ensures k <= Occupied(r.slots) && FirstGap(r.slots, r.seqnum, k)
    ensures var t := DrainFrom(r, i);
            t.seqnum == Ahead(r.seqnum, k) && t.slots[0] == r.slots[0] && Occupied(t.slots) == Occupied(r.slots) - k
    decreases Occupied(r.slots), WINDOW_SIZE - i
  {
    if i == WINDOW_SIZE {
      k := 0;
      GapAtOnce(r.slots, r.seqnum);
    } else if Holds(r.slots[i], r.seqnum) {
      OccupiedUpdate(r.slots, i, None);
      var m := DrainToGap(Take(r, i), 1);
      TakeToGap(r.slots, i, r.seqnum, m);
      k := m + 1;
    } else {
      k := DrainToGap(r, i + 1);
    }
  }

  /** The number the receiver expects once an expected packet and, if it is in slot 0, the
      packet after it have been written. */
  function AfterZero(r: ReceiverState): uint8 {
    var next := IncSeqnum(r.seqnum);
    if Holds(r.slots[0], next) then IncSeqnum(next) else next
  }

  lemma AcceptReaches(r: ReceiverState, p: Packet) returns (k: nat)
    ensures FirstGap(r.slots, AfterZero(r), k)
    ensures Accept(r, p).seqnum == Ahead(AfterZero(r), k)
    ensures var taken := Holds(r.slots[0], IncSeqnum(r.seqnum));
            && Accept(r, p).slots[0] == (if taken then None else r.slots[0])
            && Occupied(Accept(r, p).slots) == Occupied(r.slots) - k - (if taken then 1 else 0)
  {
    var t := r.(seqnum := IncSeqnum(r.seqnum), output := r.output + Payload(p));
    if Holds(r.slots[0], t.seqnum) {
      OccupiedUpdate(r.slots, 0, None);
      k := DrainToGap(Take(t, 0), 1);
      assert forall j :: 1 <= j < WINDOW_SIZE ==> Take(t, 0).slots[j] == r.slots[j];
      SameGap(Take(t, 0).slots, r.slots, AfterZero(r), k);
    } else {
      k := DrainToGap(t, 1);
    }
  }

  lemma SameGap(a: Slots, b: Slots, s: uint8, k: nat)
    requires FirstGap(a, s, k) && forall j :: 1 <= j < WINDOW_SIZE ==> a[j] == b[j]
    ensures FirstGap(b, s, k)
  {
    forall n ensures HeldPastZero(a, n) <==> HeldPastZero(b, n) {
      if HeldPastZero(a, n) {
        var j :| 1 <= j < WINDOW_SIZE && Holds(a[j], n);
        assert Holds(b[j], n);
      }
      if HeldPastZero(b, n) {
        var j :| 1 <= j < WINDOW_SIZE && Holds(b[j], n);
        assert Holds(a[j], n);
      }
    }
  }

  lemma GapUnique(slots: Slots, s: uint8, j: nat, k: nat)
    requires FirstGap(slots, s, j) && FirstGap(slots, s, k)
    ensures j == k
  {
    assert j < k ==> HeldPastZero(slots, Ahead(s, j));
    assert k < j ==> HeldPastZero(slots, Ahead(s, k));
  }

  /** When the drain misses a packet: after an expected packet was accepted, slot 0 is left
      holding the number now expected exactly when, before, it held the number that is the
      first gap of the other slots, at least one past the next number. Slots of index 1
      or more never do. */
  lemma DrainMissesIff(r: ReceiverState, p: Packet)
    requires Balanced(r)
    ensures var t := Accept(r, p);
            && (Holds(t.slots[0], t.seqnum) <==>
                  exists k :: 1 <= k && FirstGap(r.slots, IncSeqnum(r.seqnum), k)
                              && Holds(r.slots[0], Ahead(IncSeqnum(r.seqnum), k)))
            && forall j :: 1 <= j < WINDOW_SIZE ==> !Holds(t.slots[j], t.seqnum)
  {
    var next := IncSeqnum(r.seqnum);
    var k := AcceptReaches(r, p);
    DrainBalanced(r.(seqnum := next, output := r.output + Payload(p)), 0);
    assert Ahead(next, 0) == next;
    if Holds(r.slots[0], next) {
      forall m | 1 <= m && FirstGap(r.slots, next, m) ensures !Holds(r.slots[0], Ahead(next, m)) {
        GapIsElsewhere(r.slots, next, m);
      }
    } else {
      assert AfterZero(r) == next;
      forall m | FirstGap(r.slots, next, m) ensures m == k {
        GapUnique(r.slots, next, m, k);
      }
      if k == 0 {
        assert Accept(r, p).seqnum == next;
      }
    }
  }

  /** A first gap that is not the starting number itself is another number. */
  lemma GapIsElsewhere(slots: Slots, s: uint8, m: nat)
    requires 1 <= m && FirstGap(slots, s, m)
    ensures Ahead(s, m) != s
  {
    assert HeldPastZero(slots, Ahead(s, 0)) && Ahead(s, 0) == s;
  }

  // ----- a packet the drain loop misses -----

  function Sample(n: uint8): Packet { Packet(PTYPE_DATA, false, 0, n, 1, 0, Some([0x61])) }

  lemma {:induction false} DrainShrinks(r: ReceiverState, i: nat)
    ensures var t := DrainFrom(r, i);
            forall j :: 0 <= j < WINDOW_SIZE ==> t.slots[j] == None || t.slots[j] == r.slots[j]
    decreases Occupied(r.slots), WINDOW_SIZE - i
  {
    if i < WINDOW_SIZE {
      if Holds(r.slots[i], r.seqnum) {
        OccupiedUpdate(r.slots, i, None);
        DrainShrinks(Take(r, i), 1);
      } else {
        DrainShrinks(r, i + 1);
      }
    }
  }

  /** Packets 2, 1, 0 in that order: packet 2 is expected, in the buffer, and not written.
      When it is sent again it is written from the datagram; its copy stays in slot 0
      and the advertised window stays one slot short. */
  lemma MissedPacket()
    ensures var s := Receive(Receive(Start(), Decoded(Sample(2))).0, Decoded(Sample(1))).0;
            var r := Receive(s, Decoded(Sample(0))).0;
            && r.seqnum == 2 && r.slots[0] == Some(Sample(2))
            && var t := Receive(r, Decoded(Sample(2))).0;
               t.seqnum == 3 && t.slots[0] == Some(Sample(2)) && t.window == WINDOW_SIZE - 1
  {
    var s := Receive(Receive(Start(), Decoded(Sample(2))).0, Decoded(Sample(1))).0;
    assert s.slots == Start().slots[0 := Some(Sample(2))][1 := Some(Sample(1))] && s.seqnum == 0 by {
      assert StoreFrom(Buffer(Start(), Sample(2)), Sample(1), 0) == StoreFrom(Buffer(Start(), Sample(2)), Sample(1), 1);
    }
    assert FirstGap(s.slots, 1, 1) by {
      assert Holds(s.slots[1], 1) && Ahead(1, 0) == 1 && Ahead(1, 1) == 2;
    }
    StartBalanced();
    ReceiveBalanced(Start(), Decoded(Sample(2)));
    ReceiveBalanced(Receive(Start(), Decoded(Sample(2))).0, Decoded(Sample(1)));
    MissedFrom(s);
  }

  lemma MissedFrom(s: ReceiverState)
    requires s.seqnum == 0 && Balanced(s) && FirstGap(s.slots, 1, 1)
    requires s.slots == Start().slots[0 := Some(Sample(2))][1 := Some(Sample(1))]
    ensures var r := Receive(s, Decoded(Sample(0))).0;
            && r.seqnum == 2 && r.slots[0] == Some(Sample(2))
            && var t := Receive(r, Decoded(Sample(2))).0;
               t.seqnum == 3 && t.slots[0] == Some(Sample(2)) && t.window == WINDOW_SIZE - 1
  {
    var r := Receive(s, Decoded(Sample(0))).0;
    TwoOccupied();
    var k := AcceptReaches(s, Sample(0));
    GapUnique(s.slots, 1, 1, k);
    DrainShrinks(s.(seqnum := 1, output := s.output + Payload(Sample(0))), 0);
    var t := Receive(r, Decoded(Sample(2))).0;
    var m := AcceptReaches(r, Sample(2));
    GapAtOnce(r.slots, 3);
    GapUnique(r.slots, 3, 0, m);
    ReceiveBalanced(s, Decoded(Sample(0)));
    ReceiveBalanced(r, Decoded(Sample(2)));
  }

  lemma TwoOccupied()
    ensures Occupied(Start().slots[0 := Some(Sample(2))][1 := Some(Sample(1))]) == 2
  {
    NoneOccupied(WINDOW_SIZE);
    OccupiedUpdate(Start().slots, 0, Some(Sample(2)));
    OccupiedUpdate(Start().slots[0 := Some(Sample(2))], 1, Some(Sample(1)));
  }

  lemma {:induction false} NoneOccupied(n: nat)
    ensures Occupied(seq(n, i => None)) == 0
  {
    if n > 0 {
      NoneOccupied(n - 1);
      assert seq(n, i => None)[..n - 1] == seq<Option<Packet>>(n - 1, i => None);
    }
  }

  lemma StartBalanced()
    ensures Balanced(Start())
  {
    NoneOccupied(WINDOW_SIZE);
  }
}
