/** The lossy link as a step system: packets are dropped, damaged, delayed or forwarded,
    and delayed packets are released when the clock has passed their date. */
module LinkModel {
  import opened Basics
  import opened LinkTime

  /** One entry of the packet queue. */
  datatype Slot = Slot(ts: Time, direction: int, data: seq<byte>)

  predicate LaterSlot(a: Slot, b: Slot) { After(a.ts, b.ts) }

  datatype Config = Config(delay: uint32, jitter: uint32, errRate: nat, lossRate: nat)

  /** The random numbers one packet may consume: three percentages and two raw draws. */
  datatype Draws = Draws(loss: percent, err: percent, index: nat, coin: percent, draw: nat)

  predicate Drops(cfg: Config, r: Draws) { cfg.lossRate != 0 && r.loss < cfg.lossRate }

  predicate Damages(cfg: Config, r: Draws) { !Drops(cfg, r) && cfg.errRate != 0 && r.err < cfg.errRate }

  /** The packet after the possible inversion of one byte. */
  function Damaged(cfg: Config, r: Draws, data: seq<byte>): (d: seq<byte>)
    requires data != []
    ensures |d| == |data|
  {
    if Damages(cfg, r) then data[r.index % |data| := !data[r.index % |data|]] else data
  }

  function Wait(cfg: Config, r: Draws): nat { AppliedDelay(cfg.delay, cfg.jitter, r.coin, r.draw) }

  /** A packet that was queued: its slot, the clock when it arrived and its delay. */
  datatype Arrival = Arrival(slot: Slot, clock: Time, ms: nat)

  datatype Link = Link(
    clock: Time,
    queue: multiset<Slot>,
    given: seq<Slot>,     // every packet handed to the link, after damage, with its date
    lost: seq<Slot>,      // those dropped, or lost in a failed immediate write
    queued: seq<Arrival>, // those delayed, in order of arrival
    sent: seq<Slot>)      // those written out, in order

  predicate Init(s: Link) {
    s.queue == multiset{} && s.given == [] && s.lost == [] && s.queued == [] && s.sent == []
  }

  predicate Tick(s: Link, t: Link) {
    Normal(t.clock) && t == s.(clock := t.clock)
  }

  function Stamped(cfg: Config, r: Draws, clock: Time, direction: int, data: seq<byte>): Slot
    requires data != []
  {
    Slot(if cfg.delay == 0 then clock else Expiry(clock, Wait(cfg, r)), direction, Damaged(cfg, r, data))
  }

  /** `simulate_link` on one packet; `written` is the outcome of an immediate write. */
  predicate Arrive(cfg: Config, s: Link, t: Link, r: Draws, direction: int, data: seq<byte>, written: bool) {
    && data != [] && Normal(s.clock)
    && var slot := Stamped(cfg, r, s.clock, direction, data);
    && t == (
         if Drops(cfg, r) then s.(given := s.given + [slot], lost := s.lost + [slot])
         else if cfg.delay != 0 then
           s.(given := s.given + [slot], queue := s.queue + multiset{slot},
              queued := s.queued + [Arrival(slot, s.clock, Wait(cfg, r))])
         else if written then s.(given := s.given + [slot], sent := s.sent + [slot])
         else s.(given := s.given + [slot], lost := s.lost + [slot]))
  }

  /** `out` is sorted by date and none of it comes after a slot left behind. */
  ghost predicate InOrder(out: seq<Slot>, left: multiset<Slot>) {
    && (forall i, j :: 0 <= i < j < |out| ==> !LaterSlot(out[i], out[j]))
    && (forall i, x :: 0 <= i < |out| && x in left ==> !LaterSlot(out[i], x))
  }

  predicate AllExpired(out: seq<Slot>, clock: Time) {
    forall i :: 0 <= i < |out| ==> After(clock, out[i].ts)
  }

  /** `deliver_delayed_pkt` writes out the slots `out`. */
  ghost predicate Deliver(s: Link, t: Link, out: seq<Slot>) {
    && s.queue == multiset(out) + t.queue
    && t == s.(queue := t.queue, sent := s.sent + out)
    && AllExpired(out, s.clock)
    && InOrder(out, t.queue)
  }

  ghost predicate Next(cfg: Config, s: Link, t: Link) {
    || Tick(s, t)
    || (exists r, direction, data, written :: Arrive(cfg, s, t, r, direction, data, written))
    || (exists out :: Deliver(s, t, out))
  }

  /** A run of the link from an empty queue. */
  ghost predicate Run(cfg: Config, run: seq<Link>) {
    && run != [] && Init(run[0])
    && forall i :: 0 <= i < |run| - 1 ==> Next(cfg, run[i], run[i + 1])
  }

  // ----- the rates -----

  /** How many of the percentages below n drop a packet, or damage one that is not dropped. */
  function DropsBelow(cfg: Config, r: Draws, n: nat): (k: nat)
    requires n <= 101
  {
    if n == 0 then 0 else DropsBelow(cfg, r, n - 1) + (if Drops(cfg, r.(loss := n - 1)) then 1 else 0)
  }

  function DamagesBelow(cfg: Config, r: Draws, n: nat): (k: nat)
    requires n <= 101
  {
    if n == 0 then 0 else DamagesBelow(cfg, r, n - 1) + (if Damages(cfg, r.(err := n - 1)) then 1 else 0)
  }

  lemma {:induction false} DropCount(cfg: Config, r: Draws, n: nat)
    requires n <= 101
    ensures DropsBelow(cfg, r, n) == if cfg.lossRate < n then cfg.lossRate else n
  {
    if n > 0 {
      DropCount(cfg, r, n - 1);
    }
  }

  lemma {:induction false} DamageCount(cfg: Config, r: Draws, n: nat)
    requires n <= 101 && !Drops(cfg, r)
    ensures DamagesBelow(cfg, r, n) == if cfg.errRate < n then cfg.errRate else n
  {
    if n > 0 {
      DamageCount(cfg, r, n - 1);
    }
  }

  /** A rate in packets per hundred drops that many of the 101 values drawn, low ones first, and a
      draw that drops does so at every higher rate. So for rates up to 100 the share is the
      documented one only for a rate of 0, and even a rate of 100 lets one value through. */
  lemma LossRate(cfg: Config, r: Draws)
    ensures DropsBelow(cfg, r, 101) == if cfg.lossRate <= 101 then cfg.lossRate else 101
    ensures forall higher: nat :: higher >= cfg.lossRate && Drops(cfg, r) ==> Drops(cfg.(lossRate := higher), r)
    ensures forall loss: percent :: loss <= r.loss && Drops(cfg, r) ==> Drops(cfg, r.(loss := loss))
    ensures cfg.lossRate <= 100 ==> (100 * DropsBelow(cfg, r, 101) == 101 * cfg.lossRate <==> cfg.lossRate == 0)
  {
    DropCount(cfg, r, 101);
  }

  /** The same of damage to a packet that is not dropped; one that is dropped is not damaged. */
  lemma ErrorRate(cfg: Config, r: Draws)
    ensures Drops(cfg, r) ==> !Damages(cfg, r)
    ensures !Drops(cfg, r) ==> DamagesBelow(cfg, r, 101) == if cfg.errRate <= 101 then cfg.errRate else 101
    ensures forall higher: nat :: higher >= cfg.errRate && Damages(cfg, r) ==> Damages(cfg.(errRate := higher), r)
    ensures forall err: percent :: err <= r.err && Damages(cfg, r) ==> Damages(cfg, r.(err := err))
  {
    if !Drops(cfg, r) {
      DamageCount(cfg, r, 101);
    }
  }

  /** Damage inverts one byte, the same one for draws that differ by the length, and each byte for
      one of the draws below the length. Without it the packet stays as it is. */
  lemma DamagedByte(cfg: Config, r: Draws, data: seq<byte>, i: nat)
    requires i < |data|
    ensures var d := Damaged(cfg, r.(index := i), data);
            if Damages(cfg, r) then d[i] == !data[i] && d[..i] == data[..i] && d[i + 1..] == data[i + 1..]
            else d == data
    ensures Damaged(cfg, r.(index := r.index + |data|), data) == Damaged(cfg, r, data)
  {
    Remainder(i, |data|);
    Periodic(r.index, |data|);
  }

  lemma Periodic(x: nat, n: nat)
    requires n > 0
    ensures (x + n) % n == x % n
  {
    Division(x, n);
    Division(x + n, n);
    SameRemainder(n, x / n + 1, x % n, (x + n) / n, (x + n) % n);
  }

  lemma Division(x: nat, n: nat)
    requires n > 0
    ensures x == n * (x / n) + x % n && x % n < n
  {}

  lemma AtLeast(n: nat, d: int)
    requires d >= 1
    ensures n * d >= n
  {}

  lemma Distribute(n: nat, a: int, b: int)
    ensures n * (a - b) == n * a - n * b
  {}

  lemma SameRemainder(n: nat, q: int, r: nat, p: int, s: nat)
    requires r < n && s < n && n * q + r == n * p + s
    ensures r == s
  {
    if q > p {
      AtLeast(n, q - p);
      Distribute(n, q, p);
    } else if q < p {
      AtLeast(n, p - q);
      Distribute(n, p, q);
    }
  }

  // ----- conservation -----

  ghost predicate Conserved(s: Link) {
    multiset(s.given) == multiset(s.lost) + s.queue + multiset(s.sent)
  }

  lemma AppendMultiset<T>(s: seq<T>, x: seq<T>)
    ensures multiset(s + x) == multiset(s) + multiset(x)
  {}

  lemma ConservedStep(cfg: Config, s: Link, t: Link)
    requires Conserved(s) && Next(cfg, s, t)
    ensures Conserved(t)
  {
    if Tick(s, t) {
    } else if r, direction, data, written :| Arrive(cfg, s, t, r, direction, data, written) {
      var slot := [Stamped(cfg, r, s.clock, direction, data)];
      AppendMultiset(s.given, slot);
      AppendMultiset(s.lost, slot);
      AppendMultiset(s.sent, slot);
    } else {
      var out :| Deliver(s, t, out);
      AppendMultiset(s.sent, out);
    }
  }

  /** The link never duplicates and never invents a packet: in every run, what it was
      given is exactly what it lost, still holds and sent. */
  lemma {:induction false} Conservation(cfg: Config, run: seq<Link>)
    requires Run(cfg, run)
    ensures Conserved(run[|run| - 1])
  {
    if |run| > 1 {
      RunPrefix(cfg, run);
      Conservation(cfg, run[..|run| - 1]);
      ConservedStep(cfg, run[|run| - 2], run[|run| - 1]);
    }
  }

  // ----- what becomes of one packet -----

  /** A packet is lost exactly when it is dropped or its immediate write fails, written at once exactly
      without delay, and else queued with a date that is its delay away. Nothing else changes. */
  lemma Fate(cfg: Config, s: Link, t: Link, r: Draws, direction: int, data: seq<byte>, written: bool)
    requires Arrive(cfg, s, t, r, direction, data, written)
    ensures |t.given| == |s.given| + 1 && t.clock == s.clock
    ensures var x := t.given[|s.given|];
            && t.given == s.given + [x] && x.direction == direction && x.data == Damaged(cfg, r, data)
            && Micros(x.ts) - Micros(s.clock) ==
               (if cfg.delay == 0 then 0 else 1000 * AppliedDelay(cfg.delay, cfg.jitter, r.coin, r.draw))
            && t.lost == s.lost + (if Drops(cfg, r) || (cfg.delay == 0 && !written) then [x] else [])
            && t.sent == s.sent + (if !Drops(cfg, r) && cfg.delay == 0 && written then [x] else [])
            && t.queue == s.queue + (if !Drops(cfg, r) && cfg.delay != 0 then multiset{x} else multiset{})
  {
    var x := Stamped(cfg, r, s.clock, direction, data);
    assert t.given == s.given + [x];
    ExpiryMicros(s.clock, Wait(cfg, r));
  }

  /** Without delay nothing is ever queued, and if nothing is lost all is sent as it came. */
  ghost predicate Immediate(s: Link) {
    s.queue == multiset{} && s.queued == [] && (s.lost == [] ==> s.sent == s.given)
  }

  lemma ImmediateStep(cfg: Config, s: Link, t: Link)
    requires cfg.delay == 0 && Immediate(s) && Next(cfg, s, t)
    ensures Immediate(t)
  {
    if out :| Deliver(s, t, out) {
      assert multiset(out) <= s.queue;
      assert |multiset(out)| == |out|;
    }
  }

  lemma {:induction false} AlwaysImmediate(cfg: Config, run: seq<Link>)
    requires Run(cfg, run) && cfg.delay == 0
    ensures Immediate(run[|run| - 1])
  {
    if |run| > 1 {
      RunPrefix(cfg, run);
      AlwaysImmediate(cfg, run[..|run| - 1]);
      ImmediateStep(cfg, run[|run| - 2], run[|run| - 1]);
    }
  }

  lemma RunPrefix(cfg: Config, run: seq<Link>)
    requires Run(cfg, run) && |run| > 1
    ensures Run(cfg, run[..|run| - 1]) && Next(cfg, run[|run| - 2], run[|run| - 1])
  {
    var init := run[..|run| - 1];
    forall i | 0 <= i < |init| - 1 ensures Next(cfg, init[i], init[i + 1]) {
      assert Next(cfg, run[i], run[i + 1]);
    }
  }

  /** With a delay and a loss rate of 0 nothing is ever lost. */
  lemma {:induction false} NothingLost(cfg: Config, run: seq<Link>)
    requires Run(cfg, run) && cfg.delay != 0 && cfg.lossRate == 0
    ensures run[|run| - 1].lost == []
  {
    if |run| > 1 {
      RunPrefix(cfg, run);
      NothingLost(cfg, run[..|run| - 1]);
    }
  }

  // ----- order of arrival -----

  /** Each queued packet arrived on a later clock than the one before it. */
  predicate IncreasingClocks(queued: seq<Arrival>) {
    forall i, j :: 0 <= i < j < |queued| ==> After(queued[j].clock, queued[i].clock)
  }

  predicate DatedBy(queued: seq<Arrival>) {
    forall i :: 0 <= i < |queued| ==>
      queued[i].slot.ts == Expiry(queued[i].clock, queued[i].ms) && Normal(queued[i].clock)
  }

  function Slots(queued: seq<Arrival>): (s: seq<Slot>)
    ensures |s| == |queued| && forall i :: 0 <= i < |s| ==> s[i] == queued[i].slot
  {
    seq(|queued|, i requires 0 <= i < |queued| => queued[i].slot)
  }

  predicate StrictlySorted(s: seq<Slot>) {
    forall i, j :: 0 <= i < j < |s| ==> LaterSlot(s[j], s[i])
  }

  /** The first slot released is the first one waiting. */
  lemma FirstReleased(waiting: seq<Slot>, x: Slot, rest: multiset<Slot>)
    requires StrictlySorted(waiting) && multiset(waiting) == multiset{x} + rest
    requires forall y :: y in rest ==> !LaterSlot(x, y)
    ensures waiting != [] && waiting[0] == x && multiset(waiting[1..]) == rest
  {
    assert x in multiset(waiting);
    var m :| 0 <= m < |waiting| && waiting[m] == x;
    assert waiting[0] in multiset(waiting);
    assert !LaterSlot(x, waiting[0]);
    assert m == 0;
    assert waiting == [x] + waiting[1..];
    assert multiset(waiting) - multiset{x} == multiset(waiting[1..]);
    assert multiset(waiting) - multiset{x} == rest;
  }

  lemma TailInOrder(out: seq<Slot>, left: multiset<Slot>)
    requires InOrder(out, left) && out != []
    ensures InOrder(out[1..], left)
    ensures multiset(out) == multiset{out[0]} + multiset(out[1..])
    ensures forall y :: y in multiset(out[1..]) + left ==> !LaterSlot(out[0], y)
  {
    var tail := out[1..];
    assert out == [out[0]] + tail;
    assert forall i :: 0 <= i < |tail| ==> tail[i] == out[i + 1];
  }

  /** Slots released in order from a queue with strictly sorted contents are its
      first ones, whatever the heap did with them. */
  lemma {:induction false} ReleasedIsPrefix(waiting: seq<Slot>, out: seq<Slot>, left: multiset<Slot>)
    requires StrictlySorted(waiting) && InOrder(out, left) && multiset(waiting) == multiset(out) + left
    ensures out <= waiting && left == multiset(waiting[|out|..])
  {
    if out == [] {
      assert waiting[0..] == waiting;
    } else {
      TailInOrder(out, left);
      FirstReleased(waiting, out[0], multiset(out[1..]) + left);
      ReleasedIsPrefix(waiting[1..], out[1..], left);
      PrefixCons(waiting, out);
    }
  }

  lemma PrefixCons<T>(s: seq<T>, p: seq<T>)
    requires s != [] && p != [] && s[0] == p[0] && p[1..] <= s[1..]
    ensures p <= s && s[1..][|p| - 1..] == s[|p|..]
  {
    assert p == [p[0]] + p[1..];
    assert s == [s[0]] + s[1..];
  }

  /** With no jitter and a delay, so far: the dates follow the arrival clocks, and if those
      increase then what was sent is the first part of what was queued. */
  ghost predicate Fifo(cfg: Config, s: Link) {
    && DatedBy(s.queued)
    && (forall i :: 0 <= i < |s.queued| ==> s.queued[i].ms == cfg.delay % 10_000)
    && (IncreasingClocks(s.queued) ==>
          && s.sent <= Slots(s.queued)
          && s.queue == multiset(Slots(s.queued)[|s.sent|..]))
  }

  lemma FifoArrive(cfg: Config, s: Link, t: Link, slot: Slot)
    requires cfg.delay != 0 && Fifo(cfg, s) && Normal(s.clock)
    requires slot.ts == Expiry(s.clock, cfg.delay % 10_000)
    requires t.queue == s.queue + multiset{slot} && t.sent == s.sent
    requires t.queued == s.queued + [Arrival(slot, s.clock, cfg.delay % 10_000)]
    ensures Fifo(cfg, t)
  {
    if IncreasingClocks(t.queued) {
      assert IncreasingClocks(s.queued) by {
        assert forall i :: 0 <= i < |s.queued| ==> t.queued[i] == s.queued[i];
      }
      var before := Slots(s.queued);
      assert Slots(t.queued) == before + [slot];
      assert (before + [slot])[|s.sent|..] == before[|s.sent|..] + [slot];
    }
  }

  lemma WaitingSorted(queued: seq<Arrival>, n: nat, ms: nat)
    requires n <= |queued| && IncreasingClocks(queued) && DatedBy(queued)
    requires forall i :: 0 <= i < |queued| ==> queued[i].ms == ms
    ensures StrictlySorted(Slots(queued)[n..])
  {
    var waiting := Slots(queued)[n..];
    forall i, j | 0 <= i < j < |waiting| ensures LaterSlot(waiting[j], waiting[i]) {
      ExpiryKeepsOrder(queued[n + i].clock, queued[n + j].clock, ms);
    }
  }

  lemma FifoDeliver(cfg: Config, s: Link, t: Link, out: seq<Slot>)
    requires Fifo(cfg, s) && Deliver(s, t, out)
    ensures Fifo(cfg, t)
  {
    if IncreasingClocks(s.queued) {
      var all, n := Slots(s.queued), |s.sent|;
      WaitingSorted(s.queued, n, cfg.delay % 10_000);
      ReleasedIsPrefix(all[n..], out, t.queue);
      PrefixGrows(all, s.sent, out);
    }
  }

  lemma PrefixGrows<T>(all: seq<T>, done: seq<T>, more: seq<T>)
    requires done <= all && more <= all[|done|..]
    ensures done + more <= all && all[|done|..][|more|..] == all[|done + more|..]
  {
    assert all == done + all[|done|..];
  }

  lemma FifoStep(cfg: Config, s: Link, t: Link)
    requires cfg.delay != 0 && cfg.jitter == 0 && Fifo(cfg, s) && Next(cfg, s, t)
    ensures Fifo(cfg, t)
  {
    if Tick(s, t) {
    } else if r, direction, data, written :| Arrive(cfg, s, t, r, direction, data, written) {
      if !Drops(cfg, r) {
        FifoArrive(cfg, s, t, Stamped(cfg, r, s.clock, direction, data));
      }
    } else {
      var out :| Deliver(s, t, out);
      FifoDeliver(cfg, s, t, out);
    }
  }

  /** Without jitter, delayed packets leave the link in order of arrival as long as the
      clock advances from one arrival to the next, although the heap is not stable and
      the microseconds of the dates are not carried. */
  lemma {:induction false} ArrivalOrder(cfg: Config, run: seq<Link>)
    requires cfg.delay != 0 && cfg.jitter == 0 && Run(cfg, run)
    ensures Fifo(cfg, run[|run| - 1])
  {
    if |run| == 1 {
      assert Slots(run[0].queued) == [];
    } else {
      RunPrefix(cfg, run);
      ArrivalOrder(cfg, run[..|run| - 1]);
      FifoStep(cfg, run[|run| - 2], run[|run| - 1]);
    }
  }

  // ----- time of delivery -----

  /** Whatever still waits was queued, and queued slots carry the date of their arrival. */
  ghost predicate Dated(s: Link) {
    DatedBy(s.queued) && s.queue <= multiset(Slots(s.queued))
  }

  lemma DatedArrive(s: Link, t: Link, a: Arrival)
    requires Dated(s) && t.queued == s.queued + [a] && t.queue == s.queue + multiset{a.slot}
    requires a.slot.ts == Expiry(a.clock, a.ms) && Normal(a.clock)
    ensures Dated(t)
  {
    assert Slots(t.queued) == Slots(s.queued) + [a.slot];
    AppendMultiset(Slots(s.queued), [a.slot]);
  }

  lemma DatedDeliver(s: Link, t: Link, out: seq<Slot>)
    requires Dated(s) && Deliver(s, t, out)
    ensures Dated(t)
  {
    assert t.queue <= s.queue;
  }

  lemma DatedStep(cfg: Config, s: Link, t: Link)
    requires Dated(s) && Next(cfg, s, t)
    ensures Dated(t)
  {
    if Tick(s, t) {
    } else if r, direction, data, written :| Arrive(cfg, s, t, r, direction, data, written) {
      if !Drops(cfg, r) && cfg.delay != 0 {
        DatedArrive(s, t, Arrival(Stamped(cfg, r, s.clock, direction, data), s.clock, Wait(cfg, r)));
      }
    } else {
      var out :| Deliver(s, t, out);
      DatedDeliver(s, t, out);
    }
  }

  lemma {:induction false} AlwaysDated(cfg: Config, run: seq<Link>)
    requires Run(cfg, run)
    ensures Dated(run[|run| - 1])
  {
    if |run| > 1 {
      RunPrefix(cfg, run);
      AlwaysDated(cfg, run[..|run| - 1]);
      DatedStep(cfg, run[|run| - 2], run[|run| - 1]);
    }
  }

  /** In every run, a packet that is released was queued, the clock has passed its arrival,
      and it leaves no more than 998,999 microseconds before its arrival plus its delay. */
  lemma ReleasedOnTime(cfg: Config, run: seq<Link>, out: seq<Slot>, t: Link, k: nat) returns (i: nat)
    requires Run(cfg, run) && Normal(run[|run| - 1].clock)
    requires Deliver(run[|run| - 1], t, out) && k < |out|
    ensures i < |run[|run| - 1].queued|
    ensures var s := run[|run| - 1]; var a := s.queued[i];
            && a.slot == out[k]
            && After(s.clock, a.clock)
            && Micros(s.clock) >= Micros(a.clock) + 1000 * a.ms - 998_999
  {
    var s := run[|run| - 1];
    AlwaysDated(cfg, run);
    assert out[k] in multiset(out);
    assert out[k] in s.queue;
    assert out[k] in multiset(Slots(s.queued));
    i :| 0 <= i < |s.queued| && Slots(s.queued)[i] == out[k];
    ExpiryNotTooEarly(s.queued[i].clock, s.queued[i].ms, s.clock);
  }
}
