/** The link simulator's queue handling, imperative: the delay queue, the cached clock
    and the methods that update them, each a step of `LinkModel`. */
module LinkSim {
  import opened Basics
  import opened LinkTime
  import opened LinkModel
  import MinQueue

  /** What one `sendto` answers; the second is one of the errors worth a later try. */
  datatype SendResult = Sent | WouldBlock | Failed

  ghost predicate NothingExpired(queue: multiset<Slot>, clock: Time) {
    forall x :: x in queue ==> !After(clock, x.ts)
  }

  /** The first `n` writes succeed. */
  predicate AllSent(answer: nat -> SendResult, n: nat) {
    n == 0 || (answer(n - 1) == Sent && AllSent(answer, n - 1))
  }

  /** `p` is queued and no queued slot has an earlier date. */
  ghost predicate Earliest(p: Slot, queue: multiset<Slot>) {
    p in queue && forall x :: x in queue ==> !LaterSlot(p, x)
  }

  /** Every queued date has microseconds. */
  ghost predicate Clocked(queue: multiset<Slot>) {
    forall x :: x in queue ==> 0 <= x.ts.usec
  }

  /** The earliest slot has expired and is still queued. */
  ghost predicate Stuck(queue: multiset<Slot>, clock: Time) {
    exists p :: Earliest(p, queue) && After(clock, p.ts)
  }

  class LinkSim {
    const cfg: Config
    var clock: Time
    const queue: MinQueue.Queue<Slot>
    ghost var state: Link

    ghost predicate Valid()
      reads this, queue, queue.e
    {
      && queue.Valid()
      && (forall a, b {:trigger queue.gt(a, b)} :: queue.gt(a, b) == LaterSlot(a, b))
      && Normal(clock)
      && state.clock == clock && state.queue == queue.Contents()
      && Clocked(state.queue)
    }

    constructor (cfg: Config, clock: Time)
      requires Normal(clock)
      ensures Valid() && fresh(queue) && fresh(queue.e)
      ensures this.cfg == cfg && Init(state) && state.clock == clock
    {
      this.cfg, this.clock := cfg, clock;
      SlotOrder();
      queue := new MinQueue.Queue<Slot>(LaterSlot);
      state := Link(clock, multiset{}, [], [], [], []);
    }

    method UpdateTime(now: Time)
      requires Valid() && Normal(now)
      modifies this
      ensures Valid() && state.clock == now && Tick(old(state), state)
    {
      clock := now;
      state := state.(clock := now);
    }

    /** The earliest slot queued. */
    method PeekSlot() returns (p: Option<Slot>)
      requires Valid()
      ensures Peeked(p)
    {
      p := queue.Peek();
    }

    /** `p` is what `minq_peek` answers. */
    ghost predicate Peeked(p: Option<Slot>)
      reads this, queue, queue.e
    {
      && (p == None <==> state.queue == multiset{})
      && (p.Some? ==> 0 < queue.size <= queue.e.Length && p.value == queue.e[0] && Earliest(p.value, state.queue))
    }

    method Enqueue(slot: Slot)
      requires Valid() && 0 <= slot.ts.usec
      modifies this, queue, queue.e
      ensures Valid() && (queue.e == old(queue.e) || fresh(queue.e)) && clock == old(clock)
      ensures state == old(state).(queue := old(state.queue) + multiset{slot})
    {
      queue.Push(slot);
      state := state.(queue := queue.Contents());
    }

    /** `deliver_delayed_pkt`. The k-th write of the call answers `answer(k)`. What is
        written is a `Deliver` step. The call stops early only on a write that does not
        succeed, with the packet still queued; otherwise nothing expired is left. */
    method DeliverDelayed(answer: nat -> SendResult) returns (success: bool, out: seq<Slot>, ghost blocked: bool)
      requires Valid()
      modifies this, queue, queue.e
      ensures Valid() && queue.e == old(queue.e) && Deliver(old(state), state, out)
      ensures AllSent(answer, |out|)
      ensures if blocked then answer(|out|) != Sent && Stuck(state.queue, clock) else NothingExpired(state.queue, clock)
      ensures success <==> !blocked || answer(|out|) == WouldBlock
    {
      ghost var start := state;
      out, blocked := [], false;
      DeliverNothing(state);
      var p := PeekSlot();
      while p.Some? && After(clock, p.value.ts)
        invariant Valid() && queue.e == old(queue.e) && clock == old(clock)
        invariant Deliver(start, state, out) && AllSent(answer, |out|) && Peeked(p)
        decreases queue.size
      {
        var r := answer(|out|);
        if r != Sent {
          assert Stuck(state.queue, clock);
          return r == WouldBlock, out, true;
        }
        p, out := Advance(start, p.value, out);
      }
      NoneExpired(p, state.queue, clock);
      success := true;
    }

    /** One turn of the loop after a successful write. */
    method Advance(ghost start: Link, p: Slot, out: seq<Slot>) returns (next: Option<Slot>, more: seq<Slot>)
      requires Valid() && Peeked(Some(p)) && After(clock, p.ts) && Deliver(start, state, out)
      modifies this, queue, queue.e
      ensures Valid() && queue.e == old(queue.e) && clock == old(clock) && queue.size < old(queue.size)
      ensures Peeked(next) && more == out + [p] && Deliver(start, state, more)
    {
      ReleaseOne(start, state, out, p);
      Release(p);
      more := out + [p];
      next := PeekSlot();
    }

    /** Takes the packet just written, which Peek showed, off the queue. */
    method Release(p: Slot)
      requires Valid() && queue.size > 0 && p == queue.e[0]
      modifies this, queue, queue.e
      ensures Valid() && queue.e == old(queue.e) && queue.size < old(queue.size) && clock == old(clock)
      ensures state == old(state).(queue := old(state.queue) - multiset{p}, sent := old(state.sent) + [p])
    {
      queue.Pop();
      state := state.(queue := queue.Contents(), sent := state.sent + [p]);
    }

    /** `simulate_link`: drops the packet, or perhaps inverts one byte of it in place and then
        queues it or writes it out; `written` is the outcome of that write. */
    method SimulateLink(buf: array<byte>, len: nat, direction: int, r: Draws, written: bool) returns (success: bool)
      requires Valid() && 0 < len <= buf.Length && (buf as object) != queue.e
      modifies this, queue, queue.e, buf
      ensures Valid() && (queue.e == old(queue.e) || fresh(queue.e))
      ensures Arrive(cfg, old(state), state, r, direction, old(buf[..len]), written)
      ensures buf[..len] == Damaged(cfg, r, old(buf[..len])) && buf[len..] == old(buf[len..])
      ensures success <==> Drops(cfg, r) || cfg.delay != 0 || written
    {
      ghost var slot := Stamped(cfg, r, clock, direction, buf[..len]);
      state := state.(given := state.given + [slot]);
      if cfg.lossRate != 0 && r.loss < cfg.lossRate {
        state := state.(lost := state.lost + [slot]);
        return true;
      }
      Damage(buf, len, r);
      success := PassOn(buf[..len], direction, r, written);
    }

    /** Perhaps inverts one byte. */
    method Damage(buf: array<byte>, len: nat, r: Draws)
      requires 0 < len <= buf.Length && !Drops(cfg, r)
      modifies buf
      ensures buf[..len] == Damaged(cfg, r, old(buf[..len])) && buf[len..] == old(buf[len..])
    {
      if cfg.errRate != 0 && r.err < cfg.errRate {
        var idx := r.index % len;
        buf[idx] := !buf[idx];
      }
    }

    /** The second half of `simulate_link`, on the packet that was not dropped. */
    method PassOn(data: seq<byte>, direction: int, r: Draws, written: bool) returns (success: bool)
      requires Valid()
      modifies this, queue, queue.e
      ensures Valid() && (queue.e == old(queue.e) || fresh(queue.e)) && clock == old(clock)
      ensures success <==> cfg.delay != 0 || written
      ensures var s, ts := old(state), if cfg.delay == 0 then clock else Expiry(clock, Wait(cfg, r));
              var slot := Slot(ts, direction, data);
              state ==
              if cfg.delay != 0 then
                s.(queue := s.queue + multiset{slot}, queued := s.queued + [Arrival(slot, clock, Wait(cfg, r))])
              else if written then s.(sent := s.sent + [slot])
              else s.(lost := s.lost + [slot])
    {
      if cfg.delay != 0 {
        var wait := AppliedDelay(cfg.delay, cfg.jitter, r.coin, r.draw);
        var slot := Slot(Expiry(clock, wait), direction, data);
        Enqueue(slot);
        state := state.(queued := state.queued + [Arrival(slot, clock, wait)]);
        return true;
      }
      if written {
        state := state.(sent := state.sent + [Slot(clock, direction, data)]);
      } else {
        state := state.(lost := state.lost + [Slot(clock, direction, data)]);
      }
      return written;
    }

    /** `get_queue_timeout`: nothing to wait for on an empty queue, otherwise the timeout for
        the earliest date queued. */
    method GetQueueTimeout() returns (t: Option<Time>)
      requires Valid()
      ensures t == None <==> state.queue == multiset{}
      ensures t.Some? ==>
                exists p :: Earliest(p, state.queue)
                            && var left, wait := Micros(p.ts) - Micros(clock), Micros(t.value);
                               && t.value == Timeout(p.ts, clock) && 0 < wait && (wait <= left || wait == 1000)
                               && 0 <= t.value.sec && 0 <= t.value.usec
    {
      var p := PeekSlot();
      if p == None {
        return None;
      }
      TimeoutIff(p.value.ts, clock);
      TimeoutParts(p.value.ts, clock);
      return Some(Timeout(p.value.ts, clock));
    }
  }

  lemma SlotOrder()
    ensures MinQueue.StrictWeakOrder(LaterSlot)
  {}

  /** Releasing the earliest slot of the queue extends the slots released so far. */
  lemma ReleaseOne(start: Link, s: Link, out: seq<Slot>, p: Slot)
    requires Deliver(start, s, out) && Earliest(p, s.queue) && After(s.clock, p.ts)
    ensures Deliver(start, s.(queue := s.queue - multiset{p}, sent := s.sent + [p]), out + [p])
  {
    var more := out + [p];
    assert start.sent + more == s.sent + [p];
    forall i, j | 0 <= i < j < |more| ensures !LaterSlot(more[i], more[j]) {
      if j < |out| {
        assert !LaterSlot(out[i], out[j]);
      } else {
        assert !LaterSlot(out[i], p);
      }
    }
  }

  lemma DeliverNothing(s: Link)
    ensures Deliver(s, s, [])
  {
    assert s.sent + [] == s.sent;
  }

  /** If the queue is empty or its earliest date has not passed, none has. */
  lemma NoneExpired(p: Option<Slot>, queue: multiset<Slot>, clock: Time)
    requires if p == None then queue == multiset{} else Earliest(p.value, queue) && !After(clock, p.value.ts)
    ensures NothingExpired(queue, clock)
  {}
}
