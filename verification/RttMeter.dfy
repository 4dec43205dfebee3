/** The meter as it runs: a map and a slice updated in place. Every method is one hold of its lock, so a
    concurrent run is a sequence of these calls, each with the clock reading it took. */
module RttMeter {
  import opened Wrappers
  import opened Slices
  import opened RttPacket
  import opened RttTrace

  class Meter {
    var pending: map<Flow, Syn>
    // The samples are the first `len` elements of the slice's storage.
    var store: array<Sample>
    var len: nat
    var last: int
    var seen: bool

    /** Everything the meter was shown, in the order it held its lock. */
    ghost var history: seq<Event>

    ghost predicate Valid()
      reads this, store
    {
      len <= store.Length && View() == Run(history)
    }

    ghost function View(): State
      reads this, store
      requires len <= store.Length
    {
      State(pending, store[..len], last, seen)
    }

    constructor ()
      ensures Valid() && fresh(store) && history == []
    {
      pending, len, last, seen := map[], 0, 0, false;
      store := new Sample[0];
      history := [];
    }

    method Latency(now: int) returns (figure: int, ok: bool)
      requires Valid()
      modifies this, store
      ensures Valid() && store == old(store)
      ensures history == old(history) + [Look(now)]
      ensures ok <==> Figure(Run(history)).Some?
      ensures figure == if ok then Figure(Run(history)).value else 0
    {
      RunSnoc(history, Look(now));
      history := history + [Look(now)];
      if !seen {
        return 0, false;
      }
      ExpireLocked(now);
      if len == 0 {
        return last, true;
      }
      var least := LeastStored();
      last := least;
      return least, true;
    }

    method Forget()
      requires Valid()
      modifies this
      ensures Valid() && store == old(store)
      ensures history == old(history) + [Forgot]
    {
      RunSnoc(history, Forgot);
      history := history + [Forgot];
      len := 0;
      seen := false;
      last := 0;
    }

    method Outbound(now: int, packet: seq<Byte>)
      requires Valid()
      modifies this, store
      ensures Valid() && store == old(store)
      ensures history == old(history) + [OutEvent(now, packet)]
    {
      hide ParseTCP, Run, Fresh, Least, Waiting;
      RunSnoc(history, OutEvent(now, packet));
      history := history + [OutEvent(now, packet)];
      var parsed := ParseTCP(packet);
      if parsed.None? || !IsSyn(parsed.value.flags) {
        return;
      }
      var f := parsed.value.flow;
      if f in pending {
        var earlier := pending[f];
        earlier := earlier.(again := true);
        pending := pending[f := earlier];
        return;
      }
      if |pending| >= MAX_PENDING {
        ExpireLocked(now);
        if |pending| >= MAX_PENDING {
          return;
        }
      }
      pending := pending[f := Syn(now, parsed.value.seqNo, false)];
    }

    method Inbound(now: int, packet: seq<Byte>)
      requires Valid()
      modifies this, store
      ensures Valid() && (store == old(store) || fresh(store))
      ensures history == old(history) + [InEvent(now, packet)]
    {
      hide ParseTCP, Run, Step;
      RunSnoc(history, InEvent(now, packet));
      history := history + [InEvent(now, packet)];
      var parsed := ParseTCP(packet);
      if parsed.None? || !IsSynAck(parsed.value.flags) {
        IgnoredStep(View());
        return;
      }
      Answered(now, Mirror(parsed.value.flow), parsed.value.ackNo);
    }

    /** Inbound once its packet is known to be a SYN-ACK. */
    method Answered(now: int, f: Flow, ackNo: Uint32)
      requires len <= store.Length
      modifies `pending, `store, `len, `seen, store
      ensures store == old(store) || fresh(store)
      ensures len <= store.Length && View() == Step(old(View()), SynAckIn(now, f, ackNo))
    {
      hide Fresh, Least, Waiting;
      if f !in pending {
        return;
      }
      var sent := pending[f];
      pending := pending - {f};
      if sent.again || ackNo != (sent.seqNo + 1) % 0x1_0000_0000 {
        return;
      }
      var rtt := Sub(now, sent.at);
      if rtt <= 0 || rtt > PENDING_FOR {
        return;
      }
      Keep(Sample(now, rtt));
      seen := true;
    }

    method Keep(s: Sample)
      requires len <= store.Length
      modifies `store, `len, store
      ensures store == old(store) || fresh(store)
      ensures len <= store.Length && store[..len] == DropOldest(old(store[..len])) + [s]
    {
      if len == MAX_SAMPLES {
        DropFirst(store, len);
        len := len - 1;
      }
      store := Append(store, len, s);
      len := len + 1;
    }

    /** The shortest of the samples kept, found by one pass. */
    method LeastStored() returns (least: int)
      requires 0 < len <= store.Length
      ensures least == Least(store[..len])
    {
      least := store[0].rtt;
      for i := 1 to len
        invariant least == Least(store[..i])
      {
        assert store[..i + 1][..i] == store[..i];
        least := Min(least, store[i].rtt);
      }
    }

    /** keep := m.samples[:0] shares storage with the samples still being read: it is written behind
        the reader, and not at all when nothing is kept, which is why the second pass over the old
        samples still finds them. */
    method KeepFresh(now: int)
      requires len <= store.Length
      modifies `len, `last, store
      ensures len <= store.Length && store[..len] == Fresh(old(store[..len]), now)
      ensures last == if len == 0 && old(len) > 0 then Least(old(store[..len])) else old(last)
    {
      var kept := 0;
      var n := len;
      ghost var before := store[..n];
      for i := 0 to n
        invariant len == n && last == old(last)
        invariant kept <= i && kept == |Fresh(before[..i], now)|
        invariant forall j | 0 <= j < kept :: store[j] == Fresh(before[..i], now)[j]
        invariant forall j | i <= j < n :: store[j] == before[j]
        invariant kept == 0 ==> forall j | 0 <= j < n :: store[j] == before[j]
      {
        assert before[..i + 1][..i] == before[..i];
        var s := store[i];
        if Sub(now, s.at) <= WINDOW {
          store[kept] := s;
          kept := kept + 1;
        }
      }
      assert before[..n] == before;
      if kept == 0 && len > 0 {
        assert store[..n] == before;
        last := LeastStored();
      }
      len := kept;
    }

    method ExpireLocked(now: int)
      requires len <= store.Length
      modifies `pending, `len, `last, store
      ensures len <= store.Length && View() == Expire(old(View()), now)
    {
      hide Fresh, Least, Waiting;
      KeepFresh(now);
      DropStale(now);
    }

    /** A range over the map, in any order, deleting as it goes. */
    method DropStale(now: int)
      modifies `pending
      ensures pending == Waiting(old(pending), now)
    {
      var todo := pending.Keys;
      while todo != {}
        invariant todo <= pending.Keys <= old(pending).Keys
        invariant forall f | f in pending :: pending[f] == old(pending)[f]
        invariant forall f | f in old(pending) && f !in todo ::
          f in pending <==> Sub(now, old(pending)[f].at) <= PENDING_FOR
      {
        var f :| f in todo;
        todo := todo - {f};
        if Sub(now, pending[f].at) > PENDING_FOR {
          pending := pending - {f};
        }
      }
    }
  }

  lemma IgnoredStep(st: State)
    ensures Step(st, Ignored) == st
  {
  }

  /** The whole milliseconds in a time, and one for a time shorter than that. */
  predicate InMilliseconds(ms: int, ns: int) {
    ms * 1_000_000 <= ns < (ms + 1) * 1_000_000 || (ms == 1 && 0 < ns < 1_000_000)
  }

  /** Latency in whole milliseconds, or zero when there is none yet. A nil meter has none. */
  method Milliseconds(m: Meter?, now: int) returns (ms: int)
    requires m != null ==> m.Valid()
    modifies if m == null then {} else {m, m.store}
    ensures m != null ==> m.Valid() && m.history == old(m.history) + [Look(now)]
    ensures ms == 0 <==> m == null || Accepted(old(m.history)) == []
    ensures 0 <= ms <= 5000
    ensures m != null && Accepted(old(m.history)) != [] ==>
      && Figure(Run(m.history)).Some? && InMilliseconds(ms, Figure(Run(m.history)).value)
      && exists a :: a in Accepted(old(m.history)) && a.rtt == Figure(Run(m.history)).value
  {
    if m == null {
      return 0;
    }
    ghost var before := m.history;
    var latency, ok := m.Latency(now);
    FigureIsAccepted(before, now);
    if !ok {
      return 0;
    }
    ms := if latency / 1_000_000 < 1 then 1 else latency / 1_000_000;
  }

  // ---- The wrapped tun device ----

  /** What Read shows the meter of a batch: every buffer the device filled, cut to what it filled. */
  function ShownByRead(bufs: seq<seq<Byte>>, sizes: seq<int>, offset: nat, n: int, times: nat -> int,
    i: nat): seq<Event>
    decreases |bufs| - i
  {
    if i < n && i < |bufs| && i < |sizes| then
      (if sizes[i] > 0 && offset + sizes[i] <= |bufs[i]|
       then [OutEvent(times(i), bufs[i][offset..offset + sizes[i]])] else [])
      + ShownByRead(bufs, sizes, offset, n, times, i + 1)
    else []
  }

  function ShownByWrite(bufs: seq<seq<Byte>>, offset: nat, times: nat -> int, i: nat): seq<Event>
    decreases |bufs| - i
  {
    if i < |bufs| then
      (if offset < |bufs[i]| then [InEvent(times(i), bufs[i][offset..])] else [])
      + ShownByWrite(bufs, offset, times, i + 1)
    else []
  }

  /** These are the indices from one on that are good, each once, in order. */
  ghost predicate Picks(which: seq<nat>, from: nat, good: nat -> bool) {
    && (forall k | 0 <= k < |which| :: from <= which[k] && good(which[k]))
    && (forall j, k | 0 <= j < k < |which| :: which[j] < which[k])
    && (forall i: nat | from <= i && good(i) :: i in which)
  }

  lemma PickOne(which: seq<nat>, from: nat, good: nat -> bool)
    requires Picks(which, from + 1, good)
    ensures Picks(if good(from) then [from] + which else which, from, good)
  {
    hide Picks;
    if good(from) {
      PickThis(which, from, good);
    } else {
      PickNext(which, from, good);
    }
  }

  lemma PickNext(which: seq<nat>, from: nat, good: nat -> bool)
    requires Picks(which, from + 1, good) && !good(from)
    ensures Picks(which, from, good)
  {
  }

  lemma PickThis(which: seq<nat>, from: nat, good: nat -> bool)
    requires Picks(which, from + 1, good) && good(from)
    ensures Picks([from] + which, from, good)
  {
    var all := [from] + which;
    forall k | 0 <= k < |all|
      ensures from <= all[k] && good(all[k])
    {
      assert k > 0 ==> all[k] == which[k - 1];
    }
    forall j, k | 0 <= j < k < |all|
      ensures all[j] < all[k]
    {
      assert all[k] == which[k - 1];
      assert j > 0 ==> all[j] == which[j - 1];
    }
    forall i: nat | from <= i && good(i)
      ensures i in all
    {
      assert i == from || i in which;
    }
  }

  lemma PickNothing(from: nat, good: nat -> bool)
    requires forall i: nat | from <= i :: !good(i)
    ensures Picks([], from, good)
  {
  }

  lemma ShowNothing(event: nat -> Event)
    ensures ShownAs([], [], event)
  {
  }

  /** The events are those of these indices, in order. */
  ghost predicate ShownAs(events: seq<Event>, which: seq<nat>, event: nat -> Event) {
    |events| == |which| && forall k | 0 <= k < |which| :: events[k] == event(which[k])
  }

  lemma ShowOne(events: seq<Event>, which: seq<nat>, event: nat -> Event, i: nat)
    requires ShownAs(events, which, event)
    ensures ShownAs([event(i)] + events, [i] + which, event)
  {
  }

  /** The buffers that hold a packet: the device filled them, and what it says it filled is there. */
  ghost function Filled(bufs: seq<seq<Byte>>, sizes: seq<int>, offset: nat, n: int): nat -> bool {
    (i: nat) => i < n && i < |bufs| && i < |sizes| && 0 < sizes[i] <= |bufs[i]| - offset
  }

  /** What was filled, on its way out. */
  ghost function Outgoing(bufs: seq<seq<Byte>>, sizes: seq<int>, offset: nat, times: nat -> int): nat -> Event {
    (i: nat) => if i < |bufs| && i < |sizes| && 0 < sizes[i] <= |bufs[i]| - offset
         then OutEvent(times(i), bufs[i][offset..offset + sizes[i]]) else Ignored
  }

  /** Read shows each of these buffers once and no other, in order, cut to what was filled, as outbound. */
  lemma {:induction false} ReadIsShown(bufs: seq<seq<Byte>>, sizes: seq<int>, offset: nat, n: int,
                                       times: nat -> int, from: nat) returns (which: seq<nat>)
    ensures Picks(which, from, Filled(bufs, sizes, offset, n))
    ensures ShownAs(ShownByRead(bufs, sizes, offset, n, times, from), which, Outgoing(bufs, sizes, offset, times))
    decreases |bufs| - from
  {
    hide OutEvent, Picks, ShownAs;
    var filled, event := Filled(bufs, sizes, offset, n), Outgoing(bufs, sizes, offset, times);
    if from < n && from < |bufs| && from < |sizes| {
      which := ReadIsShown(bufs, sizes, offset, n, times, from + 1);
      PickOne(which, from, filled);
      var rest := ShownByRead(bufs, sizes, offset, n, times, from + 1);
      ShowOne(rest, which, event, from);
      assert [] + rest == rest;
      which := if filled(from) then [from] + which else which;
    } else {
      which := [];
      PickNothing(from, filled);
      ShowNothing(event);
    }
  }

  /** The buffers that go on behind the offset. */
  ghost function Longer(bufs: seq<seq<Byte>>, offset: nat): nat -> bool {
    (i: nat) => i < |bufs| && |bufs[i]| > offset
  }

  /** What is behind the offset, on its way in. */
  ghost function Incoming(bufs: seq<seq<Byte>>, offset: nat, times: nat -> int): nat -> Event {
    (i: nat) => if i < |bufs| && |bufs[i]| > offset then InEvent(times(i), bufs[i][offset..]) else Ignored
  }

  /** Write shows each of these buffers once and no other, in order, as inbound. */
  lemma {:induction false} WriteIsShown(bufs: seq<seq<Byte>>, offset: nat, times: nat -> int, from: nat)
    returns (which: seq<nat>)
    ensures Picks(which, from, Longer(bufs, offset))
    ensures ShownAs(ShownByWrite(bufs, offset, times, from), which, Incoming(bufs, offset, times))
    decreases |bufs| - from
  {
    hide InEvent, Picks, ShownAs;
    var longer, event := Longer(bufs, offset), Incoming(bufs, offset, times);
    if from < |bufs| {
      which := WriteIsShown(bufs, offset, times, from + 1);
      PickOne(which, from, longer);
      var rest := ShownByWrite(bufs, offset, times, from + 1);
      ShowOne(rest, which, event, from);
      assert [] + rest == rest;
      which := if longer(from) then [from] + which else which;
    } else {
      which := [];
      PickNothing(from, longer);
      ShowNothing(event);
    }
  }

  method ShowRead(m: Meter, bufs: seq<seq<Byte>>, sizes: seq<int>, offset: nat, n: int, times: nat -> int)
    requires m.Valid()
    modifies m, m.store
    ensures m.Valid() && m.store == old(m.store)
    ensures m.history == old(m.history) + ShownByRead(bufs, sizes, offset, n, times, 0)
  {
    hide ParseTCP, Run, Step;
    var i := 0;
    while i < n && i < |bufs| && i < |sizes|
      invariant m.Valid() && m.store == old(m.store)
      invariant m.history + ShownByRead(bufs, sizes, offset, n, times, i)
             == old(m.history) + ShownByRead(bufs, sizes, offset, n, times, 0)
      decreases |bufs| - i
    {
      var end := offset + sizes[i];
      if sizes[i] > 0 && end <= |bufs[i]| {
        m.Outbound(times(i), bufs[i][offset..end]);
      }
      i := i + 1;
    }
  }

  method ShowWrite(m: Meter, bufs: seq<seq<Byte>>, offset: nat, times: nat -> int)
    requires m.Valid()
    modifies m, m.store
    ensures m.Valid() && (m.store == old(m.store) || fresh(m.store))
    ensures m.history == old(m.history) + ShownByWrite(bufs, offset, times, 0)
  {
    hide ParseTCP, Run, Step;
    for i := 0 to |bufs|
      invariant m.Valid() && (m.store == old(m.store) || fresh(m.store))
      invariant m.history + ShownByWrite(bufs, offset, times, i)
             == old(m.history) + ShownByWrite(bufs, offset, times, 0)
    {
      if offset < |bufs[i]| {
        m.Inbound(times(i), bufs[i][offset..]);
      }
    }
  }
}
