/** The service's idle exit: connections that hold it, a timer whose callback may fire late, and a watcher
    that hears of an expiry once. A step is one hold of the idler's lock, or one move outside it. */
module Idler {
  import opened Wrappers

  /** Waiting on the channel; asking whether a tunnel is up; holding because one was; stopping because none
      was. */
  datatype Watcher = Waiting | Deciding | Holding | Stopping

  /** `after` is the idle time asked for, `since` when the timer was last set, at the start or on going idle. Callbacks
      that were started and have not reached the lock are `late` once somebody came to hold after they were
      started, and `recent` until then. `queued` says whether the channel, which has room for one, is full;
      `blocked` that a callback waits to send with the lock in its hand. */
  datatype World = World(
    after: nat,
    now: nat,
    holders: int,
    fired: bool,
    armed: bool,
    since: nat,
    recent: nat,
    late: nat,
    queued: bool,
    blocked: bool,
    open: nat,
    watcher: Watcher,
    clamped: bool
  )

  function Start(after: nat): World {
    World(after, 0, 0, false, true, 0, 0, 0, false, false, 0, Waiting, false)
  }

  datatype Step =
    | Pass(d: nat)        // time passes
    | Accept              // a connection is accepted, and holds
    | Finish              // a connection is done with
    | Elapse              // the timer runs out, and its callback starts
    | Fire(late: bool)    // a callback, recent or late, gets the lock
    | Receive             // the watcher hears of an expiry
    | FindUp              // it finds a tunnel up, and holds
    | FindDown            // it finds none, and stops everything

  predicate Enabled(w: World, s: Step) {
    match s
    case Pass(_) => true
    case Accept => !w.blocked
    case Finish => w.open > 0 && !w.blocked
    case Elapse => w.armed && w.now - w.since >= w.after
    case Fire(late) => (if late then w.late > 0 else w.recent > 0) && !w.blocked
    case Receive => w.watcher.Waiting? && w.queued
    case FindUp => w.watcher.Deciding? && !w.blocked
    case FindDown => w.watcher.Deciding?
  }

  function Busy(w: World): World {
    w.(holders := w.holders + 1, fired := false, armed := false, late := w.late + w.recent, recent := 0)
  }

  function Idle(w: World): World {
    var left := w.holders - 1;
    if left <= 0 then w.(holders := 0, armed := true, since := w.now, clamped := w.clamped || left < 0)
    else w.(holders := left)
  }

  predicate Sends(w: World, s: Step) {
    s.Fire? && !(w.holders > 0 || w.fired)
  }

  function Next(w: World, s: Step): World
    requires Enabled(w, s)
  {
    match s
    case Pass(d) => w.(now := w.now + d)
    case Accept => Busy(w).(open := w.open + 1)
    case Finish => Idle(w).(open := w.open - 1)
    case Elapse => w.(armed := false, recent := w.recent + 1)
    case Fire(late) =>
      var landed := if late then w.(late := w.late - 1) else w.(recent := w.recent - 1);
      if !Sends(w, s) then landed
      else if w.queued then landed.(fired := true, blocked := true)
      else landed.(fired := true, queued := true)
    case Receive => w.(watcher := Deciding, queued := w.blocked, blocked := false)
    case FindUp => Busy(w).(watcher := Holding)
    case FindDown => w.(watcher := Stopping)
  }

  function Run(after: nat, steps: seq<Step>): Option<World> {
    if steps == [] then Some(Start(after))
    else
      match Run(after, steps[..|steps| - 1])
      case None => None
      case Some(w) => if Enabled(w, steps[|steps| - 1]) then Some(Next(w, steps[|steps| - 1])) else None
  }

  // ---- What a run did ----

  function Accepted(steps: seq<Step>): nat {
    if steps == [] then 0 else Accepted(steps[..|steps| - 1]) + if steps[|steps| - 1].Accept? then 1 else 0
  }

  function Finished(steps: seq<Step>): nat {
    if steps == [] then 0 else Finished(steps[..|steps| - 1]) + if steps[|steps| - 1].Finish? then 1 else 0
  }

  /** How many callbacks the timer started. */
  function Elapsed(steps: seq<Step>): nat {
    if steps == [] then 0 else Elapsed(steps[..|steps| - 1]) + if steps[|steps| - 1].Elapse? then 1 else 0
  }

  /** How many of them got the lock. */
  function Landed(steps: seq<Step>): nat {
    if steps == [] then 0 else Landed(steps[..|steps| - 1]) + if steps[|steps| - 1].Fire? then 1 else 0
  }

  /** What time it is. */
  function Clock(steps: seq<Step>): nat {
    if steps == [] then 0
    else Clock(steps[..|steps| - 1]) + match steps[|steps| - 1] case Pass(d) => d case _ => 0
  }

  /** When somebody last came to hold or was done. */
  function LastMove(steps: seq<Step>): nat {
    if steps == [] then 0
    else
      var s := steps[|steps| - 1];
      if s.Accept? || s.Finish? || s.FindUp? then Clock(steps) else LastMove(steps[..|steps| - 1])
  }

  /** How long it has been as it is, nobody holding where nobody holds. */
  function Unmoved(steps: seq<Step>): int {
    Clock(steps) - LastMove(steps)
  }

  predicate FoundUp(steps: seq<Step>) {
    exists i :: 0 <= i < |steps| && steps[i] == FindUp
  }

  predicate SendsLast(after: nat, steps: seq<Step>) {
    steps != [] && Run(after, steps[..|steps| - 1]).Some?
    && Sends(Run(after, steps[..|steps| - 1]).value, steps[|steps| - 1])
  }

  /** How many expiries were sent. */
  function Sent(after: nat, steps: seq<Step>): nat {
    if steps == [] then 0 else Sent(after, steps[..|steps| - 1]) + if SendsLast(after, steps) then 1 else 0
  }

  /** How many of them since anybody last came to hold. */
  function SentSinceBusy(after: nat, steps: seq<Step>): nat {
    if steps == [] then 0
    else if steps[|steps| - 1].Accept? || steps[|steps| - 1].FindUp? then 0
    else SentSinceBusy(after, steps[..|steps| - 1]) + if SendsLast(after, steps) then 1 else 0
  }

  function Hold(w: World): nat {
    if w.watcher.Holding? then 1 else 0
  }

  /** How many expiries the watcher heard of, the channel holds, and a callback waits to send. */
  function Heard(w: World): nat {
    (if w.watcher.Waiting? then 0 else 1) + (if w.queued then 1 else 0) + (if w.blocked then 1 else 0)
  }

  ghost predicate Counted(after: nat, steps: seq<Step>, w: World) {
    && w.open == Accepted(steps) - Finished(steps)
    && w.holders == w.open + Hold(w) && !w.clamped
    && (w.fired ==> w.holders == 0)
    && SentSinceBusy(after, steps) == (if w.fired then 1 else 0)
    && Sent(after, steps) == Heard(w)
    && (w.blocked ==> w.queued && w.fired)
    && (w.armed || w.recent > 0 ==> w.holders == 0)
    && (w.holders == 0 ==> w.armed || w.recent > 0 || w.fired)
    && (w.armed ==> w.recent == 0) && w.recent <= 1
    && w.recent + w.late == Elapsed(steps) - Landed(steps)
    && w.after == after && w.now == Clock(steps) && (w.holders == 0 ==> w.since == LastMove(steps))
    && (w.recent > 0 ==> w.now - w.since >= after)
    && (w.watcher.Holding? <==> FoundUp(steps))
  }

  lemma {:induction false} EveryRunCounts(after: nat, steps: seq<Step>)
    requires Run(after, steps).Some?
    ensures Counted(after, steps, Run(after, steps).value)
  {
    if steps != [] {
      var n := |steps| - 1;
      EveryRunCounts(after, steps[..n]);
      FoundUpLast(steps);
      StepCounts(after, steps);
    }
  }

  lemma FoundUpLast(steps: seq<Step>)
    requires steps != []
    ensures FoundUp(steps) <==> FoundUp(steps[..|steps| - 1]) || steps[|steps| - 1] == FindUp
  {
    var n := |steps| - 1;
    if i :| 0 <= i < n && steps[..n][i] == FindUp {
      assert steps[i] == FindUp;
    }
    if i :| 0 <= i < |steps| && steps[i] == FindUp {
      assert i < n ==> steps[..n][i] == FindUp;
    }
  }

  lemma StepCounts(after: nat, steps: seq<Step>)
    requires steps != [] && Run(after, steps).Some?
    requires Counted(after, steps[..|steps| - 1], Run(after, steps[..|steps| - 1]).value)
    requires FoundUp(steps) <==> FoundUp(steps[..|steps| - 1]) || steps[|steps| - 1] == FindUp
    ensures Counted(after, steps, Run(after, steps).value)
  {
    hide FoundUp, Run;
    var n := |steps| - 1;
    StepOfRun(after, steps);
    var s := steps[n];
    match s
    case Pass(_) =>
    case Accept =>
    case Finish =>
    case Elapse =>
    case Fire(_) =>
    case Receive =>
    case FindUp =>
    case FindDown =>
  }

  lemma StepOfRun(after: nat, steps: seq<Step>)
    requires steps != [] && Run(after, steps).Some?
    ensures var n := |steps| - 1;
      Run(after, steps[..n]).Some? && Enabled(Run(after, steps[..n]).value, steps[n])
      && Run(after, steps) == Some(Next(Run(after, steps[..n]).value, steps[n]))
  {
  }

  /** Across every interleaving: the holders are the connections not finished, and one more once the watcher
      has found a tunnel up; and the clamp to zero never changed anything. */
  lemma HoldersAreConnections(after: nat, steps: seq<Step>)
    requires Run(after, steps).Some?
    ensures var w := Run(after, steps).value;
      && w.holders == Accepted(steps) - Finished(steps) + (if FoundUp(steps) then 1 else 0)
      && !w.clamped
  {
    EveryRunCounts(after, steps);
  }

  /** Every callback the timer started gets the lock once or is still on its way, and at most one of these was started
      since anybody last came to hold. */
  lemma CallbacksAreCounted(after: nat, steps: seq<Step>)
    requires Run(after, steps).Some?
    ensures var w := Run(after, steps).value; w.recent + w.late == Elapsed(steps) - Landed(steps) && w.recent <= 1
  {
    EveryRunCounts(after, steps);
  }

  /** An expiry is sent only while nobody holds, at most one between two who come to hold, and none once the
      watcher has found a tunnel up; and unless its callback is a late one, nobody came or went for the idle
      time before it. */
  lemma ExpiriesAreIdle(after: nat, steps: seq<Step>)
    requires Run(after, steps).Some?
    ensures SendsLast(after, steps) ==>
      && Accepted(steps) == Finished(steps)
      && SentSinceBusy(after, steps) == 1
      && !FoundUp(steps)
      && (!steps[|steps| - 1].late ==> Unmoved(steps) >= after)
    ensures SentSinceBusy(after, steps) <= 1
  {
    EveryRunCounts(after, steps);
    if SendsLast(after, steps) {
      EveryRunCounts(after, steps[..|steps| - 1]);
    }
  }

  // ---- The idle time ----

  predicate Idles(w: World) {
    w.holders == 0 && !w.fired && !w.blocked
  }

  /** When an expiry comes early, before nobody came or went for the idle time: exactly when nobody holds and the
      callback is one that was started before somebody last came to hold. The timer is running then, and no
      callback has been started since. */
  lemma EarlyExactly(after: nat, steps: seq<Step>, late: bool)
    requires Run(after, steps).Some? && Unmoved(steps) < after
    ensures var w := Run(after, steps).value;
      && (Enabled(w, Fire(late)) && Sends(w, Fire(late)) <==> Idles(w) && late && w.late > 0)
      && (Idles(w) ==> w.armed && w.recent == 0)
  {
    EveryRunCounts(after, steps);
  }

  /** And no expiry is lost: while nobody holds, the timer runs, its callback is on its way, or an expiry was sent. */
  lemma NoExpiryIsLost(after: nat, steps: seq<Step>)
    requires Run(after, steps).Some? && Accepted(steps) == Finished(steps) && !FoundUp(steps)
    ensures var w := Run(after, steps).value; w.armed || w.recent > 0 || SentSinceBusy(after, steps) == 1
  {
    EveryRunCounts(after, steps);
  }

  lemma MoveSnoc(steps: seq<Step>, s: Step)
    ensures Clock(steps + [s]) == Clock(steps) + if s.Pass? then s.d else 0
    ensures LastMove(steps + [s]) ==
      if s.Accept? || s.Finish? || s.FindUp? then Clock(steps + [s]) else LastMove(steps)
  {
    assert (steps + [s])[..|steps|] == steps;
  }

  /** A late callback does send early: started as the idle time ends, it gets the lock only after a connection came
      and went, and the service is told to exit with no idle time passed at all. */
  lemma EarlyExpiryHappens(after: nat)
    requires after > 0
    ensures var steps := [Pass(after), Elapse, Accept, Finish, Fire(true)];
      Run(after, steps).Some? && SendsLast(after, steps) && Unmoved(steps) == 0
  {
    var s0: seq<Step> := [];
    RunSnoc(after, s0, Pass(after));
    var s1 := s0 + [Pass(after)];
    RunSnoc(after, s1, Elapse);
    var s2 := s1 + [Elapse];
    RunSnoc(after, s2, Accept);
    var s3 := s2 + [Accept];
    RunSnoc(after, s3, Finish);
    var s4 := s3 + [Finish];
    RunSnoc(after, s4, Fire(true));
    MoveSnoc(s0, Pass(after));
    MoveSnoc(s1, Elapse);
    MoveSnoc(s2, Accept);
    MoveSnoc(s3, Finish);
    MoveSnoc(s4, Fire(true));
    assert (s4 + [Fire(true)])[..4] == s4;
    assert s4 + [Fire(true)] == [Pass(after), Elapse, Accept, Finish, Fire(true)];
  }

  // ---- The channel has room for one ----

  /** No step but the watcher's own decision to stop can be taken with any effect on who holds: the lock is
      in the hand of a callback that waits for a receiver there will never be. */
  predicate Wedged(w: World) {
    w.blocked && !w.watcher.Waiting?
  }

  lemma WedgedStays(w: World, s: Step)
    requires Wedged(w) && Enabled(w, s)
    ensures Wedged(Next(w, s)) && Next(w, s).holders == w.holders && Next(w, s).open == w.open
    ensures s.Pass? || s.Elapse? || s.FindDown?
  {
  }

  /** And once wedged, so it stays over any continuation, with no connection counted any more. */
  lemma {:induction false} WedgedForever(after: nat, steps: seq<Step>, more: seq<Step>)
    requires Run(after, steps).Some? && Wedged(Run(after, steps).value) && Run(after, steps + more).Some?
    ensures Wedged(Run(after, steps + more).value)
    ensures Run(after, steps + more).value.open == Run(after, steps).value.open
    ensures forall i | 0 <= i < |more| :: more[i].Pass? || more[i].Elapse? || more[i].FindDown?
    decreases |more|
  {
    if more == [] {
      assert steps + more == steps;
    } else {
      var n := |more| - 1;
      assert (steps + more)[..|steps| + n] == steps + more[..n];
      WedgedForever(after, steps, more[..n]);
      WedgedStays(Run(after, steps + more[..n]).value, more[n]);
    }
  }

  /** Exactly the third expiry of a service's life wedges it, and there is never a fourth: the watcher hears
      of one, the channel keeps one, and the next sender waits for good. */
  lemma ThirdExpiryWedges(after: nat, steps: seq<Step>)
    requires Run(after, steps).Some?
    ensures Sent(after, steps) <= 3
    ensures Wedged(Run(after, steps).value) <==> Sent(after, steps) == 3
  {
    EveryRunCounts(after, steps);
  }

  lemma RunSnoc(after: nat, steps: seq<Step>, s: Step)
    requires Run(after, steps).Some? && Enabled(Run(after, steps).value, s)
    ensures Run(after, steps + [s]) == Some(Next(Run(after, steps).value, s))
  {
    assert (steps + [s])[..|steps|] == steps;
  }

  /** It can come to that: the watcher is told, and while it asks whether a tunnel is up two connections come
      and go, each followed by the whole idle time. */
  lemma WedgeIsReachable(after: nat)
    ensures var steps := [Pass(after), Elapse, Fire(false), Receive, Accept, Finish, Pass(after), Elapse, Fire(false),
                          Accept, Finish, Pass(after), Elapse, Fire(false)];
      Run(after, steps).Some? && Wedged(Run(after, steps).value)
  {
    hide Run, Next, Enabled;
    var s0 := Started(after);
    var s1 := ExpireOnce(after, s0, false, Waiting);
    var s2 := HearOfIt(after, s1);
    var s3 := ComeAndGo(after, s2, false);
    var s4 := ExpireOnce(after, s3, false, Deciding);
    var s5 := ComeAndGo(after, s4, true);
    var s6 := ExpireOnce(after, s5, true, Deciding);
    assert s6 == [Pass(after), Elapse, Fire(false), Receive, Accept, Finish, Pass(after), Elapse, Fire(false),
                  Accept, Finish, Pass(after), Elapse, Fire(false)];
  }

  /** Nobody holds, and the timer has run out. */
  predicate Due(w: World, queued: bool, watcher: Watcher) {
    Idles(w) && w.armed && w.now - w.since >= w.after && w.queued == queued && w.watcher == watcher
  }

  /** An expiry was sent, or its callback waits to send it. */
  predicate Expired(w: World, blocked: bool, watcher: Watcher) {
    w.holders == 0 && w.queued && w.blocked == blocked && w.watcher == watcher
  }

  lemma Started(after: nat) returns (more: seq<Step>)
    ensures more == [Pass(after)] && Run(after, more).Some? && Due(Run(after, more).value, false, Waiting)
  {
    RunSnoc(after, [], Pass(after));
    more := [] + [Pass(after)];
  }

  /** The timer's callback gets the lock at once. */
  lemma ExpireOnce(after: nat, steps: seq<Step>, queued: bool, watcher: Watcher) returns (more: seq<Step>)
    requires Run(after, steps).Some? && Due(Run(after, steps).value, queued, watcher)
    ensures more == steps + [Elapse, Fire(false)]
    ensures Run(after, more).Some? && Expired(Run(after, more).value, queued, watcher)
  {
    hide Run;
    RunSnoc(after, steps, Elapse);
    RunSnoc(after, steps + [Elapse], Fire(false));
    more := steps + [Elapse] + [Fire(false)];
  }

  lemma HearOfIt(after: nat, steps: seq<Step>) returns (more: seq<Step>)
    requires Run(after, steps).Some? && Expired(Run(after, steps).value, false, Waiting)
    ensures more == steps + [Receive]
    ensures Run(after, more).Some?
    ensures var w := Run(after, more).value; w.holders == 0 && !w.blocked && !w.queued && w.watcher == Deciding
  {
    hide Run;
    RunSnoc(after, steps, Receive);
    more := steps + [Receive];
  }

  /** A connection comes and goes, and the idle time passes. */
  lemma ComeAndGo(after: nat, steps: seq<Step>, queued: bool) returns (more: seq<Step>)
    requires Run(after, steps).Some?
    requires var w := Run(after, steps).value;
      w.holders == 0 && !w.blocked && w.queued == queued && w.watcher == Deciding
    ensures more == steps + [Accept, Finish, Pass(after)]
    ensures Run(after, more).Some? && Due(Run(after, more).value, queued, Deciding)
  {
    EveryRunCounts(after, steps);
    hide Run;
    RunSnoc(after, steps, Accept);
    RunSnoc(after, steps + [Accept], Finish);
    RunSnoc(after, steps + [Accept] + [Finish], Pass(after));
    more := steps + [Accept] + [Finish] + [Pass(after)];
  }

  // ---- As the program runs it ----

  class Idler {
    var holders: int
    var fired: bool
    /** The timer is running, and when it was set. */
    var armed: bool
    var since: nat
    /** The channel's one place is taken. */
    var queued: bool

    /** The fields are these of the world. */
    ghost predicate Shows(w: World)
      reads this
    {
      holders == w.holders && fired == w.fired && armed == w.armed && since == w.since && queued == w.queued
    }

    constructor (ghost after: nat)
      ensures Shows(Start(after))
    {
      holders, fired, armed, since, queued := 0, false, true, 0, false;
    }

    /** The timer's callback. `waits` is true when it is left sending, the channel being full. */
    method FireLocked(ghost w: World, ghost late: bool) returns (waits: bool)
      requires Shows(w) && Enabled(w, Fire(late))
      modifies this
      ensures Shows(Next(w, Fire(late))) && waits == Next(w, Fire(late)).blocked
    {
      if holders > 0 || fired {
        return false;
      }
      fired := true;
      waits := queued;
      queued := true;
    }

    method BusyLocked(ghost w: World)
      requires Shows(w)
      modifies this
      ensures Shows(Busy(w))
    {
      holders := holders + 1;
      fired := false;
      armed := false;
    }

    method IdleLocked(ghost w: World, now: nat)
      requires Shows(w) && now == w.now
      modifies this
      ensures Shows(Idle(w))
    {
      holders := holders - 1;
      if holders <= 0 {
        holders := 0;
        armed := true;
        since := now;
      }
    }
  }
}
