/** The one tunnel of a session, and any number of Connect and Disconnect calls around it. A call holds the
    lock only while it exchanges what is in the slot; it makes and closes devices outside it. */
module SessionSlot {
  import opened Wrappers

  /** A device and the network that came with it are known by one number. */
  type Device = nat

  type CallId = nat

  datatype Slot = Slot(device: Option<Device>, net: Option<Device>, endpoint: string)

  const EMPTY: Slot := Slot(None, None, "")

  /** Where a call is between two steps. */
  datatype Call =
    | Configuring(dev: Device)
    | Rejecting(dev: Device)
    | Ready(dev: Device)
    | Replacing(previous: Option<Device>)
    | Removing(taken: Option<Device>)

  /** `made` gives every device ever opened the endpoint of its Connect; `closed` lists the calls to Close. */
  datatype World = World(slot: Slot, calls: map<CallId, Call>, made: map<Device, string>, closed: seq<Device>)

  const START: World := World(EMPTY, map[], map[], [])

  datatype Step =
    | Open(id: CallId, dev: Device, endpoint: string)
    | Fail(id: CallId)
    | CloseRejected(id: CallId)
    | Configured(id: CallId)
    | Swap(id: CallId)
    | ClosePrevious(id: CallId)
    | Take(id: CallId)
    | CloseTaken(id: CallId)

  predicate Enabled(w: World, s: Step) {
    match s
    case Open(id, dev, _) => id !in w.calls && dev !in w.made
    case Fail(id) => id in w.calls && w.calls[id].Configuring?
    case CloseRejected(id) => id in w.calls && w.calls[id].Rejecting?
    case Configured(id) => id in w.calls && w.calls[id].Configuring?
    case Swap(id) => id in w.calls && w.calls[id].Ready? && w.calls[id].dev in w.made
    case ClosePrevious(id) => id in w.calls && w.calls[id].Replacing?
    case Take(id) => id !in w.calls
    case CloseTaken(id) => id in w.calls && w.calls[id].Removing?
  }

  function Close(closed: seq<Device>, dev: Option<Device>): seq<Device> {
    if dev.Some? then closed + [dev.value] else closed
  }

  function Next(w: World, s: Step): World
    requires Enabled(w, s)
  {
    match s
    case Open(id, dev, endpoint) => w.(calls := w.calls[id := Configuring(dev)], made := w.made[dev := endpoint])
    case Fail(id) => w.(calls := w.calls[id := Rejecting(w.calls[id].dev)])
    case CloseRejected(id) => w.(calls := w.calls - {id}, closed := w.closed + [w.calls[id].dev])
    case Configured(id) => w.(calls := w.calls[id := Ready(w.calls[id].dev)])
    case Swap(id) =>
      var dev := w.calls[id].dev;
      w.(slot := Slot(Some(dev), Some(dev), w.made[dev]), calls := w.calls[id := Replacing(w.slot.device)])
    case ClosePrevious(id) => w.(calls := w.calls - {id}, closed := Close(w.closed, w.calls[id].previous))
    case Take(id) => w.(slot := EMPTY, calls := w.calls[id := Removing(w.slot.device)])
    case CloseTaken(id) => w.(calls := w.calls - {id}, closed := Close(w.closed, w.calls[id].taken))
  }

  /** The world after the steps, taken in any interleaving; None when one of them cannot be taken. */
  function Run(steps: seq<Step>): Option<World> {
    if steps == [] then Some(START)
    else
      match Run(steps[..|steps| - 1])
      case None => None
      case Some(w) => if Enabled(w, steps[|steps| - 1]) then Some(Next(w, steps[|steps| - 1])) else None
  }

  // ---- Who owns a device ----

  function Holds(c: Call): Option<Device> {
    match c
    case Configuring(dev) => Some(dev)
    case Rejecting(dev) => Some(dev)
    case Ready(dev) => Some(dev)
    case Replacing(previous) => previous
    case Removing(taken) => taken
  }

  ghost predicate HeldBy(w: World, id: CallId, d: Device) {
    id in w.calls && Holds(w.calls[id]) == Some(d)
  }

  ghost predicate InFlight(w: World, d: Device) {
    exists id :: HeldBy(w, id, d)
  }

  ghost predicate InSlot(w: World, d: Device) {
    w.slot.device == Some(d)
  }

  ghost predicate Closed(w: World, d: Device) {
    d in w.closed
  }

  /** Every device ever opened is in exactly one place, none is closed twice, and what the slot holds came
      from one Connect. */
  ghost predicate Owned(w: World) {
    && (forall d | InSlot(w, d) || InFlight(w, d) || Closed(w, d) :: d in w.made)
    && (forall d | d in w.made :: InSlot(w, d) || InFlight(w, d) || Closed(w, d))
    && (forall d :: !(InSlot(w, d) && InFlight(w, d)))
    && (forall d :: !(InSlot(w, d) && Closed(w, d)) && !(InFlight(w, d) && Closed(w, d)))
    && (forall d, i, j | HeldBy(w, i, d) && HeldBy(w, j, d) :: i == j)
    && (forall i, j | 0 <= i < j < |w.closed| :: w.closed[i] != w.closed[j])
    && w.slot.net == w.slot.device
    && (w.slot.device.Some? ==> w.slot.device.value in w.made && w.slot.endpoint == w.made[w.slot.device.value])
    && (w.slot.device.None? ==> w.slot == EMPTY)
  }

  /** What one step does to who holds what: the stepping call's holding changes, nobody else's. */
  lemma OthersKeep(w: World, s: Step, id: CallId, d: Device)
    requires Enabled(w, s) && id != s.id
    ensures HeldBy(Next(w, s), id, d) <==> HeldBy(w, id, d)
  {
  }

  lemma FlightAfter(w: World, s: Step, d: Device)
    requires Enabled(w, s)
    ensures InFlight(Next(w, s), d) <==> HeldBy(Next(w, s), s.id, d) || exists id :: id != s.id && HeldBy(w, id, d)
  {
    if InFlight(Next(w, s), d) {
      var id :| HeldBy(Next(w, s), id, d);
      if id != s.id {
        OthersKeep(w, s, id, d);
      }
    }
    if id :| id != s.id && HeldBy(w, id, d) {
      OthersKeep(w, s, id, d);
      assert HeldBy(Next(w, s), id, d);
    }
  }

  /** A step that moves a device from one place to another: opened, swapped, taken or closed. */
  lemma StepKeepsOwned(w: World, s: Step)
    requires Owned(w) && Enabled(w, s)
    ensures Owned(Next(w, s))
  {
    var v := Next(w, s);
    forall d
      ensures InSlot(v, d) || InFlight(v, d) || Closed(v, d) <==> d in v.made
      ensures !(InSlot(v, d) && InFlight(v, d)) && !(InSlot(v, d) && Closed(v, d)) && !(InFlight(v, d) && Closed(v, d))
    {
      FlightAfter(w, s, d);
      Place(w, s, d);
    }
    forall d, i, j | HeldBy(v, i, d) && HeldBy(v, j, d)
      ensures i == j
    {
      if i != j {
        Place(w, s, d);
        if i != s.id { OthersKeep(w, s, i, d); }
        if j != s.id { OthersKeep(w, s, j, d); }
      }
    }
    if v.closed != w.closed {
      ClosesWhatItHeld(w, s);
    }
  }

  lemma ClosesWhatItHeld(w: World, s: Step)
    requires Owned(w) && Enabled(w, s) && Next(w, s).closed != w.closed
    ensures var last := Next(w, s).closed[|w.closed|];
      Next(w, s).closed == w.closed + [last] && HeldBy(w, s.id, last) && last !in w.closed
  {
    var last := Next(w, s).closed[|w.closed|];
    assert HeldBy(w, s.id, last);
    assert InFlight(w, last);
    assert !Closed(w, last);
  }

  /** One device through one step, seen from the stepping call. */
  lemma Place(w: World, s: Step, d: Device)
    requires Owned(w) && Enabled(w, s)
    ensures HeldBy(w, s.id, d) ==> !(exists id :: id != s.id && HeldBy(w, id, d))
    ensures InFlight(w, d) <==> HeldBy(w, s.id, d) || exists id :: id != s.id && HeldBy(w, id, d)
    ensures HeldBy(Next(w, s), s.id, d) ==>
      HeldBy(w, s.id, d) || InSlot(w, d) || (s.Open? && d == s.dev && d !in w.made)
  {
  }

  /** Over every interleaving of any number of calls. */
  lemma {:induction false} EveryRunIsOwned(steps: seq<Step>)
    requires Run(steps).Some?
    ensures Owned(Run(steps).value)
  {
    hide Owned, Enabled, Next;
    if steps == [] {
      StartIsOwned();
    } else {
      EveryRunIsOwned(steps[..|steps| - 1]);
      StepKeepsOwned(Run(steps[..|steps| - 1]).value, steps[|steps| - 1]);
    }
  }

  lemma StartIsOwned()
    ensures Owned(START)
  {
  }

  /** When no call is in flight, the devices still open are exactly the slot's. */
  lemma QuietMeansSlot(steps: seq<Step>, d: Device)
    requires Run(steps).Some? && Run(steps).value.calls == map[]
    ensures var w := Run(steps).value; d in w.made && !Closed(w, d) <==> InSlot(w, d)
  {
    EveryRunIsOwned(steps);
  }

  // ---- What a call does to the slot ----

  predicate Exchanges(s: Step) {
    s.Swap? || s.Take?
  }

  /** The Open that a call which has not exchanged yet began with. */
  ghost predicate OpenedAt(steps: seq<Step>, from: nat, id: CallId) {
    && from < |steps| && steps[from].Open? && steps[from].id == id
    && forall i | from < i < |steps| && steps[i].id == id :: !steps[i].Open?
  }

  lemma {:induction false} OpenOf(steps: seq<Step>, id: CallId) returns (from: nat)
    requires Run(steps).Some? && id in Run(steps).value.calls
    requires var c := Run(steps).value.calls[id]; c.Configuring? || c.Ready? || c.Rejecting?
    ensures OpenedAt(steps, from, id) && steps[from].dev == Run(steps).value.calls[id].dev
    ensures MadeWith(Run(steps).value, steps[from].dev, steps[from].endpoint)
  {
    var n := |steps| - 1;
    if steps[n].Open? && steps[n].id == id {
      from := n;
    } else {
      from := OpenOf(steps[..n], id);
      assert forall i | from < i < n :: steps[i] == steps[..n][i];
      MadeStays(Run(steps[..n]).value, steps[n], steps[from].dev, steps[from].endpoint);
    }
  }

  ghost predicate MadeWith(w: World, dev: Device, endpoint: string) {
    dev in w.made && w.made[dev] == endpoint
  }

  lemma MadeStays(w: World, s: Step, dev: Device, endpoint: string)
    requires Enabled(w, s) && MadeWith(w, dev, endpoint)
    ensures MadeWith(Next(w, s), dev, endpoint)
  {
  }

  /** The slot is what the last Swap or Take of the run left there: nothing where there was none, or where it was a
      Take; and where it was a Swap, the device and the endpoint that its own Connect opened with. */
  lemma {:induction false} SlotIsLastExchange(steps: seq<Step>) returns (at: int, from: nat)
    requires Run(steps).Some?
    ensures -1 <= at < |steps| && forall i | at < i < |steps| :: !Exchanges(steps[i])
    ensures at >= 0 ==> Exchanges(steps[at])
    ensures at == -1 || steps[at].Take? ==> Run(steps).value.slot == EMPTY
    ensures at >= 0 && steps[at].Swap? ==>
      && OpenedAt(steps[..at], from, steps[at].id)
      && Run(steps).value.slot == Slot(Some(steps[from].dev), Some(steps[from].dev), steps[from].endpoint)
  {
    at, from := -1, 0;
    if steps != [] {
      var n := |steps| - 1;
      if !Exchanges(steps[n]) {
        at, from := SlotIsLastExchange(steps[..n]);
        assert forall i | at < i < n :: steps[i] == steps[..n][i];
        assert at >= 0 ==> steps[..n][..at] == steps[..at];
      } else {
        at := n;
        if steps[n].Swap? {
          from := OpenOf(steps[..n], steps[n].id);
        }
      }
    }
  }

  // ---- A Connect that fails ----

  /** The steps of every call but one. */
  function Others(steps: seq<Step>, id: CallId): seq<Step> {
    if steps == [] then []
    else
      var n := |steps| - 1;
      Others(steps[..n], id) + if steps[n].id == id then [] else [steps[n]]
  }

  /** The steps of one call. */
  function StepsOf(steps: seq<Step>, id: CallId): seq<Step> {
    if steps == [] then []
    else
      var n := |steps| - 1;
      StepsOf(steps[..n], id) + if steps[n].id == id then [steps[n]] else []
  }

  /** The run with the steps of one call deleted between two moments. */
  function Without(steps: seq<Step>, id: CallId, from: nat, until: nat): seq<Step>
    requires from <= until <= |steps|
  {
    steps[..from] + Others(steps[from..until], id) + steps[until..]
  }

  function NotOf(closed: seq<Device>, dev: Device): seq<Device> {
    if closed == [] then []
    else
      var n := |closed| - 1;
      NotOf(closed[..n], dev) + if closed[n] == dev then [] else [closed[n]]
  }

  lemma {:induction false} NotOfAbsent(closed: seq<Device>, dev: Device)
    requires dev !in closed
    ensures NotOf(closed, dev) == closed
  {
    if closed != [] {
      NotOfAbsent(closed[..|closed| - 1], dev);
    }
  }

  lemma NotOfSnoc(closed: seq<Device>, d: Device, dev: Device)
    ensures NotOf(closed + [d], dev) == NotOf(closed, dev) + if d == dev then [] else [d]
  {
    assert (closed + [d])[..|closed|] == closed;
  }

  /** The world `v` is `w` as it would be without one device, which only the calls in `gone` hold. */
  ghost predicate Twin(v: World, w: World, gone: set<CallId>, dev: Device) {
    && v == World(w.slot, w.calls - gone, w.made - {dev}, NotOf(w.closed, dev))
    && dev in w.made && !InSlot(w, dev)
    && (forall id | HeldBy(w, id, dev) :: id in gone)
  }

  lemma TwinEnabled(v: World, w: World, s: Step, gone: set<CallId>, dev: Device)
    requires Twin(v, w, gone, dev) && Enabled(w, s) && s.id !in gone
    ensures Enabled(v, s)
  {
    hide NotOf;
    assert !HeldBy(w, s.id, dev);
  }

  lemma TwinHolders(w: World, s: Step, gone: set<CallId>, dev: Device)
    requires dev in w.made && !InSlot(w, dev) && Enabled(w, s) && s.id !in gone
    requires forall id | HeldBy(w, id, dev) :: id in gone
    ensures dev in Next(w, s).made && !InSlot(Next(w, s), dev)
    ensures forall id | HeldBy(Next(w, s), id, dev) :: id in gone
  {
    assert !HeldBy(w, s.id, dev);
    forall id | HeldBy(Next(w, s), id, dev)
      ensures id in gone
    {
      if id != s.id {
        OthersKeep(w, s, id, dev);
      }
    }
  }

  /** What the step does to the calls and the closed devices, with the same call seen in both worlds. */
  lemma TwinCalls(v: World, w: World, s: Step, gone: set<CallId>)
    requires Enabled(w, s) && Enabled(v, s) && s.id !in gone
    requires v.slot == w.slot && v.calls == w.calls - gone
    ensures Next(v, s).calls == Next(w, s).calls - gone
  {
  }

  lemma TwinClosed(v: World, w: World, s: Step, dev: Device)
    requires Enabled(w, s) && Enabled(v, s) && !HeldBy(w, s.id, dev)
    requires s.id in w.calls ==> s.id in v.calls && v.calls[s.id] == w.calls[s.id]
    requires v.closed == NotOf(w.closed, dev)
    ensures Next(v, s).closed == NotOf(Next(w, s).closed, dev)
  {
    hide NotOf;
    if s.id in w.calls && Holds(w.calls[s.id]).Some? {
      NotOfSnoc(w.closed, Holds(w.calls[s.id]).value, dev);
    }
  }

  lemma TwinMade(v: World, w: World, s: Step, dev: Device)
    requires Enabled(w, s) && Enabled(v, s) && !HeldBy(w, s.id, dev) && dev in w.made
    requires s.id in w.calls ==> s.id in v.calls && v.calls[s.id] == w.calls[s.id]
    requires v.slot == w.slot && v.made == w.made - {dev}
    ensures Next(v, s).made == Next(w, s).made - {dev} && Next(v, s).slot == Next(w, s).slot
  {
  }

  /** A step of anybody else can be taken as well without it, and does the same. */
  lemma TwinStep(v: World, w: World, s: Step, gone: set<CallId>, dev: Device)
    requires Twin(v, w, gone, dev) && Enabled(w, s) && s.id !in gone
    ensures Enabled(v, s) && Twin(Next(v, s), Next(w, s), gone, dev)
  {
    TwinEnabled(v, w, s, gone, dev);
    hide Enabled, Next, NotOf, HeldBy, InSlot;
    TwinHolders(w, s, gone, dev);
    TwinCalls(v, w, s, gone);
    TwinClosed(v, w, s, dev);
    TwinMade(v, w, s, dev);
  }

  /** Between its Open and its end a failing call is being configured or rejected. */
  ghost predicate Failing(w: World, id: CallId, dev: Device) {
    id in w.calls ==> w.calls[id] == Configuring(dev) || w.calls[id] == Rejecting(dev)
  }

  /** Its own steps change nothing but where it is itself, and what is closed. */
  lemma OwnStep(v: World, w: World, s: Step, id: CallId, dev: Device)
    requires Twin(v, w, {id}, dev) && Failing(w, id, dev) && Enabled(w, s) && s.id == id
    requires s.Fail? || s.CloseRejected?
    ensures Twin(v, Next(w, s), {id}, dev) && Failing(Next(w, s), id, dev)
    ensures s.CloseRejected? ==> id !in Next(w, s).calls
  {
    var next := Next(w, s);
    NotOfSnoc(w.closed, dev, dev);
    assert next.calls - {id} == w.calls - {id};
  }

  lemma NewDevice(w: World, dev: Device)
    requires Owned(w) && dev !in w.made
    ensures !InSlot(w, dev) && dev !in w.closed && forall id :: !HeldBy(w, id, dev)
  {
    assert !InFlight(w, dev) && !Closed(w, dev);
  }

  lemma OpenHolder(w: World, s: Step)
    requires Enabled(w, s) && s.Open? && forall id :: !HeldBy(w, id, s.dev)
    ensures forall id | HeldBy(Next(w, s), id, s.dev) :: id == s.id
  {
    forall id | HeldBy(Next(w, s), id, s.dev)
      ensures id == s.id
    {
      if id != s.id {
        OthersKeep(w, s, id, s.dev);
      }
    }
  }

  lemma OpenStep(v: World, s: Step)
    requires Owned(v) && Enabled(v, s) && s.Open?
    ensures Twin(v, Next(v, s), {s.id}, s.dev) && Failing(Next(v, s), s.id, s.dev)
  {
    hide Owned, NotOf, HeldBy;
    NewDevice(v, s.dev);
    NotOfAbsent(v.closed, s.dev);
    OpenHolder(v, s);
    assert v.calls == Next(v, s).calls - {s.id} && v.made == Next(v, s).made - {s.dev};
  }

  /** From `from` to the end there is one call of that id, and it fails or has not got beyond failing. */
  ghost predicate FailsFrom(steps: seq<Step>, id: CallId, from: nat) {
    && from < |steps| && steps[from].Open? && steps[from].id == id
    && (forall i | from < i < |steps| && steps[i].id == id :: steps[i].Fail? || steps[i].CloseRejected?)
  }

  lemma RunSnoc(steps: seq<Step>, s: Step)
    ensures Run(steps + [s]) ==
      match Run(steps)
      case None => None
      case Some(w) => if Enabled(w, s) then Some(Next(w, s)) else None
  {
    assert (steps + [s])[..|steps|] == steps;
  }

  lemma OthersSnoc(steps: seq<Step>, from: nat, id: CallId)
    requires from < |steps|
    ensures var n := |steps| - 1;
      Others(steps[from..], id) == Others(steps[from..n], id) + if steps[n].id == id then [] else [steps[n]]
  {
    var n := |steps| - 1;
    assert steps[from..][..n - from] == steps[from..n];
  }

  lemma {:induction false} TwinRun(steps: seq<Step>, id: CallId, from: nat)
    requires Run(steps).Some? && FailsFrom(steps, id, from)
    ensures Run(steps[..from] + Others(steps[from..], id)).Some?
    ensures var v, w, dev := Run(steps[..from] + Others(steps[from..], id)).value, Run(steps).value, steps[from].dev;
      && Twin(v, w, {id}, dev) && Failing(w, id, dev)
      && (steps[|steps| - 1] == CloseRejected(id) ==> id !in w.calls)
    decreases |steps|
  {
    hide Enabled, Next, Twin, Owned, Failing, Others;
    var n, dev := |steps| - 1, steps[from].dev;
    var s, before := steps[n], steps[..n];
    OthersSnoc(steps, from, id);
    var w := Run(before).value;
    if from == n {
      assert Others([], id) == [] by { NoOthers(id); }
      assert steps[..from] + [] == before && steps[from..n] == [];
      EveryRunIsOwned(before);
      OpenStep(w, s);
    } else {
      assert before[..from] == steps[..from] && before[from..] == steps[from..n];
      TwinRun(before, id, from);
      var without := before[..from] + Others(before[from..], id);
      var v := Run(without).value;
      if s.id == id {
        OwnStep(v, w, s, id, dev);
        assert steps[..from] + (Others(steps[from..n], id) + []) == without;
      } else {
        TwinStep(v, w, s, {id}, dev);
        FailingStays(w, s, id, dev);
        assert steps[..from] + (Others(steps[from..n], id) + [s]) == without + [s];
        RunSnoc(without, s);
      }
    }
  }

  lemma NoOthers(id: CallId)
    ensures Others([], id) == []
  {
  }

  lemma FailingStays(w: World, s: Step, id: CallId, dev: Device)
    requires Failing(w, id, dev) && Enabled(w, s) && s.id != id
    ensures Failing(Next(w, s), id, dev)
  {
  }

  /** Once the call has ended, whatever comes after comes as well without it. */
  lemma {:induction false} TwinGoesOn(without: seq<Step>, steps: seq<Step>, until: nat, dev: Device)
    requires Run(steps).Some? && until <= |steps| && Run(steps[..until]).Some? && Run(without).Some?
    requires Twin(Run(without).value, Run(steps[..until]).value, {}, dev)
    ensures Run(without + steps[until..]).Some?
    ensures Twin(Run(without + steps[until..]).value, Run(steps).value, {}, dev)
    decreases |steps|
  {
    hide Enabled, Next, Twin;
    if until == |steps| {
      assert without + steps[until..] == without && steps[..until] == steps;
    } else {
      var n := |steps| - 1;
      assert steps[..n][..until] == steps[..until];
      TwinGoesOn(without, steps[..n], until, dev);
      assert without + steps[until..] == without + steps[..n][until..] + [steps[n]];
      RunSnoc(without + steps[..n][until..], steps[n]);
      TwinStep(Run(without + steps[..n][until..]).value, Run(steps[..n]).value, steps[n], {}, dev);
    }
  }

  lemma {:induction false} RunOfPrefix(steps: seq<Step>, n: nat)
    requires Run(steps).Some? && n <= |steps|
    ensures Run(steps[..n]).Some?
  {
    if n == |steps| {
      assert steps[..n] == steps;
    } else {
      assert steps[..|steps| - 1][..n] == steps[..n];
      RunOfPrefix(steps[..|steps| - 1], n);
    }
  }

  /** A call that is being configured or rejected was opened, and has at most been refused since. */
  lemma {:induction false} FindOpen(steps: seq<Step>, id: CallId, dev: Device) returns (from: nat)
    requires Run(steps).Some? && id in Run(steps).value.calls && Failing(Run(steps).value, id, dev)
    ensures from < |steps| && steps[from].Open? && steps[from].id == id && steps[from].dev == dev
    ensures forall i | from < i < |steps| && steps[i].id == id :: steps[i].Fail?
  {
    var n := |steps| - 1;
    var w := Run(steps[..n]).value;
    if steps[n].Open? && steps[n].id == id {
      from := n;
    } else {
      assert id in w.calls && Failing(w, id, dev) && (steps[n].id == id ==> steps[n].Fail?);
      from := FindOpen(steps[..n], id, dev);
      assert forall i | from < i < n :: steps[i] == steps[..n][i];
    }
  }

  lemma {:induction false} StepsOfConcat(a: seq<Step>, b: seq<Step>, id: CallId)
    ensures StepsOf(a + b, id) == StepsOf(a, id) + StepsOf(b, id)
  {
    if b == [] {
      assert a + b == a;
    } else {
      StepsOfConcat(a, b[..|b| - 1], id);
      assert (a + b)[..|a + b| - 1] == a + b[..|b| - 1];
    }
  }

  lemma {:induction false} OthersKeepTheirs(steps: seq<Step>, id: CallId, other: CallId)
    requires other != id
    ensures StepsOf(Others(steps, id), other) == StepsOf(steps, other)
  {
    if steps != [] {
      var n := |steps| - 1;
      OthersKeepTheirs(steps[..n], id, other);
      StepsOfConcat(Others(steps[..n], id), if steps[n].id == id then [] else [steps[n]], other);
      assert [steps[n]][..0] == [];
    }
  }

  lemma WithoutKeepsTheirs(steps: seq<Step>, id: CallId, from: nat, until: nat, other: CallId)
    requires from <= until <= |steps| && other != id
    ensures StepsOf(Without(steps, id, from, until), other) == StepsOf(steps, other)
  {
    hide Others, StepsOf;
    var a, b, c := steps[..from], steps[from..until], steps[until..];
    assert steps == a + b + c;
    StepsOfConcat(a + b, c, other);
    StepsOfConcat(a, b, other);
    StepsOfConcat(a + Others(b, id), c, other);
    StepsOfConcat(a, Others(b, id), other);
    OthersKeepTheirs(b, id, other);
  }

  /** The end of a Connect that failed: its device is closed, or the run ends with it still to be. */
  ghost predicate FailedAt(steps: seq<Step>, id: CallId, until: nat)
    requires Run(steps).Some?
  {
    && 0 < until <= |steps|
    && (steps[until - 1] == CloseRejected(id)
        || (until == |steps| && id in Run(steps).value.calls && Run(steps).value.calls[id].Rejecting?))
  }

  lemma FailedFrom(steps: seq<Step>, id: CallId, until: nat) returns (from: nat)
    requires Run(steps).Some? && FailedAt(steps, id, until)
    ensures from < until && FailsFrom(steps[..until], id, from)
  {
    hide Run;
    RunOfPrefix(steps, until);
    if steps[until - 1] == CloseRejected(id) {
      from := FindRejected(steps[..until], id);
    } else {
      assert steps[..until] == steps;
      from := FindOpen(steps, id, Run(steps).value.calls[id].dev);
    }
  }

  lemma FindRejected(steps: seq<Step>, id: CallId) returns (from: nat)
    requires Run(steps).Some? && steps != [] && steps[|steps| - 1] == CloseRejected(id)
    ensures FailsFrom(steps, id, from)
  {
    var n := |steps| - 1;
    from := FindOpen(steps[..n], id, Run(steps[..n]).value.calls[id].dev);
    assert forall i | from < i < n :: steps[i] == steps[..n][i];
  }

  /** A Connect that fails leaves the slot alone: deleted from any run, it leaves a run in which everybody else
      takes the same steps, with the same slot, the same calls in flight, and the same devices made and closed
      but for its own. */
  lemma FailedConnectLeavesSlot(steps: seq<Step>, id: CallId, until: nat) returns (from: nat)
    requires Run(steps).Some? && FailedAt(steps, id, until)
    ensures from < until && steps[from].Open? && steps[from].id == id
    ensures Run(Without(steps, id, from, until)).Some?
    ensures var v, w, dev := Run(Without(steps, id, from, until)).value, Run(steps).value, steps[from].dev;
      && v.slot == w.slot && v.made == w.made - {dev} && v.closed == NotOf(w.closed, dev)
      && v.calls == if until < |steps| then w.calls else w.calls - {id}
    ensures forall other | other != id :: StepsOf(Without(steps, id, from, until), other) == StepsOf(steps, other)
  {
    hide Run, Others, StepsOf, NotOf, HeldBy;
    RunOfPrefix(steps, until);
    from := FailedFrom(steps, id, until);
    var first := steps[..until];
    TwinRun(first, id, from);
    assert first[..from] == steps[..from] && first[from..] == steps[from..until];
    var without := steps[..from] + Others(steps[from..until], id);
    if until == |steps| {
      assert first == steps && without + steps[until..] == without;
    } else {
      assert steps[until - 1] == first[|first| - 1];
      GoneForGood(Run(without).value, Run(first).value, id, steps[from].dev);
      TwinGoesOn(without, steps, until, steps[from].dev);
      var w := Run(steps).value;
      assert w.calls - {} == w.calls;
    }
    forall other | other != id
      ensures StepsOf(Without(steps, id, from, until), other) == StepsOf(steps, other)
    {
      WithoutKeepsTheirs(steps, id, from, until, other);
    }
  }

  lemma GoneForGood(v: World, w: World, id: CallId, dev: Device)
    requires Twin(v, w, {id}, dev) && id !in w.calls
    ensures Twin(v, w, {}, dev)
  {
    assert w.calls - {id} == w.calls - {};
  }

  // ---- As the program runs it ----

  class Session {
    var device: Option<Device>
    var net: Option<Device>
    var endpoint: string
    /** The calls to Close, in order. */
    var closed: seq<Device>

    ghost function View(): Slot
      reads this
    {
      Slot(device, net, endpoint)
    }

    constructor ()
      ensures View() == EMPTY && closed == []
    {
      device, net, endpoint, closed := None, None, "", [];
    }

    /** The lock section of Connect. */
    method Exchange(dev: Device, to: string) returns (previous: Option<Device>)
      modifies this
      ensures View() == Slot(Some(dev), Some(dev), to) && previous == old(device) && closed == old(closed)
    {
      previous := device;
      device := Some(dev);
      net := Some(dev);
      endpoint := to;
    }

    /** Connect undisturbed: `to` is None when the configuration cannot be read, and `dev` is the device made
        for it. */
    method Connect(to: Option<string>, made: bool, dev: Device, configured: bool, raised: bool) returns (ok: bool)
      modifies this
      ensures ok <==> to.Some? && made && configured && raised
      ensures !ok ==> View() == old(View())
      ensures !ok ==> closed == old(closed) + if to.Some? && made then [dev] else []
      ensures ok ==> View() == Slot(Some(dev), Some(dev), to.value)
      ensures ok ==> closed == Close(old(closed), old(device))
    {
      if to.None? || !made {
        return false;
      }
      if !configured {
        closed := closed + [dev];
        return false;
      }
      if !raised {
        closed := closed + [dev];
        return false;
      }
      var previous := Exchange(dev, to.value);
      if previous.Some? {
        closed := closed + [previous.value];
      }
      return true;
    }

    method Disconnect()
      modifies this
      ensures View() == EMPTY && closed == Close(old(closed), old(device))
    {
      var dev := device;
      device := None;
      net := None;
      endpoint := "";
      if dev.Some? {
        closed := closed + [dev.value];
      }
    }

    method Up() returns (up: bool, to: string)
      ensures up == device.Some? && to == endpoint
    {
      return device.Some?, endpoint;
    }
  }

  /** What Up reports of any reachable slot: up exactly when a device is there, and then the endpoint of the
      Connect that brought that very device. */
  lemma UpTellsTheTruth(steps: seq<Step>)
    requires Run(steps).Some?
    ensures var w := Run(steps).value;
      match w.slot.device
      case None => w.slot.endpoint == ""
      case Some(d) => d in w.made && w.slot.endpoint == w.made[d] && !Closed(w, d)
  {
    EveryRunIsOwned(steps);
    var w := Run(steps).value;
    if w.slot.device.Some? {
      assert InSlot(w, w.slot.device.value);
    }
  }

  /** Connect undisturbed is its steps one after the other. */
  lemma ConnectIsItsSteps(w: World, id: CallId, dev: Device, endpoint: string)
    requires id !in w.calls && dev !in w.made
    ensures var one := Next(w, Open(id, dev, endpoint));
      var two := Next(one, Configured(id));
      var three := Next(two, Swap(id));
      var four := Next(three, ClosePrevious(id));
      four == World(Slot(Some(dev), Some(dev), endpoint), w.calls, w.made[dev := endpoint],
        Close(w.closed, w.slot.device))
  {
    var one := Next(w, Open(id, dev, endpoint));
    var two := Next(one, Configured(id));
    var three := Next(two, Swap(id));
    assert three.calls - {id} == w.calls;
  }

  /** Connect that fails is its steps, and leaves nothing but a closed device. */
  lemma FailedConnectIsItsSteps(w: World, id: CallId, dev: Device, endpoint: string)
    requires id !in w.calls && dev !in w.made
    ensures var one := Next(w, Open(id, dev, endpoint));
      var two := Next(one, Fail(id));
      && Enabled(two, CloseRejected(id)) && two.closed == w.closed
      && Next(two, CloseRejected(id)) == World(w.slot, w.calls, w.made[dev := endpoint], w.closed + [dev])
  {
    var two := Next(Next(w, Open(id, dev, endpoint)), Fail(id));
    assert two.calls - {id} == w.calls;
  }

  /** Disconnect is its two: what it takes is closed only after it let go of the lock. */
  lemma DisconnectIsItsSteps(w: World, id: CallId)
    requires id !in w.calls
    ensures var one := Next(w, Take(id));
      && one.slot == EMPTY && one.closed == w.closed && Enabled(one, CloseTaken(id))
      && Next(one, CloseTaken(id)) == World(EMPTY, w.calls, w.made, Close(w.closed, w.slot.device))
  {
    assert Next(w, Take(id)).calls - {id} == w.calls;
  }

  /** Calls do overlap: a Connect that fails after another has brought its tunnel up leaves that one where it is. */
  lemma OverlapHappens()
    ensures var steps := [Open(1, 10, "a"), Open(2, 20, "b"), Configured(2), Swap(2), Fail(1), ClosePrevious(2),
                          CloseRejected(1)];
      Run(steps) == Some(World(Slot(Some(20), Some(20), "b"), map[], map[10 := "a", 20 := "b"], [10]))
  {
    hide Run, Next, Enabled;
    RunEmpty();
    var made := map[10 := "a", 20 := "b"];
    var mine := Slot(Some(20), Some(20), "b");
    TwoOpens();
    OtherSteps();
    var w1 := World(EMPTY, map[1 := Configuring(10)], map[10 := "a"], []);
    var s1 := StepTaken([], START, Open(1, 10, "a"), w1);
    var w2 := World(EMPTY, map[1 := Configuring(10), 2 := Configuring(20)], made, []);
    var s2 := StepTaken(s1, w1, Open(2, 20, "b"), w2);
    var w3 := w2.(calls := map[1 := Configuring(10), 2 := Ready(20)]);
    var s3 := StepTaken(s2, w2, Configured(2), w3);
    var w4 := World(mine, map[1 := Configuring(10), 2 := Replacing(None)], made, []);
    var s4 := StepTaken(s3, w3, Swap(2), w4);
    var w5 := w4.(calls := map[1 := Rejecting(10), 2 := Replacing(None)]);
    var s5 := StepTaken(s4, w4, Fail(1), w5);
    var w6 := w5.(calls := map[1 := Rejecting(10)]);
    var s6 := StepTaken(s5, w5, ClosePrevious(2), w6);
    var s7 := StepTaken(s6, w6, CloseRejected(1), World(mine, map[], made, [10]));
    assert s7 == [Open(1, 10, "a"), Open(2, 20, "b"), Configured(2), Swap(2), Fail(1), ClosePrevious(2),
                  CloseRejected(1)];
  }

  lemma StepTaken(steps: seq<Step>, w: World, s: Step, v: World) returns (more: seq<Step>)
    requires Run(steps) == Some(w) && Enabled(w, s) && Next(w, s) == v
    ensures more == steps + [s] && Run(more) == Some(v)
  {
    more := steps + [s];
    RunSnoc(steps, s);
  }

  lemma TwoOpens()
    ensures Enabled(START, Open(1, 10, "a"))
    ensures var w := World(EMPTY, map[1 := Configuring(10)], map[10 := "a"], []);
      && Next(START, Open(1, 10, "a")) == w && Enabled(w, Open(2, 20, "b"))
      && Next(w, Open(2, 20, "b"))
         == World(EMPTY, map[1 := Configuring(10), 2 := Configuring(20)], map[10 := "a", 20 := "b"], [])
  {
  }

  lemma OtherSteps()
    ensures var made, mine := map[10 := "a", 20 := "b"], Slot(Some(20), Some(20), "b");
      var w2 := World(EMPTY, map[1 := Configuring(10), 2 := Configuring(20)], made, []);
      var w3 := w2.(calls := map[1 := Configuring(10), 2 := Ready(20)]);
      var w4 := World(mine, map[1 := Configuring(10), 2 := Replacing(None)], made, []);
      var w5 := w4.(calls := map[1 := Rejecting(10), 2 := Replacing(None)]);
      var w6 := w5.(calls := map[1 := Rejecting(10)]);
      && Enabled(w2, Configured(2)) && Next(w2, Configured(2)) == w3
      && Enabled(w3, Swap(2)) && Next(w3, Swap(2)) == w4
      && Enabled(w4, Fail(1)) && Next(w4, Fail(1)) == w5
      && Enabled(w5, ClosePrevious(2)) && Next(w5, ClosePrevious(2)) == w6
      && Enabled(w6, CloseRejected(1)) && Next(w6, CloseRejected(1)) == World(mine, map[], made, [10])
  {
    assert map[1 := Rejecting(10), 2 := Replacing(None)] - {2} == map[1 := Rejecting(10)];
    assert map[1 := Rejecting(10)] - {1} == map[];
  }

  lemma RunEmpty()
    ensures Run([]) == Some(START)
  {
  }
}
