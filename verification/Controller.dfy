/** The controller: one takeover at a time, brought up and unwound under one lock. Each method below is one
    hold of that lock, so a run of the service is a sequence of them. */
module Controller {
  import opened Wrappers
  import opened Routes
  import opened Network
  import opened Takeover

  const TUN: string := "caelo0"

  datatype Status = Status(up: bool, iface: string, endpoint: string, protocol: string, obfuscated: bool, since: int)

  const DOWN: Status := Status(false, "", "", "", false, 0)

  /** A configuration that was read, with its endpoint's host already an address. */
  datatype Parsed = Parsed(endpointText: string, endpoint: Addr4, address: string, mtu: int, dns: seq<Server>,
                           obfuscation: nat)

  /** One Start and how the environment answers it: whether the configuration reads and its endpoint
      resolves, the routes can be listed, the interface be made and named, the device be configured and
      raised; what befalls each command of Apply; and whether the server answers in time. */
  datatype Attempt = Attempt(
    config: Option<Parsed>,
    listed: bool,
    created: bool,
    named: bool,
    configured: bool,
    raised: bool,
    faults: Faults,
    answered: bool,
    now: int
  )

  /** The host and the controller's fields. */
  datatype World = World(host: Host, held: bool, state: Option<State>, network: Option<Config>, status: Status)

  function NetworkOf(p: Parsed): Config {
    Config(TUN, p.address, p.mtu, p.endpoint, if p.dns == [] then [Server("1.1.1.1", true)] else p.dns)
  }

  function StatusOf(p: Parsed, now: int): Status {
    Status(true, TUN, p.endpointText, if p.obfuscation == 0 then "WireGuard" else "AmneziaWG", p.obfuscation > 0, now)
  }

  function StopStep(w: World): World {
    if !w.held || w.state.None? || w.network.None? then w
    else World(Unwound(w.host, w.state.value, w.network.value), false, None, w.network, DOWN)
  }

  /** Whether Start gets as far as Apply. */
  predicate Reaches(h: Host, a: Attempt) {
    && a.config.Some? && a.listed && Snapshot(h).Some?
    && a.created && CreateTun(h, TUN).Some? && a.named && a.configured && a.raised
  }

  function Applied(h: Host, a: Attempt): Ran
    requires Reaches(h, a)
  {
    RunPlan(CreateTun(h, TUN).value, ApplyPlan(Snapshot(h).value, NetworkOf(a.config.value)), a.faults, 0)
  }

  function AppliedHost(h: Host, a: Attempt): Host
    requires Reaches(h, a)
  {
    Final(CreateTun(h, TUN).value, Applied(h, a).trace)
  }

  /** Start with nothing up. */
  function Bring(w: World, a: Attempt): World {
    if Reaches(w.host, a) then
      var st, cfg := Snapshot(w.host).value, NetworkOf(a.config.value);
      if Applied(w.host, a).ok && a.answered
      then World(AppliedHost(w.host, a), true, Some(st), Some(cfg), StatusOf(a.config.value, a.now))
      else w.(host := Unwound(AppliedHost(w.host, a), st, cfg))
    else if a.config.Some? && a.listed && Snapshot(w.host).Some? && a.created && CreateTun(w.host, TUN).Some? then
      w.(host := CloseTun(CreateTun(w.host, TUN).value, TUN))
    else w
  }

  function StartStep(w: World, a: Attempt): World {
    Bring(StopStep(w), a)
  }

  // ---- As the program runs it ----

  class Controller {
    const machine: Machine
    var device: bool
    var state: Option<State>
    var network: Option<Config>
    var status: Status

    ghost predicate Valid()
      reads this
    {
      (device ==> state.Some? && network.Some?) && (status.up <==> device)
    }

    ghost function View(): World
      reads this, machine
    {
      World(machine.host, device, state, network, status)
    }

    constructor (m: Machine)
      ensures machine == m && Valid()
      ensures View() == World(m.host, false, None, None, DOWN)
    {
      machine := m;
      device, state, network, status := false, None, None, DOWN;
    }

    method Stop() returns (problems: seq<string>)
      requires Valid()
      modifies this, machine
      ensures Valid() && View() == StopStep(old(View()))
      ensures |problems| == if old(device)
        then RunPlan(old(machine.host), RestorePlan(old(state).value, old(network).value), NoFaults(), 0).problems
        else 0
    {
      problems := StopLocked();
    }

    method StopLocked() returns (problems: seq<string>)
      requires Valid()
      modifies this, machine
      ensures Valid() && View() == StopStep(old(View()))
      ensures |problems| == if old(device)
        then RunPlan(old(machine.host), RestorePlan(old(state).value, old(network).value), NoFaults(), 0).problems
        else 0
    {
      hide RunPlan, RestorePlan;
      if !device {
        return [];
      }
      problems := machine.Restore(state.value, network.value);
      machine.host := CloseTun(machine.host, network.value.tun);
      device := false;
      state := None;
      status := DOWN;
    }

    method Start(a: Attempt) returns (answer: Option<Status>)
      requires Valid()
      modifies this, machine
      ensures Valid() && View() == StartStep(old(View()), a)
      ensures answer == if device then Some(status) else None
    {
      hide RunPlan, RestorePlan, ApplyPlan, Snapshot, CloseTun;
      if device {
        var _ := StopLocked();
      }
      ghost var w := View();
      if a.config.None? {
        return None;
      }
      var cfg := NetworkOf(a.config.value);
      var snapshot := if a.listed then Snapshot(machine.host) else None;
      if snapshot.None? {
        return None;
      }
      var tun := CreateTun(machine.host, TUN);
      if !a.created || tun.None? {
        return None;
      }
      machine.host := tun.value;
      if !a.named || !a.configured || !a.raised {
        machine.host := CloseTun(machine.host, TUN);
        return None;
      }
      ghost var start := machine.host;
      var applied := machine.Apply(snapshot.value, cfg, a.faults);
      assert machine.host == AppliedHost(w.host, a) && applied == Applied(w.host, a).ok;
      if !applied || !a.answered {
        var _ := machine.Restore(snapshot.value, cfg);
        machine.host := CloseTun(machine.host, TUN);
        return None;
      }
      device := true;
      state := snapshot;
      network := Some(cfg);
      status := StatusOf(a.config.value, a.now);
      return Some(status);
    }
  }

  // ---- Over every run ----

  datatype Op = Start(attempt: Attempt) | Stop

  function Do(w: World, op: Op): World {
    match op
    case Start(a) => StartStep(w, a)
    case Stop => StopStep(w)
  }

  function Serve(base: Host, ops: seq<Op>): World {
    if ops == [] then World(base, false, None, None, DOWN)
    else Do(Serve(base, ops[..|ops| - 1]), ops[|ops| - 1])
  }

  /** The machine has nothing of its own that Restore would take for the tunnel's. */
  ghost predicate Clear(base: Host, p: Parsed) {
    base.unreachable6 !! V6_HALVES && Hops(base.routes, Of(p.endpoint, 32)) == []
  }

  /** Down and as it was, or up: with the takeover of some Start complete and its undoing at hand. */
  ghost predicate Sound(base: Host, w: World) {
    if !w.held then w.host == base && w.status == Status(false, "", "", "", false, 0)
    else
      && w.state.Some? && w.network.Some? && w.status.up
      && Snapped(base, w.state.value, w.network.value) && w.network.value.tun == TUN
      && Mid(base, w.state.value, w.network.value, EVERYTHING, w.host)
      && Answering(w.state.value, w.network.value, w.host) && Raised(w.network.value, w.host)
      && base.unreachable6 !! V6_HALVES
  }

  lemma StopIsSound(base: Host, w: World)
    requires Sound(base, w)
    ensures Sound(base, StopStep(w)) && !StopStep(w).held
  {
    hide Mid, Unwound;
    if w.held {
      var st, cfg := w.state.value, w.network.value;
      assert Between(base, st, cfg, w.host);
      MidPinned(base, st, cfg, EVERYTHING, w.host);
      UnwoundIsBaseline(base, st, cfg, w.host);
    }
  }

  lemma CreatedAndClosed(base: Host)
    requires Baseline(base, TUN) && CreateTun(base, TUN).Some?
    ensures CloseTun(CreateTun(base, TUN).value, TUN) == base
  {
    var h := CreateTun(base, TUN).value;
    PurgeUnused(base.routes, TUN);
    assert h.ifaces - {TUN} == base.ifaces;
    assert h.linkDns - {TUN} == base.linkDns;
  }

  /** One Start from a machine at its baseline: it is at its baseline again afterwards, unless the tunnel is
      up, exactly when Start never reached Apply, or the machine had no IPv6 half of its own and either
      Apply got as far as the pin or the machine had no route of its own to the endpoint. */
  lemma FailedStartRestores(base: Host, w: World, a: Attempt)
    requires Baseline(base, TUN) && !w.held && w.host == base && !Bring(w, a).held
    ensures Bring(w, a).host == base <==>
      !Reaches(base, a) ||
      (base.unreachable6 !! V6_HALVES &&
       (Pinned(base, NetworkOf(a.config.value), AppliedHost(base, a))
         || Hops(base.routes, Of(a.config.value.endpoint, 32)) == []))
  {
    hide RunPlan, ApplyPlan, Unwound, Mid, Snapshot, CreateTun;
    if Reaches(base, a) {
      var st, cfg := Snapshot(base).value, NetworkOf(a.config.value);
      ApplyBetween(base, st, cfg, a.faults);
      UnwoundIsBaseline(base, st, cfg, AppliedHost(base, a));
    } else if CreateTun(base, TUN).Some? {
      CreatedAndClosed(base);
    }
  }

  /** Another attempt at the same configuration reaches Apply on the same machine whenever one does. */
  function FailingFirst(a: Attempt): Attempt {
    a.(faults := (n: nat) => FailsBefore)
  }

  lemma ReachesToo(h: Host, a: Attempt)
    requires Reaches(h, a)
    ensures Reaches(h, FailingFirst(a)) && FailingFirst(a).config == a.config
    ensures FailingFirst(a).faults(0) == FailsBefore
  {
    hide Snapshot, CreateTun;
  }

  /** What can be told beforehand: where a configuration gets as far as Apply at all, every Start of it that does
      not bring the tunnel up leaves the machine as it was if and only if the machine has nothing of its own that
      Restore would take for the tunnel's. */
  lemma EveryFailedStartRestores(base: Host, w: World, p: Parsed, some: Attempt)
    requires Baseline(base, TUN) && !w.held && w.host == base
    requires some.config == Some(p) && Reaches(base, some)
    ensures (forall a: Attempt | a.config == Some(p) && !Bring(w, a).held :: Bring(w, a).host == base)
      <==> Clear(base, p)
  {
    hide Bring, Reaches, AppliedHost, Baseline, FailingFirst;
    if Clear(base, p) {
      forall a: Attempt | a.config == Some(p) && !Bring(w, a).held
        ensures Bring(w, a).host == base
      {
        FailedStartRestores(base, w, a);
      }
    } else {
      ReachesToo(base, some);
      FirstCommandFails(base, w, FailingFirst(some));
    }
  }

  /** A Start whose first command fails is unwound from a machine that Apply has not touched. */
  lemma FirstCommandFails(base: Host, w: World, a: Attempt)
    requires Baseline(base, TUN) && !w.held && w.host == base && Reaches(base, a) && a.faults(0) == FailsBefore
    ensures !Bring(w, a).held
    ensures Bring(w, a).host == base <==> Clear(base, a.config.value)
  {
    hide Unwound, Mid, Snapshot;
    var st, cfg := Snapshot(base).value, NetworkOf(a.config.value);
    assert ApplyPlan(st, cfg)[0] == Act(AddAddress(TUN, cfg.address + "/32"), Fatal);
    assert Applied(base, a) == Ran([CreateTun(base, TUN).value], false, 0);
    FailedStartRestores(base, w, a);
  }

  lemma BringIsSound(base: Host, w: World, a: Attempt)
    requires Baseline(base, TUN) && Sound(base, w) && !w.held
    requires a.config.Some? ==> Clear(base, a.config.value)
    ensures Sound(base, Bring(w, a))
  {
    hide RunPlan, ApplyPlan, LinkPlan, Unwound, Mid, Snapshot, Answering, Raised;
    if Bring(w, a).held {
      var st, cfg := Snapshot(base).value, NetworkOf(a.config.value);
      ApplyBetween(base, st, cfg, a.faults);
      ApplyAnswers(base, st, cfg, a.faults);
      ApplyRaises(base, st, cfg, a.faults);
    } else {
      FailedStartRestores(base, w, a);
    }
  }

  /** Over every sequence of Start and Stop, whatever fails while the tunnels go up: whenever no tunnel is
      held the machine is exactly what it was, and whenever one is, its takeover is complete. */
  lemma {:induction false} EveryRunRestores(base: Host, ops: seq<Op>)
    requires Baseline(base, TUN)
    requires forall i | 0 <= i < |ops| && ops[i].Start? && ops[i].attempt.config.Some? ::
      Clear(base, ops[i].attempt.config.value)
    ensures Sound(base, Serve(base, ops))
    ensures ops != [] && ops[|ops| - 1].Stop? ==> Serve(base, ops).host == base
  {
    hide Bring, StopStep, Clear, Baseline;
    if ops != [] {
      var n := |ops| - 1;
      var w := Serve(base, ops[..n]);
      EveryRunRestores(base, ops[..n]);
      StopIsSound(base, w);
      if ops[n].Start? {
        BringIsSound(base, StopStep(w), ops[n].attempt);
      }
    }
  }

  /** The machine serves this configuration and no other: the interface has its address and its MTU; every address
      goes into the tunnel but the endpoint, and those the machine had a route of two bits or more for; and its
      servers answer names, in order, or 1.1.1.1 alone where it names none. */
  ghost predicate Serves(base: Host, p: Parsed, h: Host) {
    && "caelo0" in h.ifaces && p.address + "/32" in h.ifaces["caelo0"].addresses && h.ifaces["caelo0"].up
    && (p.mtu > 0 ==> h.ifaces["caelo0"].mtu == p.mtu)
    && (var defaults := Hops(base.routes, Prefix(0, 0));
        defaults != [] && Resolve(h.routes, p.endpoint) == Some(Hop(defaults[0].via, defaults[0].dev, 0)))
    && (forall a: Addr4 | a != p.endpoint ::
          Resolve(h.routes, a) ==
            if Longest(base.routes, a, 32) >= 2 then Resolve(base.routes, a) else Some(Hop("", "caelo0", 0)))
    && (var dns := if p.dns == [] then [Server("1.1.1.1", true)] else p.dns;
        if base.resolvedAnswers
        then "caelo0" in h.linkDns && h.linkDns["caelo0"].claimsAll && Lists(h.linkDns["caelo0"].servers, dns)
        else h.resolv.File? && WrittenOut(h.resolv.contents, dns))
  }

  lemma BringHeld(w: World, a: Attempt)
    requires !w.held && Bring(w, a).held
    ensures a.config.Some? && Snapshot(w.host).Some?
    ensures Bring(w, a).state == Snapshot(w.host) && Bring(w, a).network == Some(NetworkOf(a.config.value))
    ensures Bring(w, a).status == StatusOf(a.config.value, a.now)
  {
    hide Snapshot, RunPlan, ApplyPlan, CreateTun, NetworkOf, StatusOf;
  }

  /** What the network configuration of a Start has of the configuration it was given. */
  lemma NetworkIs(p: Parsed)
    ensures var cfg := NetworkOf(p);
      && cfg.tun == "caelo0" && cfg.address == p.address && cfg.mtu == p.mtu && cfg.endpoint == p.endpoint
      && cfg.dns == if p.dns == [] then [Server("1.1.1.1", true)] else p.dns
  {
  }

  /** Whenever a tunnel is held after a run, the machine serves the configuration of the last Start, and the status
      tells of that one, whatever was up before. */
  lemma HeldServesLastStart(base: Host, ops: seq<Op>)
    requires Baseline(base, TUN)
    requires forall i | 0 <= i < |ops| && ops[i].Start? && ops[i].attempt.config.Some? ::
      Clear(base, ops[i].attempt.config.value)
    requires Serve(base, ops).held
    ensures ops != [] && ops[|ops| - 1].Start? && ops[|ops| - 1].attempt.config.Some?
    ensures var w, a := Serve(base, ops), ops[|ops| - 1].attempt;
      var p := a.config.value;
      && Serves(base, p, w.host)
      && w.status == Status(true, "caelo0", p.endpointText, if p.obfuscation == 0 then "WireGuard" else "AmneziaWG",
                            p.obfuscation > 0, a.now)
  {
    hide Bring, StopStep, Clear, Baseline, Sound, NetworkOf, Serves;
    var n := |ops| - 1;
    var before := Serve(base, ops[..n]);
    EveryRunRestores(base, ops[..n]);
    StopIsSound(base, before);
    EveryRunRestores(base, ops);
    var a := ops[n].attempt;
    BringHeld(StopStep(before), a);
    SoundIsBase(base, StopStep(before));
    HeldServes(base, Serve(base, ops), a.config.value);
  }

  lemma SoundIsBase(base: Host, w: World)
    requires Sound(base, w) && !w.held
    ensures w.host == base
  {
  }

  lemma HeldServes(base: Host, w: World, p: Parsed)
    requires Sound(base, w) && w.held && w.network == Some(NetworkOf(p)) && w.state == Snapshot(base)
    ensures Serves(base, p, w.host)
  {
    hide Mid, Baseline, NetworkOf, Resolve, Longest, Lists, WrittenOut;
    NetworkIs(p);
    var st, cfg := w.state.value, w.network.value;
    forall a: Addr4
      ensures Resolve(w.host.routes, a) ==
        if a == p.endpoint then Some(Hop(st.gateway, st.dev, 0))
        else if Longest(base.routes, a, 32) >= 2 then Resolve(base.routes, a) else Some(Hop("", "caelo0", 0))
    {
      EverythingElseGoesIn(base, st, cfg, w.host, a);
    }
  }

  /** What a Start needs for its tunnel to come up, when the environment lets every command work: its other steps go
      well, and the machine is on a network, by an interface that is up, with no route of metric zero where the
      takeover's own three go, and, where resolved does not answer, with addresses for servers. */
  ghost predicate ComesUp(base: Host, a: Attempt) {
    && a.config.Some? && a.listed && a.created && a.named && a.configured && a.raised && a.answered
    && (var defaults := Hops(base.routes, Prefix(0, 0));
        && defaults != [] && defaults[0].via != "" && defaults[0].dev in base.ifaces && defaults[0].dev != ""
        && base.ifaces[defaults[0].dev].up)
    && Open(base.routes, Of(a.config.value.endpoint, 32))
    && Open(base.routes, Prefix(0, 1)) && Open(base.routes, Prefix(1, 1))
    && (!base.resolvedAnswers ==>
          forall i | 0 <= i < |a.config.value.dns| :: a.config.value.dns[i].isAddress)
  }

  lemma BringSucceedsExactly(base: Host, w: World, a: Attempt)
    requires Baseline(base, TUN) && !w.held && w.host == base
    ensures Bring(w, a.(faults := NoFaults())).held <==> ComesUp(base, a)
  {
    hide RunPlan, ApplyPlan, Unwound, NoFaults;
    var b := a.(faults := NoFaults());
    if a.config.Some? {
      NetworkIs(a.config.value);
    }
    if Reaches(base, b) {
      ApplySucceedsExactly(base, Snapshot(base).value, NetworkOf(a.config.value));
    }
  }

  /** After any run, whatever is up by then, such a Start brings its tunnel up exactly then. */
  lemma StartSucceedsExactly(base: Host, ops: seq<Op>, a: Attempt)
    requires Baseline(base, TUN)
    requires forall i | 0 <= i < |ops| && ops[i].Start? && ops[i].attempt.config.Some? ::
      Clear(base, ops[i].attempt.config.value)
    ensures Serve(base, ops + [Start(a.(faults := NoFaults()))]).held <==> ComesUp(base, a)
  {
    hide Bring, StopStep, Clear, Baseline, Sound, ComesUp, NoFaults;
    var w := Serve(base, ops);
    EveryRunRestores(base, ops);
    StopIsSound(base, w);
    SoundIsBase(base, StopStep(w));
    BringSucceedsExactly(base, StopStep(w), a);
    assert (ops + [Start(a.(faults := NoFaults()))])[..|ops|] == ops;
  }

  /** Stopping a tunnel that is up reports no problem. */
  lemma StopReportsNothing(base: Host, w: World)
    requires Sound(base, w) && w.held
    ensures RunPlan(w.host, RestorePlan(w.state.value, w.network.value), NoFaults(), 0).problems == 0
  {
    hide Mid, RunPlan, RestorePlan;
    RestoreUndoes(base, w.state.value, w.network.value, EVERYTHING, w.host);
  }

  /** The condition on the endpoint is needed: where the machine had a route of its own to it, a Start
      whose very first command fails takes that route away. */
  lemma ForeignRouteIsLost(base: Host, w: World, a: Attempt)
    requires Baseline(base, TUN) && !w.held && w.host == base && Reaches(base, a)
    requires Hops(base.routes, Of(a.config.value.endpoint, 32)) != []
    requires a.faults(0) == FailsBefore
    ensures !Bring(w, a).held && Bring(w, a).host != base
  {
    hide Bring, Reaches, Baseline;
    FirstCommandFails(base, w, a);
  }

  // ---- A machine with something of its own ----

  const ENDPOINT: Addr4 := 0xcb00_7107

  /** A machine on a network, with these routes besides its default one. */
  function SomeHost(own: Table, unreachable6: set<string>): Host {
    Host(own[Prefix(0, 0) := [Hop("192.168.1.1", "eth0", 100)]], unreachable6, File("nameserver 192.168.1.1\n"), map[],
         map[], map["eth0" := Iface({"192.168.1.2/24"}, 1500, true)], false)
  }

  /** A Start whose first command fails, everything before it having worked. */
  function SomeAttempt(): Attempt {
    var p := Parsed("203.0.113.7:51820", ENDPOINT, "10.0.0.2", 1420, [], 9);
    Attempt(Some(p), true, true, true, true, true, (n: nat) => FailsBefore, true, 0)
  }

  lemma SomeHostIsABaseline(own: Table, unreachable6: set<string>)
    requires ValidTable(own) && Unused(own, TUN)
    ensures Baseline(SomeHost(own, unreachable6), TUN) && Reaches(SomeHost(own, unreachable6), SomeAttempt())
  {
  }

  /** Both halves of the condition are needed, and can fail to hold: a machine with a host route of its own to the
      endpoint, and one with an IPv6 half of its own, each lose it to a Start whose very first command fails. */
  lemma ForeignRouteHappens() returns (base: Host, half: Host)
    ensures Baseline(base, TUN) && base.unreachable6 == {}
    ensures Bring(World(base, false, None, None, DOWN), SomeAttempt()).host != base
    ensures Baseline(half, TUN) && Hops(half.routes, Of(ENDPOINT, 32)) == []
    ensures Bring(World(half, false, None, None, DOWN), SomeAttempt()).host != half
  {
    hide Bring, Baseline, Reaches, SomeHost, SomeAttempt;
    var pinned := map[Of(ENDPOINT, 32) := [Hop("192.168.1.254", "eth0", 0)]];
    base := SomeHost(pinned, {});
    half := SomeHost(map[], {"::/1"});
    SomeHostIsABaseline(pinned, {});
    SomeHostIsABaseline(map[], {"::/1"});
    SomeHostHas(pinned, {});
    SomeHostHas(map[], {"::/1"});
    ForeignRouteIsLost(base, World(base, false, None, None, DOWN), SomeAttempt());
    assert "::/1" in V6_HALVES && "::/1" in half.unreachable6;
    FirstCommandFails(half, World(half, false, None, None, DOWN), SomeAttempt());
  }

  lemma SomeHostHas(own: Table, unreachable6: set<string>)
    ensures SomeHost(own, unreachable6).unreachable6 == unreachable6
    ensures Hops(SomeHost(own, unreachable6).routes, Of(ENDPOINT, 32)) == Hops(own, Of(ENDPOINT, 32))
    ensures SomeAttempt().config.Some? && SomeAttempt().config.value.endpoint == ENDPOINT
    ensures SomeAttempt().faults(0) == FailsBefore
  {
  }
}
