/** The host as the Linux commands see it, and Snapshot, Apply and Restore as what they run. */
module Network {
  import opened Wrappers
  import opened Routes

  datatype Resolv = Absent | File(contents: string) | Link(target: string)

  datatype LinkDns = LinkDns(servers: seq<string>, claimsAll: bool)

  datatype Iface = Iface(addresses: set<string>, mtu: int, up: bool)

  /** `resolv` is /etc/resolv.conf; `elsewhere` holds the files a link may lead to. */
  datatype Host = Host(
    routes: Table,
    unreachable6: set<string>,
    resolv: Resolv,
    elsewhere: map<string, string>,
    linkDns: map<string, LinkDns>,
    ifaces: map<string, Iface>,
    resolvedAnswers: bool
  )

  /** What Snapshot keeps. An empty link means the file was not one. */
  datatype State = State(
    gateway: string,
    dev: string,
    resolved: bool,
    previous: Option<string>,
    link: string
  )

  /** A server as text, and whether that text is an address. */
  datatype Server = Server(text: string, isAddress: bool)

  datatype Config = Config(tun: string, address: string, mtu: int, endpoint: Addr4, dns: seq<Server>)

  const V6_HALVES: set<string> := {"::/1", "8000::/1"}

  // ---- Commands ----

  datatype Command =
    | AddAddress(dev: string, address: string)
    | SetMtu(dev: string, mtu: int)
    | LinkUp(dev: string)
    | AddRoute(prefix: Prefix, via: string, dev: string)
    | DelRoute(prefix: Prefix, only: Option<string>)
    | AddUnreachable6(half: string)
    | DelUnreachable6(half: string)
    | ResolveDns(dev: string, servers: seq<string>)
    | ResolveEverything(dev: string)
    | ResolveRevert(dev: string)
    | RemoveResolv
    | WriteResolv(contents: string)
    | SymlinkResolv(target: string)
    | Refuse

  function DnsOf(h: Host, dev: string): LinkDns {
    if dev in h.linkDns then h.linkDns[dev] else LinkDns([], false)
  }

  /** What a command does when nothing prevents it; None when the host itself makes it fail. */
  function Effect(h: Host, cmd: Command): Option<Host> {
    match cmd
    case AddAddress(dev, address) =>
      if dev in h.ifaces && address !in h.ifaces[dev].addresses
      then Some(h.(ifaces := h.ifaces[dev := h.ifaces[dev].(addresses := h.ifaces[dev].addresses + {address})]))
      else None
    case SetMtu(dev, mtu) =>
      if dev in h.ifaces then Some(h.(ifaces := h.ifaces[dev := h.ifaces[dev].(mtu := mtu)])) else None
    case LinkUp(dev) =>
      if dev in h.ifaces then Some(h.(ifaces := h.ifaces[dev := h.ifaces[dev].(up := true)])) else None
    case AddRoute(prefix, via, dev) =>
      if dev !in h.ifaces || !h.ifaces[dev].up then None
      else (match Add(h.routes, prefix, Hop(via, dev, 0))
            case Some(t) => Some(h.(routes := t))
            case None => None)
    case DelRoute(prefix, only) =>
      (match Del(h.routes, prefix, only)
       case Some(t) => Some(h.(routes := t))
       case None => None)
    case AddUnreachable6(half) =>
      if half in h.unreachable6 then None else Some(h.(unreachable6 := h.unreachable6 + {half}))
    case DelUnreachable6(half) =>
      if half in h.unreachable6 then Some(h.(unreachable6 := h.unreachable6 - {half})) else None
    case ResolveDns(dev, servers) =>
      if h.resolvedAnswers && dev in h.ifaces
      then Some(h.(linkDns := h.linkDns[dev := DnsOf(h, dev).(servers := servers)])) else None
    case ResolveEverything(dev) =>
      if h.resolvedAnswers && dev in h.ifaces
      then Some(h.(linkDns := h.linkDns[dev := DnsOf(h, dev).(claimsAll := true)])) else None
    case ResolveRevert(dev) =>
      if h.resolvedAnswers && dev in h.ifaces then Some(h.(linkDns := h.linkDns - {dev})) else None
    case RemoveResolv =>
      if h.resolv.Absent? then None else Some(h.(resolv := Absent))
    case WriteResolv(contents) =>
      // Through the link, if there is one.
      if h.resolv.Link? then Some(h.(elsewhere := h.elsewhere[h.resolv.target := contents]))
      else Some(h.(resolv := File(contents)))
    case SymlinkResolv(target) =>
      if h.resolv.Absent? then Some(h.(resolv := Link(target))) else None
    case Refuse => None
  }

  /** What the environment may do to one command: nothing; make it fail untried; let it take effect and
      report failure; or break a write off, leaving something else in the file. */
  datatype Fault = Works | FailsBefore | FailsAfter | Garbles(text: string)

  type Faults = nat -> Fault

  datatype Outcome = Outcome(host: Host, ok: bool)

  function Exec(h: Host, cmd: Command, fault: Fault): Outcome {
    match fault
    case Works => (match Effect(h, cmd) case Some(g) => Outcome(g, true) case None => Outcome(h, false))
    case FailsBefore => Outcome(h, false)
    case FailsAfter => (match Effect(h, cmd) case Some(g) => Outcome(g, false) case None => Outcome(h, false))
    case Garbles(text) =>
      if cmd.WriteResolv? then Outcome(Effect(h, WriteResolv(text)).value, false) else Outcome(h, false)
  }

  /** No fault lets a command report that it worked; what it left behind is the host as it was, as the command leaves
      it, or, of a write, a file with something else in it. */
  lemma FaultsAreFailures(h: Host, cmd: Command, fault: Fault)
    requires fault != Works
    ensures var o := Exec(h, cmd, fault);
      && !o.ok
      && (o.host == h || Effect(h, cmd) == Some(o.host)
          || (cmd.WriteResolv? && fault.Garbles? && Effect(h, WriteResolv(fault.text)) == Some(o.host)))
    ensures fault.FailsBefore? ==> Exec(h, cmd, fault).host == h
    ensures fault.FailsAfter? && Effect(h, cmd).Some? ==> Exec(h, cmd, fault).host == Effect(h, cmd).value
  {
    hide Add, Del;
  }

  // ---- Sequences of commands ----

  /** A failure of a fatal command ends the sequence; that of a noted one is reported; that of a quiet
      one is not. */
  datatype Kind = Fatal | Noted | Quiet

  datatype Act = Act(cmd: Command, kind: Kind)

  /** `trace` is the host after each command run. */
  datatype Ran = Ran(trace: seq<Host>, ok: bool, problems: nat)

  function RunPlan(h: Host, plan: seq<Act>, faults: Faults, k: nat): Ran
    decreases |plan|
  {
    if plan == [] then Ran([], true, 0)
    else
      var o := Exec(h, plan[0].cmd, faults(k));
      if !o.ok && plan[0].kind.Fatal? then Ran([o.host], false, 0)
      else
        var rest := RunPlan(o.host, plan[1..], faults, k + 1);
        Ran([o.host] + rest.trace, rest.ok, rest.problems + if !o.ok && plan[0].kind.Noted? then 1 else 0)
  }

  function Final(h: Host, trace: seq<Host>): Host {
    if trace == [] then h else trace[|trace| - 1]
  }

  // ---- Snapshot, Apply, Restore ----

  function ReadResolv(h: Host): Option<string> {
    match h.resolv
    case Absent => None
    case File(contents) => Some(contents)
    case Link(target) => if target in h.elsewhere then Some(h.elsewhere[target]) else None
  }

  /** The first default route is the one in use; without a gateway it does not count. */
  function Snapshot(h: Host): Option<State> {
    var defaults := Hops(h.routes, Prefix(0, 0));
    if defaults == [] || defaults[0].via == "" || defaults[0].dev == "" then None
    else if h.resolvedAnswers then Some(State(defaults[0].via, defaults[0].dev, true, None, ""))
    else
      var link := if h.resolv.Link? then h.resolv.target else "";
      Some(State(defaults[0].via, defaults[0].dev, false, ReadResolv(h), link))
  }

  function Texts(dns: seq<Server>): seq<string> {
    if dns == [] then [] else [dns[0].text] + Texts(dns[1..])
  }

  function Nameservers(dns: seq<Server>): string {
    if dns == [] then "" else "nameserver " + dns[0].text + "\n" + Nameservers(dns[1..])
  }

  function ResolvText(dns: seq<Server>): string {
    "# Written by Caelo while a tunnel is up.\n" + ("# The previous contents are " + "restored when it comes down.\n")
    + Nameservers(dns)
  }

  function Pin(cfg: Config): Prefix {
    Of(cfg.endpoint, 32)
  }

  function LinkPlan(cfg: Config): seq<Act> {
    [Act(AddAddress(cfg.tun, cfg.address + "/32"), Fatal)]
    + (if cfg.mtu > 0 then [Act(SetMtu(cfg.tun, cfg.mtu), Fatal)] else [])
    + [Act(LinkUp(cfg.tun), Fatal)]
  }

  function RoutePlan(st: State, cfg: Config): seq<Act> {
    [Act(AddRoute(Pin(cfg), st.gateway, st.dev), Fatal),
     Act(AddRoute(LOWER_HALF, "", cfg.tun), Fatal),
     Act(AddRoute(UPPER_HALF, "", cfg.tun), Fatal),
     Act(AddUnreachable6("::/1"), Quiet),
     Act(AddUnreachable6("8000::/1"), Quiet)]
  }

  function DnsPlan(st: State, cfg: Config): seq<Act> {
    if cfg.dns == [] then []
    else if st.resolved then
      [Act(ResolveDns(cfg.tun, Texts(cfg.dns)), Fatal), Act(ResolveEverything(cfg.tun), Fatal)]
    else if exists i :: 0 <= i < |cfg.dns| && !cfg.dns[i].isAddress then [Act(Refuse, Fatal)]
    else (if st.link != "" then [Act(RemoveResolv, Fatal)] else []) + [Act(WriteResolv(ResolvText(cfg.dns)), Fatal)]
  }

  function ApplyPlan(st: State, cfg: Config): seq<Act> {
    LinkPlan(cfg) + RoutePlan(st, cfg) + DnsPlan(st, cfg)
  }

  function RestoreDnsPlan(st: State, cfg: Config): seq<Act> {
    if st.resolved then [Act(ResolveRevert(cfg.tun), Noted)]
    else if st.link != "" then [Act(RemoveResolv, Quiet), Act(SymlinkResolv(st.link), Noted)]
    else if st.previous.None? then [Act(RemoveResolv, Quiet)]
    else [Act(WriteResolv(st.previous.value), Noted)]
  }

  function RestorePlan(st: State, cfg: Config): seq<Act> {
    [Act(DelRoute(LOWER_HALF, Some(cfg.tun)), Noted),
     Act(DelRoute(UPPER_HALF, Some(cfg.tun)), Noted),
     Act(DelRoute(Pin(cfg), None), Noted),
     Act(DelUnreachable6("::/1"), Quiet),
     Act(DelUnreachable6("8000::/1"), Quiet)]
    + RestoreDnsPlan(st, cfg)
  }

  /** The undo commands meet no failure of the environment. */
  function NoFaults(): Faults {
    _ => Works
  }

  // ---- The tunnel interface ----

  function CreateTun(h: Host, tun: string): Option<Host> {
    if tun in h.ifaces then None else Some(h.(ifaces := h.ifaces[tun := Iface({}, 0, false)]))
  }

  /** Closing the device takes its interface away, and with it the routes and resolver settings on it. */
  function CloseTun(h: Host, tun: string): Host {
    h.(routes := Purge(h.routes, tun), linkDns := h.linkDns - {tun}, ifaces := h.ifaces - {tun})
  }

  // ---- As the program runs them ----

  lemma RunCons(h: Host, act: Act, rest: seq<Act>, faults: Faults, k: nat)
    ensures var o := Exec(h, act.cmd, faults(k));
      RunPlan(h, [act] + rest, faults, k) ==
        if !o.ok && act.kind.Fatal? then Ran([o.host], false, 0)
        else
          var r := RunPlan(o.host, rest, faults, k + 1);
          Ran([o.host] + r.trace, r.ok, r.problems + if !o.ok && act.kind.Noted? then 1 else 0)
  {
    hide Exec;
    assert ([act] + rest)[1..] == rest;
  }

  lemma {:induction false} RunSnoc(h: Host, plan: seq<Act>, act: Act, faults: Faults, k: nat)
    requires RunPlan(h, plan, faults, k).ok
    decreases |plan|
    ensures var r := RunPlan(h, plan, faults, k);
      var o := Exec(Final(h, r.trace), act.cmd, faults(k + |plan|));
      |r.trace| == |plan| &&
      RunPlan(h, plan + [act], faults, k) ==
        if !o.ok && act.kind.Fatal? then Ran(r.trace + [o.host], false, RunPlan(h, plan + [act], faults, k).problems)
        else Ran(r.trace + [o.host], true, r.problems + if !o.ok && act.kind.Noted? then 1 else 0)
  {
    hide Exec;
    if plan == [] {
      assert [act][1..] == [];
    } else {
      assert (plan + [act])[1..] == plan[1..] + [act];
      assert (plan + [act])[0] == plan[0];
      RunSnoc(Exec(h, plan[0].cmd, faults(k)).host, plan[1..], act, faults, k + 1);
    }
  }

  /** A sequence that ended is not changed by what would have followed. */
  lemma {:induction false} RunEnded(h: Host, plan: seq<Act>, n: nat, faults: Faults, k: nat)
    requires n <= |plan| && !RunPlan(h, plan[..n], faults, k).ok
    ensures RunPlan(h, plan, faults, k).trace == RunPlan(h, plan[..n], faults, k).trace
    ensures !RunPlan(h, plan, faults, k).ok
    decreases |plan|
  {
    hide Exec;
    var o := Exec(h, plan[0].cmd, faults(k));
    if o.ok || !plan[0].kind.Fatal? {
      assert plan[..n][1..] == plan[1..][..n - 1];
      RunEnded(o.host, plan[1..], n - 1, faults, k + 1);
    }
  }

  class Machine {
    var host: Host
    /** How many commands of the current sequence were run. */
    var count: nat
    /** Every state the host went through. */
    ghost var seen: seq<Host>

    constructor (h: Host)
      ensures host == h && seen == []
    {
      host, count, seen := h, 0, [];
    }

    /** So far the first `count` commands of the plan were run, and none ended it. */
    ghost predicate Underway(start: Host, before: seq<Host>, plan: seq<Act>, faults: Faults, noted: nat)
      reads this
    {
      count <= |plan| &&
      var r := RunPlan(start, plan[..count], faults, 0);
      r.ok && r.problems == noted && seen == before + r.trace && host == Final(start, r.trace)
    }

    /** The plan was run, to its end or to the failure that ended it. */
    ghost predicate Done(start: Host, before: seq<Host>, plan: seq<Act>, faults: Faults, ok: bool)
      reads this
    {
      var r := RunPlan(start, plan, faults, 0);
      ok == r.ok && seen == before + r.trace && host == Final(start, r.trace)
    }

    /** Runs one command, the next of the plan. */
    method Run(cmd: Command, faults: Faults, ghost kind: Kind, ghost start: Host, ghost before: seq<Host>,
               ghost plan: seq<Act>, ghost noted: nat) returns (ok: bool)
      requires Underway(start, before, plan, faults, noted)
      requires count < |plan| && plan[count] == Act(cmd, kind)
      modifies this
      ensures !ok && kind.Fatal? ==> Done(start, before, plan, faults, false)
      ensures ok || !kind.Fatal? ==>
        Underway(start, before, plan, faults, noted + if !ok && kind.Noted? then 1 else 0)
      ensures count == old(count) + 1
      ensures cmd.Refuse? ==> !ok
    {
      hide Exec, RunPlan;
      RefuseFails(host, faults(count));
      RunSnoc(start, plan[..count], Act(cmd, kind), faults, 0);
      assert plan[..count + 1] == plan[..count] + [Act(cmd, kind)];
      var o := Exec(host, cmd, faults(count));
      host, ok, count, seen := o.host, o.ok, count + 1, seen + [o.host];
      if !ok && kind.Fatal? {
        RunEnded(start, plan, count, faults, 0);
      }
    }

    method Begin(ghost plan: seq<Act>, faults: Faults)
      modifies this
      ensures count == 0 && host == old(host) && seen == old(seen)
      ensures Underway(host, seen, plan, faults, 0)
    {
      count := 0;
    }

    method Apply(st: State, cfg: Config, faults: Faults) returns (ok: bool)
      modifies this
      ensures Done(old(host), old(seen), ApplyPlan(st, cfg), faults, ok)
    {
      hide Exec, RunPlan, LinkPlan, DnsPlan;
      ghost var start, before, plan := host, seen, ApplyPlan(st, cfg);
      ghost var link, routes, dns := LinkPlan(cfg), RoutePlan(st, cfg), DnsPlan(st, cfg);
      assert |routes| == 5;
      assert plan[..|link|] == link;
      assert plan[|link|..|link| + |routes|] == routes;
      assert plan[|link| + |routes|..] == dns;
      Begin(plan, faults);
      ok := ApplyLink(cfg, faults, start, before, plan);
      if !ok { return; }
      ok := ApplyRoutes(st, cfg, faults, start, before, plan);
      if !ok { return; }
      if |cfg.dns| > 0 {
        ok := ApplyDns(st, cfg, faults, start, before, plan);
      } else {
        NoDnsPlan(st, cfg);
      }
      assert plan[..|plan|] == plan;
    }

    method ApplyLink(cfg: Config, faults: Faults, ghost start: Host, ghost before: seq<Host>, ghost plan: seq<Act>)
      returns (ok: bool)
      requires Underway(start, before, plan, faults, 0) && count == 0 && LinkPlan(cfg) <= plan
      modifies this
      ensures !ok ==> Done(start, before, plan, faults, false)
      ensures ok ==> count == |LinkPlan(cfg)| && Underway(start, before, plan, faults, 0)
    {
      hide Exec, RunPlan;
      ok := Run(AddAddress(cfg.tun, cfg.address + "/32"), faults, Fatal, start, before, plan, 0);
      if !ok { return; }
      if cfg.mtu > 0 {
        ok := Run(SetMtu(cfg.tun, cfg.mtu), faults, Fatal, start, before, plan, 0);
        if !ok { return; }
      }
      ok := Run(LinkUp(cfg.tun), faults, Fatal, start, before, plan, 0);
    }

    method ApplyRoutes(st: State, cfg: Config, faults: Faults, ghost start: Host, ghost before: seq<Host>,
                       ghost plan: seq<Act>) returns (ok: bool)
      requires Underway(start, before, plan, faults, 0)
      requires count + 5 <= |plan| && plan[count..count + 5] == RoutePlan(st, cfg)
      modifies this
      ensures !ok ==> Done(start, before, plan, faults, false)
      ensures ok ==> count == old(count) + 5 && Underway(start, before, plan, faults, 0)
    {
      hide Exec, RunPlan;
      ghost var at := count;
      ghost var routes := plan[at..at + 5];
      assert plan[at] == routes[0] && plan[at + 1] == routes[1] && plan[at + 2] == routes[2];
      assert plan[at + 3] == routes[3] && plan[at + 4] == routes[4];
      ok := Run(AddRoute(Pin(cfg), st.gateway, st.dev), faults, Fatal, start, before, plan, 0);
      if !ok { return; }
      var halves := [LOWER_HALF, UPPER_HALF];
      for i := 0 to 2
        invariant count == at + 1 + i && Underway(start, before, plan, faults, 0)
      {
        ok := Run(AddRoute(halves[i], "", cfg.tun), faults, Fatal, start, before, plan, 0);
        if !ok { return; }
      }
      var halves6 := ["::/1", "8000::/1"];
      for i := 0 to 2
        invariant count == at + 3 + i && Underway(start, before, plan, faults, 0)
      {
        var _ := Run(AddUnreachable6(halves6[i]), faults, Quiet, start, before, plan, 0);
      }
      ok := true;
    }

    method ApplyDns(st: State, cfg: Config, faults: Faults, ghost start: Host, ghost before: seq<Host>,
                    ghost plan: seq<Act>) returns (ok: bool)
      requires cfg.dns != [] && Underway(start, before, plan, faults, 0)
      requires count <= |plan| && plan[count..] == DnsPlan(st, cfg)
      modifies this
      ensures !ok ==> Done(start, before, plan, faults, false)
      ensures ok ==> count == |plan| && Underway(start, before, plan, faults, 0)
    {
      hide Exec, RunPlan, ResolvText, Texts;
      ghost var dns, at := DnsPlan(st, cfg), count;
      assert forall i | 0 <= i < |dns| :: plan[at + i] == plan[at..][i];
      if st.resolved {
        ok := Run(ResolveDns(cfg.tun, Texts(cfg.dns)), faults, Fatal, start, before, plan, 0);
        if !ok { return; }
        ok := Run(ResolveEverything(cfg.tun), faults, Fatal, start, before, plan, 0);
        return;
      }
      var file := ResolvFile(cfg.dns);
      if file.None? {
        ok := Run(Refuse, faults, Fatal, start, before, plan, 0);
        return;
      }
      if st.link != "" {
        ok := Run(RemoveResolv, faults, Fatal, start, before, plan, 0);
        if !ok { return; }
      }
      ok := Run(WriteResolv(file.value), faults, Fatal, start, before, plan, 0);
    }

    /** The file, built line by line; none when a server is not an address. */
    static method ResolvFile(dns: seq<Server>) returns (file: Option<string>)
      ensures file == if exists i :: 0 <= i < |dns| && !dns[i].isAddress then None else Some(ResolvText(dns))
    {
      var text := "# Written by Caelo while a tunnel is up.\n"
        + ("# The previous contents are " + "restored when it comes down.\n");
      for i := 0 to |dns|
        invariant forall j | 0 <= j < i :: dns[j].isAddress
        invariant text + Nameservers(dns[i..]) == ResolvText(dns)
      {
        if !dns[i].isAddress {
          return None;
        }
        assert Nameservers(dns[i..]) == "nameserver " + dns[i].text + "\n" + Nameservers(dns[i + 1..]);
        text := text + ("nameserver " + dns[i].text + "\n");
      }
      assert dns[|dns|..] == [] && Nameservers([]) == "";
      assert text + "" == text;
      return Some(text);
    }

    method Restore(st: State, cfg: Config) returns (problems: seq<string>)
      modifies this
      ensures Done(old(host), old(seen), RestorePlan(st, cfg), NoFaults(), true)
      ensures |problems| == RunPlan(old(host), RestorePlan(st, cfg), NoFaults(), 0).problems
    {
      hide Exec, RunPlan;
      ghost var start, before, plan := host, seen, RestorePlan(st, cfg);
      Begin(plan, NoFaults());
      problems := [];
      var halves := [LOWER_HALF, UPPER_HALF];
      for i := 0 to 2
        invariant count == i && Underway(start, before, plan, NoFaults(), |problems|)
      {
        var ok := Run(DelRoute(halves[i], Some(cfg.tun)), NoFaults(), Noted, start, before, plan, |problems|);
        problems := if ok then problems else problems + ["removing a half"];
      }
      var pin := Run(DelRoute(Pin(cfg), None), NoFaults(), Noted, start, before, plan, |problems|);
      problems := if pin then problems else problems + ["removing the endpoint route"];
      var halves6 := ["::/1", "8000::/1"];
      for i := 0 to 2
        invariant count == 3 + i && Underway(start, before, plan, NoFaults(), |problems|)
      {
        var _ := Run(DelUnreachable6(halves6[i]), NoFaults(), Quiet, start, before, plan, |problems|);
      }
      var dns := RestoreDns(st, cfg, start, before, plan, |problems|);
      problems := if dns then problems else problems + ["restoring DNS"];
      assert plan[..count] == plan;
    }

    /** Only a file that is not there can keep Remove from removing, and that is no failure here. */
    method RestoreDns(st: State, cfg: Config, ghost start: Host, ghost before: seq<Host>, ghost plan: seq<Act>,
                      ghost noted: nat) returns (ok: bool)
      requires plan == RestorePlan(st, cfg) && count == 5 && Underway(start, before, plan, NoFaults(), noted)
      modifies this
      ensures count == |plan| && Underway(start, before, plan, NoFaults(), noted + if ok then 0 else 1)
    {
      hide Exec, RunPlan;
      assert forall i | 0 <= i < |RestoreDnsPlan(st, cfg)| :: plan[5 + i] == RestoreDnsPlan(st, cfg)[i];
      if st.resolved {
        ok := Run(ResolveRevert(cfg.tun), NoFaults(), Noted, start, before, plan, noted);
      } else if st.link != "" {
        var _ := Run(RemoveResolv, NoFaults(), Quiet, start, before, plan, noted);
        ok := Run(SymlinkResolv(st.link), NoFaults(), Noted, start, before, plan, noted);
      } else if st.previous.None? {
        var _ := Run(RemoveResolv, NoFaults(), Quiet, start, before, plan, noted);
        ok := true;
      } else {
        ok := Run(WriteResolv(st.previous.value), NoFaults(), Noted, start, before, plan, noted);
      }
    }
  }

  lemma NoDnsPlan(st: State, cfg: Config)
    requires cfg.dns == []
    ensures DnsPlan(st, cfg) == []
  {
  }

  lemma RefuseFails(h: Host, fault: Fault)
    ensures Exec(h, Refuse, fault) == Outcome(h, false)
  {
  }
}
