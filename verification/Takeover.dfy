/** What Apply and Restore keep between them, at every command, whatever fails. */
module Takeover {
  import opened Wrappers
  import opened Routes
  import opened Network
  import Strings

  /** Which of the three routes of a takeover are in the table. */
  datatype Progress = Progress(pin: bool, lower: bool, upper: bool)

  /** The machine before a takeover: the interface is not there, and nothing refers to it. */
  ghost predicate Baseline(base: Host, tun: string) {
    && ValidTable(base.routes) && Unused(base.routes, tun)
    && tun !in base.ifaces && tun !in base.linkDns
    && (base.resolv.Link? ==> base.resolv.target != "")
  }

  function PinHop(st: State): Hop {
    Hop(st.gateway, st.dev, 0)
  }

  function TunHop(cfg: Config): Hop {
    Hop("", cfg.tun, 0)
  }

  function Taken(base: Table, st: State, cfg: Config, f: Progress): Table {
    var pinned := if f.pin then Insert(base, Pin(cfg), PinHop(st)) else base;
    var lower := if f.lower then Insert(pinned, LOWER_HALF, TunHop(cfg)) else pinned;
    if f.upper then Insert(lower, UPPER_HALF, TunHop(cfg)) else lower
  }

  /** A host somewhere between its baseline and a finished takeover. The endpoint's pin is there whenever
      a half is; what else changed is confined to the interface, the IPv6 halves and one resolver. */
  ghost predicate Mid(base: Host, st: State, cfg: Config, f: Progress, h: Host) {
    && (f.lower || f.upper ==> f.pin)
    && h.routes == Taken(base.routes, st, cfg, f)
    && h.unreachable6 - V6_HALVES == base.unreachable6 - V6_HALVES
    && h.ifaces - {cfg.tun} == base.ifaces && cfg.tun in h.ifaces
    && h.linkDns - {cfg.tun} == base.linkDns
    && h.elsewhere == base.elsewhere && h.resolvedAnswers == base.resolvedAnswers
    && (h.resolv == base.resolv || (!st.resolved && !h.resolv.Link?))
  }

  ghost predicate Between(base: Host, st: State, cfg: Config, h: Host) {
    exists f :: Mid(base, st, cfg, f, h)
  }

  // ---- One command ----

  /** The commands a takeover may run where it stands. */
  predicate Allowed(st: State, cfg: Config, f: Progress, linked: bool, act: Act) {
    match act.cmd
    case AddAddress(dev, _) => dev == cfg.tun
    case SetMtu(dev, _) => dev == cfg.tun
    case LinkUp(dev) => dev == cfg.tun
    case AddRoute(prefix, via, dev) =>
      act.kind.Fatal? &&
      if prefix == Pin(cfg) then f == Progress(false, false, false) && via == st.gateway && dev == st.dev
      else if prefix == LOWER_HALF then f == Progress(true, false, false) && via == "" && dev == cfg.tun
      else prefix == UPPER_HALF && f == Progress(true, true, false) && via == "" && dev == cfg.tun
    case AddUnreachable6(half) => half in V6_HALVES
    case ResolveDns(dev, _) => dev == cfg.tun
    case ResolveEverything(dev) => dev == cfg.tun
    case RemoveResolv => !st.resolved && act.kind.Fatal?
    case WriteResolv(_) => !st.resolved && !linked
    case Refuse => true
    case _ => false
  }

  function After(cfg: Config, f: Progress, cmd: Command): Progress {
    if cmd.AddRoute? && cmd.prefix == Pin(cfg) then f.(pin := true)
    else if cmd.AddRoute? && cmd.prefix == LOWER_HALF then f.(lower := true)
    else if cmd.AddRoute? && cmd.prefix == UPPER_HALF then f.(upper := true)
    else f
  }

  lemma RouteMid(base: Host, st: State, cfg: Config, f: Progress, h: Host, act: Act)
    requires Mid(base, st, cfg, f, h) && Allowed(st, cfg, f, h.resolv.Link?, act)
    requires act.cmd.AddRoute? && Effect(h, act.cmd).Some?
    ensures Mid(base, st, cfg, After(cfg, f, act.cmd), Effect(h, act.cmd).value)
  {
    hide Of, Longest;
    assert Effect(h, act.cmd).value == h.(routes := Insert(h.routes, act.cmd.prefix, Hop(act.cmd.via, act.cmd.dev, 0)));
  }

  lemma EffectMid(base: Host, st: State, cfg: Config, f: Progress, h: Host, act: Act)
    requires Mid(base, st, cfg, f, h) && Allowed(st, cfg, f, h.resolv.Link?, act)
    requires Effect(h, act.cmd).Some?
    ensures Mid(base, st, cfg, After(cfg, f, act.cmd), Effect(h, act.cmd).value)
    ensures !h.resolv.Link? || act.cmd.RemoveResolv? ==> !Effect(h, act.cmd).value.resolv.Link?
  {
    hide Taken, Add, Del, Of, Mid;
    match act.cmd
    case AddAddress(_, _) => InterfaceMid(base, st, cfg, f, h, act.cmd);
    case SetMtu(_, _) => InterfaceMid(base, st, cfg, f, h, act.cmd);
    case LinkUp(_) => InterfaceMid(base, st, cfg, f, h, act.cmd);
    case AddRoute(_, _, _) => RouteMid(base, st, cfg, f, h, act);
    case AddUnreachable6(half) => Unreachable6Mid(base, st, cfg, f, h, half);
    case ResolveDns(_, _) => InterfaceMid(base, st, cfg, f, h, act.cmd);
    case ResolveEverything(_) => InterfaceMid(base, st, cfg, f, h, act.cmd);
    case RemoveResolv => ResolvMid(base, st, cfg, f, h, act.cmd);
    case WriteResolv(_) => ResolvMid(base, st, cfg, f, h, act.cmd);
    case Refuse =>
  }

  lemma InterfaceMid(base: Host, st: State, cfg: Config, f: Progress, h: Host, cmd: Command)
    requires Mid(base, st, cfg, f, h) && Effect(h, cmd).Some?
    requires cmd.AddAddress? || cmd.SetMtu? || cmd.LinkUp? || cmd.ResolveDns? || cmd.ResolveEverything?
    requires cmd.dev == cfg.tun
    ensures Mid(base, st, cfg, f, Effect(h, cmd).value)
    ensures Effect(h, cmd).value.resolv == h.resolv
  {
    hide Taken;
    var g := Effect(h, cmd).value;
    assert g.ifaces - {cfg.tun} == h.ifaces - {cfg.tun};
    assert g.linkDns - {cfg.tun} == h.linkDns - {cfg.tun};
    assert g == h.(ifaces := g.ifaces, linkDns := g.linkDns) && cfg.tun in g.ifaces;
  }

  lemma Unreachable6Mid(base: Host, st: State, cfg: Config, f: Progress, h: Host, half: string)
    requires Mid(base, st, cfg, f, h) && half in V6_HALVES
    ensures Mid(base, st, cfg, f, h.(unreachable6 := h.unreachable6 + {half}))
    ensures Mid(base, st, cfg, f, h.(unreachable6 := h.unreachable6 - {half}))
  {
    hide Taken;
    assert h.unreachable6 + {half} - V6_HALVES == h.unreachable6 - V6_HALVES;
    assert h.unreachable6 - {half} - V6_HALVES == h.unreachable6 - V6_HALVES;
  }

  lemma ResolvMid(base: Host, st: State, cfg: Config, f: Progress, h: Host, cmd: Command)
    requires Mid(base, st, cfg, f, h) && Effect(h, cmd).Some? && !st.resolved
    requires cmd.RemoveResolv? || (cmd.WriteResolv? && !h.resolv.Link?)
    ensures Mid(base, st, cfg, f, Effect(h, cmd).value)
    ensures !Effect(h, cmd).value.resolv.Link?
  {
    hide Taken;
  }

  /** Whatever the environment does to it, a command leaves the host between the two. */
  lemma ExecMid(base: Host, st: State, cfg: Config, f: Progress, h: Host, act: Act, fault: Fault)
    requires Mid(base, st, cfg, f, h) && Allowed(st, cfg, f, h.resolv.Link?, act)
    ensures var o := Exec(h, act.cmd, fault);
      && Between(base, st, cfg, o.host)
      && (o.ok ==> Mid(base, st, cfg, After(cfg, f, act.cmd), o.host))
      && (!act.kind.Fatal? ==> Mid(base, st, cfg, f, o.host))
      && (!h.resolv.Link? || (o.ok && act.cmd.RemoveResolv?) ==> !o.host.resolv.Link?)
  {
    hide Effect, Mid;
    if Effect(h, act.cmd).Some? {
      EffectMid(base, st, cfg, f, h, act);
    }
    if fault.Garbles? && act.cmd.WriteResolv? {
      WriteAlwaysWorks(h, fault.text);
      EffectMid(base, st, cfg, f, h, Act(WriteResolv(fault.text), Quiet));
    }
  }

  lemma WriteAlwaysWorks(h: Host, text: string)
    ensures Effect(h, WriteResolv(text)).Some?
  {
  }

  // ---- A whole plan ----

  ghost predicate Orderly(st: State, cfg: Config, f: Progress, linked: bool, plan: seq<Act>)
    decreases |plan|
  {
    plan == [] ||
    (Allowed(st, cfg, f, linked, plan[0])
     && Orderly(st, cfg, After(cfg, f, plan[0].cmd), linked && !plan[0].cmd.RemoveResolv?, plan[1..]))
  }

  function AfterAll(cfg: Config, f: Progress, plan: seq<Act>): Progress
    decreases |plan|
  {
    if plan == [] then f else AfterAll(cfg, After(cfg, f, plan[0].cmd), plan[1..])
  }

  lemma {:induction false} PlanMid(base: Host, st: State, cfg: Config, f: Progress, h: Host, linked: bool,
                                   plan: seq<Act>, faults: Faults, k: nat)
    requires Mid(base, st, cfg, f, h) && Orderly(st, cfg, f, linked, plan) && (h.resolv.Link? ==> linked)
    ensures var r := RunPlan(h, plan, faults, k);
      && (forall g | g in r.trace :: Between(base, st, cfg, g))
      && (r.ok ==> Mid(base, st, cfg, AfterAll(cfg, f, plan), Final(h, r.trace)))
    decreases |plan|
  {
    hide Exec, Mid;
    if plan != [] {
      var o := Exec(h, plan[0].cmd, faults(k));
      var act := plan[0];
      assert Allowed(st, cfg, f, h.resolv.Link?, act);
      ExecMid(base, st, cfg, f, h, act, faults(k));
      if o.ok || !act.kind.Fatal? {
        assert Mid(base, st, cfg, After(cfg, f, act.cmd), o.host);
        var stillLinked := linked && !act.cmd.RemoveResolv?;
        PlanMid(base, st, cfg, After(cfg, f, act.cmd), o.host, stillLinked, plan[1..], faults, k + 1);
      }
    }
  }

  lemma OrderlyCons(st: State, cfg: Config, f: Progress, linked: bool, act: Act, rest: seq<Act>)
    requires Allowed(st, cfg, f, linked, act)
    requires Orderly(st, cfg, After(cfg, f, act.cmd), linked && !act.cmd.RemoveResolv?, rest)
    ensures Orderly(st, cfg, f, linked, [act] + rest)
    ensures AfterAll(cfg, f, [act] + rest) == AfterAll(cfg, After(cfg, f, act.cmd), rest)
  {
    assert ([act] + rest)[1..] == rest;
  }

  lemma DnsIsOrderly(st: State, cfg: Config, f: Progress)
    ensures Orderly(st, cfg, f, st.resolved || st.link != "", DnsPlan(st, cfg))
    ensures AfterAll(cfg, f, DnsPlan(st, cfg)) == f
  {
    hide Texts, ResolvText, Of;
    var linked := st.resolved || st.link != "";
    if cfg.dns != [] {
      if st.resolved {
        OrderlyCons(st, cfg, f, linked, Act(ResolveEverything(cfg.tun), Fatal), []);
        OrderlyCons(st, cfg, f, linked, Act(ResolveDns(cfg.tun, Texts(cfg.dns)), Fatal),
          [Act(ResolveEverything(cfg.tun), Fatal)]);
      } else if exists i :: 0 <= i < |cfg.dns| && !cfg.dns[i].isAddress {
        OrderlyCons(st, cfg, f, linked, Act(Refuse, Fatal), []);
      } else {
        var write := Act(WriteResolv(ResolvText(cfg.dns)), Fatal);
        OrderlyCons(st, cfg, f, false, write, []);
        assert [write] + [] == [write];
        if st.link != "" {
          OrderlyCons(st, cfg, f, true, Act(RemoveResolv, Fatal), [write]);
        }
      }
    }
  }

  lemma RoutesAreOrderly(st: State, cfg: Config, linked: bool, rest: seq<Act>)
    requires Orderly(st, cfg, Progress(true, true, true), linked, rest)
    ensures Orderly(st, cfg, Progress(false, false, false), linked, RoutePlan(st, cfg) + rest)
    ensures AfterAll(cfg, Progress(false, false, false), RoutePlan(st, cfg) + rest)
         == AfterAll(cfg, Progress(true, true, true), rest)
  {
    hide Orderly, AfterAll;
    var none, pinned := Progress(false, false, false), Progress(true, false, false);
    var half, all := Progress(true, true, false), Progress(true, true, true);
    var p := RoutePlan(st, cfg);
    OrderlyCons(st, cfg, all, linked, p[4], rest);
    OrderlyCons(st, cfg, all, linked, p[3], [p[4]] + rest);
    OrderlyCons(st, cfg, half, linked, p[2], [p[3]] + ([p[4]] + rest));
    OrderlyCons(st, cfg, pinned, linked, p[1], [p[2]] + ([p[3]] + ([p[4]] + rest)));
    OrderlyCons(st, cfg, none, linked, p[0], [p[1]] + ([p[2]] + ([p[3]] + ([p[4]] + rest))));
    assert p + rest == [p[0]] + ([p[1]] + ([p[2]] + ([p[3]] + ([p[4]] + rest))));
  }

  /** The order of the commands is what keeps the pin ahead of the halves, and a link from being written
      through. */
  lemma ApplyIsOrderly(st: State, cfg: Config)
    ensures Orderly(st, cfg, Progress(false, false, false), st.resolved || st.link != "", ApplyPlan(st, cfg))
    ensures AfterAll(cfg, Progress(false, false, false), ApplyPlan(st, cfg)) == Progress(true, true, true)
  {
    hide Orderly, AfterAll, DnsPlan, RoutePlan, LinkPlan;
    var linked := st.resolved || st.link != "";
    DnsIsOrderly(st, cfg, Progress(true, true, true));
    RoutesAreOrderly(st, cfg, linked, DnsPlan(st, cfg));
    LinkIsOrderly(st, cfg, linked, RoutePlan(st, cfg) + DnsPlan(st, cfg));
    assert ApplyPlan(st, cfg) == LinkPlan(cfg) + (RoutePlan(st, cfg) + DnsPlan(st, cfg));
  }

  lemma LinkIsOrderly(st: State, cfg: Config, linked: bool, rest: seq<Act>)
    requires Orderly(st, cfg, Progress(false, false, false), linked, rest)
    ensures Orderly(st, cfg, Progress(false, false, false), linked, LinkPlan(cfg) + rest)
    ensures AfterAll(cfg, Progress(false, false, false), LinkPlan(cfg) + rest)
      == AfterAll(cfg, Progress(false, false, false), rest)
  {
    hide Orderly, AfterAll, Of;
    var none := Progress(false, false, false);
    var address, up := Act(AddAddress(cfg.tun, cfg.address + "/32"), Fatal), Act(LinkUp(cfg.tun), Fatal);
    var mtu := Act(SetMtu(cfg.tun, cfg.mtu), Fatal);
    OrderlyCons(st, cfg, none, linked, up, rest);
    OrderlyCons(st, cfg, none, linked, mtu, [up] + rest);
    var tail := if cfg.mtu > 0 then [mtu] + ([up] + rest) else [up] + rest;
    OrderlyCons(st, cfg, none, linked, address, tail);
    assert LinkPlan(cfg) + rest == [address] + tail;
  }

  // ---- The takeover itself ----

  ghost predicate Snapped(base: Host, st: State, cfg: Config) {
    Baseline(base, cfg.tun) && Snapshot(base) == Some(st)
  }

  const NOTHING: Progress := Progress(false, false, false)
  const EVERYTHING: Progress := Progress(true, true, true)

  /** Stopped at any command and by any failure, Apply leaves the host between the two; run to its end it
      leaves all three routes. */
  lemma ApplyBetween(base: Host, st: State, cfg: Config, faults: Faults)
    requires Snapped(base, st, cfg) && CreateTun(base, cfg.tun).Some?
    ensures var h := CreateTun(base, cfg.tun).value;
      var r := RunPlan(h, ApplyPlan(st, cfg), faults, 0);
      && Mid(base, st, cfg, NOTHING, h)
      && (forall g | g in r.trace :: Between(base, st, cfg, g))
      && Between(base, st, cfg, Final(h, r.trace))
      && (r.ok ==> Mid(base, st, cfg, EVERYTHING, Final(h, r.trace)))
  {
    hide Orderly, AfterAll, ApplyPlan;
    var h := CreateTun(base, cfg.tun).value;
    assert h.ifaces - {cfg.tun} == base.ifaces;
    assert h.linkDns - {cfg.tun} == base.linkDns;
    assert Mid(base, st, cfg, NOTHING, h);
    ApplyIsOrderly(st, cfg);
    PlanMid(base, st, cfg, NOTHING, h, st.resolved || st.link != "", ApplyPlan(st, cfg), faults, 0);
    var r := RunPlan(h, ApplyPlan(st, cfg), faults, 0);
    if r.trace != [] {
      assert r.trace[|r.trace| - 1] in r.trace;
    }
  }

  lemma SnapshotAvoidsTunnel(base: Host, st: State, cfg: Config)
    requires Snapped(base, st, cfg)
    ensures st.dev != cfg.tun
  {
    assert Prefix(0, 0) in base.routes;
  }

  lemma TakenHops(base: Table, st: State, cfg: Config, f: Progress, p: Prefix)
    ensures Hops(Taken(base, st, cfg, f), p) ==
      if p == Pin(cfg) && f.pin then [PinHop(st)] + Hops(base, p)
      else if p == LOWER_HALF && f.lower then [TunHop(cfg)] + Hops(base, p)
      else if p == UPPER_HALF && f.upper then [TunHop(cfg)] + Hops(base, p)
      else Hops(base, p)
  {
  }

  lemma NothingTaken(base: Table, st: State, cfg: Config)
    ensures Taken(base, st, cfg, NOTHING) == base
  {
  }

  /** At no command of a takeover does the endpoint's own address lead into the tunnel. */
  lemma EndpointStaysOut(base: Host, st: State, cfg: Config, h: Host)
    requires Snapped(base, st, cfg) && Between(base, st, cfg, h)
    ensures Resolve(h.routes, cfg.endpoint).Some? ==> Resolve(h.routes, cfg.endpoint).value.dev != cfg.tun
  {
    hide Taken, Longest;
    var f :| Mid(base, st, cfg, f, h);
    SnapshotAvoidsTunnel(base, st, cfg);
    if f.pin {
      TakenHops(base.routes, st, cfg, f, Pin(cfg));
      ResolveIs(h.routes, cfg.endpoint, 32);
    } else {
      NothingTaken(base.routes, st, cfg);
      ResolveUnused(base.routes, cfg.endpoint, cfg.tun);
    }
  }

  /** Where every address goes once the takeover is complete: the endpoint to the gateway it always used;
      an address the machine had a route of two bits or more for, where it went before; all the rest,
      whichever half they lie in, into the tunnel. */
  lemma EverythingElseGoesIn(base: Host, st: State, cfg: Config, h: Host, a: Addr4)
    requires Snapped(base, st, cfg) && Mid(base, st, cfg, EVERYTHING, h)
    ensures Resolve(h.routes, a) ==
      if a == cfg.endpoint then Some(Hop(st.gateway, st.dev, 0))
      else if Longest(base.routes, a, 32) >= 2 then Resolve(base.routes, a)
      else Some(Hop("", cfg.tun, 0))
  {
    hide Taken, Longest;
    LongestIsLongest(base.routes, a, 32);
    HalvesCover(a);
    HostPrefix(a, cfg.endpoint);
    forall len | 0 <= len <= 32
      ensures Hops(h.routes, Of(a, len)) ==
        if len == 32 && a == cfg.endpoint then [PinHop(st)] + Hops(base.routes, Of(a, len))
        else if len == 1 then [TunHop(cfg)] + Hops(base.routes, Of(a, len))
        else Hops(base.routes, Of(a, len))
    {
      TakenHops(base.routes, st, cfg, EVERYTHING, Of(a, len));
    }
    var longest := Longest(base.routes, a, 32);
    ResolveIs(h.routes, a, if a == cfg.endpoint then 32 else if longest >= 2 then longest else 1);
  }

  /** The endpoint's own packets keep the way they had: where only the default routes led to it, longest match
      gives the gateway and interface it gave before the takeover. */
  lemma EndpointKeepsItsWay(base: Host, st: State, cfg: Config, h: Host)
    requires Snapped(base, st, cfg) && Mid(base, st, cfg, EVERYTHING, h)
    requires Longest(base.routes, cfg.endpoint, 32) == 0
    ensures Resolve(h.routes, cfg.endpoint).Some? && Resolve(base.routes, cfg.endpoint).Some?
    ensures var before, now := Resolve(base.routes, cfg.endpoint).value, Resolve(h.routes, cfg.endpoint).value;
      now.via == before.via && now.dev == before.dev
  {
    hide Longest, Taken, Mid;
    EverythingElseGoesIn(base, st, cfg, h, cfg.endpoint);
    EveryAddressIsDefault(cfg.endpoint);
    LongestIsLongest(base.routes, cfg.endpoint, 32);
  }

  /** Who answers names after a successful Apply: resolved, which sends every name to the tunnel's servers;
      or a file of its own that lists them. */
  ghost predicate Answering(st: State, cfg: Config, h: Host) {
    cfg.dns != [] ==>
      if st.resolved then
        && cfg.tun in h.linkDns && h.linkDns[cfg.tun].claimsAll && Lists(h.linkDns[cfg.tun].servers, cfg.dns)
      else
        && h.resolv.File? && WrittenOut(h.resolv.contents, cfg.dns)
        && forall i | 0 <= i < |cfg.dns| :: cfg.dns[i].isAddress
  }

  /** These are the servers, in order. */
  ghost predicate Lists(texts: seq<string>, dns: seq<Server>) {
    |texts| == |dns| && forall i | 0 <= i < |dns| :: texts[i] == dns[i].text
  }

  /** The lines of the file: two comments, and a line for each server, in order. */
  ghost predicate FileLines(lines: seq<string>, dns: seq<Server>) {
    && |lines| == 2 + |dns|
    && lines[0] == "# Written by Caelo while a tunnel is up."
    && lines[1] == "# The previous contents are " + "restored when it comes down."
    && forall i | 0 <= i < |dns| :: lines[2 + i] == "nameserver " + dns[i].text
  }

  /** The file is these lines, each with its end. */
  ghost predicate WrittenOut(contents: string, dns: seq<Server>) {
    exists lines :: FileLines(lines, dns) && contents == Strings.Text(lines)
  }

  lemma {:induction false} TextsAre(dns: seq<Server>)
    ensures Lists(Texts(dns), dns)
  {
    if dns != [] {
      TextsAre(dns[1..]);
    }
  }

  lemma {:induction false} NameserversAre(dns: seq<Server>) returns (lines: seq<string>)
    ensures |lines| == |dns| && (forall i | 0 <= i < |dns| :: lines[i] == "nameserver " + dns[i].text)
    ensures Nameservers(dns) == Strings.Text(lines)
  {
    lines := [];
    if dns != [] {
      var rest := NameserversAre(dns[1..]);
      lines := ["nameserver " + dns[0].text] + rest;
      assert lines[1..] == rest;
    }
  }

  lemma ResolvTextIs(dns: seq<Server>)
    ensures WrittenOut(ResolvText(dns), dns)
  {
    hide Nameservers;
    var servers := NameserversAre(dns);
    var first, second :=
      "# Written by Caelo while a tunnel is up.", "# The previous contents are " + "restored when it comes down.";
    var lines := [first, second] + servers;
    Strings.TextConcat([first, second], servers);
    TwoLines(first, second);
    assert Strings.Text(lines) == first + "\n" + (second + "\n") + Nameservers(dns);
    assert "# Written by Caelo while a tunnel is up.\n" == first + "\n";
    assert "restored when it comes down.\n" == "restored when it comes down." + "\n";
    WrittenLines(ResolvText(dns), lines, dns);
  }

  lemma WrittenLines(contents: string, lines: seq<string>, dns: seq<Server>)
    requires FileLines(lines, dns) && contents == Strings.Text(lines)
    ensures WrittenOut(contents, dns)
  {
    hide Strings.Text;
  }

  lemma CommentsAreLines()
    ensures Strings.OneLine("# Written by Caelo while a tunnel is up.")
    ensures Strings.OneLine("# The previous contents are ") && Strings.OneLine("restored when it comes down.")
    ensures Strings.OneLine("nameserver ")
  {
  }

  lemma TwoLines(a: string, b: string)
    ensures Strings.Text([a, b]) == a + "\n" + (b + "\n")
  {
    assert [a, b][1..] == [b] && [b][1..] == [];
    assert Strings.Text([b]) == b + "\n";
  }

  lemma JoinedLine(a: string, b: string)
    requires Strings.OneLine(a) && Strings.OneLine(b)
    ensures Strings.OneLine(a + b)
  {
  }

  /** Who reads the file line by line finds them, where no server's text holds a line end, as no address does. */
  lemma FileIsItsLines(contents: string, dns: seq<Server>) returns (lines: seq<string>)
    requires WrittenOut(contents, dns) && forall i | 0 <= i < |dns| :: Strings.OneLine(dns[i].text)
    ensures FileLines(lines, dns) && Strings.Split(contents, '\n') == lines + [""]
  {
    lines :| FileLines(lines, dns) && contents == Strings.Text(lines);
    CommentsAreLines();
    JoinedLine("# The previous contents are ", "restored when it comes down.");
    forall l | l in lines
      ensures Strings.OneLine(l)
    {
      var i :| 0 <= i < |lines| && lines[i] == l;
      if i >= 2 {
        assert lines[2 + (i - 2)] == "nameserver " + dns[i - 2].text;
        JoinedLine("nameserver ", dns[i - 2].text);
      }
    }
    Strings.SplitText(lines);
  }

  /** The last command of a plan that ran to its end. */
  lemma LastOfPlan(h: Host, plan: seq<Act>, act: Act, faults: Faults) returns (before: Host)
    requires RunPlan(h, plan + [act], faults, 0).ok && act.kind.Fatal?
    ensures RunPlan(h, plan, faults, 0).ok && before == Final(h, RunPlan(h, plan, faults, 0).trace)
    ensures var o := Exec(before, act.cmd, faults(|plan|));
      o.ok && o.host == Final(h, RunPlan(h, plan + [act], faults, 0).trace)
  {
    hide Exec;
    if !RunPlan(h, plan, faults, 0).ok {
      assert (plan + [act])[..|plan|] == plan;
      RunEnded(h, plan + [act], |plan|, faults, 0);
    }
    RunSnoc(h, plan, act, faults, 0);
    before := Final(h, RunPlan(h, plan, faults, 0).trace);
  }

  lemma ExecOk(h: Host, cmd: Command, fault: Fault)
    requires Exec(h, cmd, fault).ok
    ensures Effect(h, cmd) == Some(Exec(h, cmd, fault).host)
  {
  }

  lemma ApplyAnswers(base: Host, st: State, cfg: Config, faults: Faults)
    requires Snapped(base, st, cfg) && CreateTun(base, cfg.tun).Some?
    requires RunPlan(CreateTun(base, cfg.tun).value, ApplyPlan(st, cfg), faults, 0).ok
    ensures Answering(st, cfg, Final(CreateTun(base, cfg.tun).value,
                                     RunPlan(CreateTun(base, cfg.tun).value, ApplyPlan(st, cfg), faults, 0).trace))
  {
    hide Exec, RunPlan, LinkPlan, Final, Texts, ResolvText, Effect, Lists, WrittenOut;
    TextsAre(cfg.dns);
    ResolvTextIs(cfg.dns);
    var h := CreateTun(base, cfg.tun).value;
    var plan, front := ApplyPlan(st, cfg), LinkPlan(cfg) + RoutePlan(st, cfg);
    if cfg.dns == [] {
    } else if st.resolved {
      var servers, every := Act(ResolveDns(cfg.tun, Texts(cfg.dns)), Fatal), Act(ResolveEverything(cfg.tun), Fatal);
      assert plan == front + [servers] + [every];
      var b := LastOfPlan(h, front + [servers], every, faults);
      var a := LastOfPlan(h, front, servers, faults);
      ExecOk(b, every.cmd, faults(|front| + 1));
      ExecOk(a, servers.cmd, faults(|front|));
      ResolverSet(a, cfg.tun, Texts(cfg.dns));
    } else {
      if exists i :: 0 <= i < |cfg.dns| && !cfg.dns[i].isAddress {
        var b := LastOfPlan(h, front, Act(Refuse, Fatal), faults);
        RefuseFails(b, faults(|front|));
        assert false;
      }
      var write, remove := Act(WriteResolv(ResolvText(cfg.dns)), Fatal), Act(RemoveResolv, Fatal);
      var shorter := if st.link != "" then front + [remove] else front;
      assert plan == shorter + [write];
      var b := LastOfPlan(h, shorter, write, faults);
      ExecOk(b, write.cmd, faults(|shorter|));
      if st.link != "" {
        var a := LastOfPlan(h, front, remove, faults);
        ExecOk(a, remove.cmd, faults(|front|));
        RemoveLeavesNone(a);
      } else {
        FrontIsBetween(base, st, cfg, front, write, faults);
      }
      WriteLandsInTheFile(b, ResolvText(cfg.dns));
    }
  }

  lemma FrontIsBetween(base: Host, st: State, cfg: Config, front: seq<Act>, act: Act, faults: Faults)
    requires Snapped(base, st, cfg) && CreateTun(base, cfg.tun).Some?
    requires ApplyPlan(st, cfg) == front + [act] && front != []
    requires RunPlan(CreateTun(base, cfg.tun).value, front, faults, 0).ok
    ensures var h := CreateTun(base, cfg.tun).value;
      Between(base, st, cfg, Final(h, RunPlan(h, front, faults, 0).trace))
  {
    hide Exec, RunPlan, ApplyPlan;
    var h := CreateTun(base, cfg.tun).value;
    ApplyBetween(base, st, cfg, faults);
    RunSnoc(h, front, act, faults, 0);
    var before, whole := RunPlan(h, front, faults, 0).trace, RunPlan(h, front + [act], faults, 0).trace;
    assert whole[|before| - 1] == before[|before| - 1] && whole[|before| - 1] in whole;
  }

  lemma RemoveLeavesNone(h: Host)
    ensures Effect(h, RemoveResolv).Some? ==> Effect(h, RemoveResolv).value.resolv.Absent?
  {
  }

  lemma ResolverSet(h: Host, tun: string, servers: seq<string>)
    ensures var g := Effect(h, ResolveDns(tun, servers));
      g.Some? && Effect(g.value, ResolveEverything(tun)).Some? ==>
        tun in Effect(g.value, ResolveEverything(tun)).value.linkDns
        && Effect(g.value, ResolveEverything(tun)).value.linkDns[tun] == LinkDns(servers, true)
  {
  }

  lemma WriteLandsInTheFile(h: Host, text: string)
    requires !h.resolv.Link?
    ensures Effect(h, WriteResolv(text)).Some? && Effect(h, WriteResolv(text)).value.resolv == File(text)
  {
  }

  /** What a takeover never takes back while it goes on. */
  ghost predicate Grows(tun: string, g: Host, h: Host) {
    && g.unreachable6 <= h.unreachable6
    && (tun in g.ifaces ==> tun in h.ifaces && g.ifaces[tun].addresses <= h.ifaces[tun].addresses
                            && (g.ifaces[tun].up ==> h.ifaces[tun].up))
  }

  lemma ExecGrows(tun: string, h: Host, cmd: Command, fault: Fault)
    requires !cmd.DelUnreachable6?
    ensures Grows(tun, h, Exec(h, cmd, fault).host)
    ensures tun in h.ifaces && !cmd.SetMtu? ==> Exec(h, cmd, fault).host.ifaces[tun].mtu == h.ifaces[tun].mtu
  {
    hide Add, Del;
  }

  /** What the i-th command of a plan that ran to its end did is still so at the end. */
  lemma {:induction false} DoneStays(tun: string, h: Host, plan: seq<Act>, faults: Faults, k: nat, i: nat)
    returns (g: Host)
    requires RunPlan(h, plan, faults, k).ok && i < |plan| && forall j | 0 <= j < |plan| :: !plan[j].cmd.DelUnreachable6?
    requires tun in h.ifaces
    ensures tun in g.ifaces && tun in Exec(g, plan[i].cmd, faults(k + i)).host.ifaces
    ensures plan[i].kind.Fatal? ==> Exec(g, plan[i].cmd, faults(k + i)).ok
    ensures Grows(tun, Exec(g, plan[i].cmd, faults(k + i)).host, Final(h, RunPlan(h, plan, faults, k).trace))
    ensures var last := Final(h, RunPlan(h, plan, faults, k).trace);
      (forall j | i < j < |plan| :: !plan[j].cmd.SetMtu?) && tun in last.ifaces ==>
        last.ifaces[tun].mtu == Exec(g, plan[i].cmd, faults(k + i)).host.ifaces[tun].mtu
    decreases |plan|
  {
    hide Exec;
    var o := Exec(h, plan[0].cmd, faults(k));
    ExecGrows(tun, h, plan[0].cmd, faults(k));
    if i == 0 {
      g := h;
      GrowsOn(tun, o.host, plan[1..], faults, k + 1);
    } else {
      g := DoneStays(tun, o.host, plan[1..], faults, k + 1, i - 1);
      assert plan[1..][i - 1] == plan[i];
      if forall j | i < j < |plan| :: !plan[j].cmd.SetMtu? {
        assert forall j | i - 1 < j < |plan[1..]| :: plan[1..][j] == plan[j + 1];
      }
    }
  }

  lemma {:induction false} GrowsOn(tun: string, h: Host, plan: seq<Act>, faults: Faults, k: nat)
    requires RunPlan(h, plan, faults, k).ok && tun in h.ifaces
    requires forall j | 0 <= j < |plan| :: !plan[j].cmd.DelUnreachable6?
    ensures Grows(tun, h, Final(h, RunPlan(h, plan, faults, k).trace))
    ensures (forall j | 0 <= j < |plan| :: !plan[j].cmd.SetMtu?) ==>
      Final(h, RunPlan(h, plan, faults, k).trace).ifaces[tun].mtu == h.ifaces[tun].mtu
    decreases |plan|
  {
    hide Exec;
    if plan != [] {
      ExecGrows(tun, h, plan[0].cmd, faults(k));
      GrowsOn(tun, Exec(h, plan[0].cmd, faults(k)).host, plan[1..], faults, k + 1);
    }
  }

  /** The interface as a successful Apply leaves it: addressed, up, and with the MTU asked for. */
  ghost predicate Raised(cfg: Config, h: Host) {
    && cfg.tun in h.ifaces
    && cfg.address + "/32" in h.ifaces[cfg.tun].addresses && h.ifaces[cfg.tun].up
    && (cfg.mtu > 0 ==> h.ifaces[cfg.tun].mtu == cfg.mtu)
  }

  lemma PlanShape(st: State, cfg: Config)
    ensures var p, n := ApplyPlan(st, cfg), |LinkPlan(cfg)|;
      && n + 5 <= |p| && p[0] == Act(AddAddress(cfg.tun, cfg.address + "/32"), Fatal)
      && p[n - 1] == Act(LinkUp(cfg.tun), Fatal)
      && (cfg.mtu > 0 ==> p[1] == Act(SetMtu(cfg.tun, cfg.mtu), Fatal))
      && p[n + 3] == Act(AddUnreachable6("::/1"), Quiet) && p[n + 4] == Act(AddUnreachable6("8000::/1"), Quiet)
      && (forall j | 0 <= j < |p| :: !p[j].cmd.DelUnreachable6?)
      && (forall j | 1 < j < |p| :: !p[j].cmd.SetMtu?)
  {
    hide Texts, ResolvText;
    var p, n := ApplyPlan(st, cfg), |LinkPlan(cfg)|;
    assert forall j | 0 <= j < |p| ::
      p[j] == if j < n then LinkPlan(cfg)[j]
              else if j < n + 5 then RoutePlan(st, cfg)[j - n]
              else DnsPlan(st, cfg)[j - n - 5];
    assert forall j | 0 <= j < |DnsPlan(st, cfg)| ::
      !DnsPlan(st, cfg)[j].cmd.DelUnreachable6? && !DnsPlan(st, cfg)[j].cmd.SetMtu?;
  }

  /** A successful Apply leaves the interface raised, and IPv6 blocked in each half the kernel did not refuse. */
  lemma ApplyRaises(base: Host, st: State, cfg: Config, faults: Faults)
    requires CreateTun(base, cfg.tun).Some?
    requires RunPlan(CreateTun(base, cfg.tun).value, ApplyPlan(st, cfg), faults, 0).ok
    ensures var h := CreateTun(base, cfg.tun).value;
      var g := Final(h, RunPlan(h, ApplyPlan(st, cfg), faults, 0).trace);
      && Raised(cfg, g)
      && (faults(|LinkPlan(cfg)| + 3) == Works ==> "::/1" in g.unreachable6)
      && (faults(|LinkPlan(cfg)| + 4) == Works ==> "8000::/1" in g.unreachable6)
  {
    hide Exec, RunPlan, ApplyPlan;
    var h := CreateTun(base, cfg.tun).value;
    var plan, n := ApplyPlan(st, cfg), |LinkPlan(cfg)|;
    PlanShape(st, cfg);
    var g0 := DoneStays(cfg.tun, h, plan, faults, 0, 0);
    CommandDoes(g0, plan[0].cmd, faults(0));
    if cfg.mtu > 0 {
      var g1 := DoneStays(cfg.tun, h, plan, faults, 0, 1);
      CommandDoes(g1, plan[1].cmd, faults(1));
    }
    var g2 := DoneStays(cfg.tun, h, plan, faults, 0, n - 1);
    CommandDoes(g2, plan[n - 1].cmd, faults(n - 1));
    var g3 := DoneStays(cfg.tun, h, plan, faults, 0, n + 3);
    CommandDoes(g3, plan[n + 3].cmd, faults(n + 3));
    var g4 := DoneStays(cfg.tun, h, plan, faults, 0, n + 4);
    CommandDoes(g4, plan[n + 4].cmd, faults(n + 4));
  }

  lemma CommandDoes(h: Host, cmd: Command, fault: Fault)
    ensures var o := Exec(h, cmd, fault);
      && (cmd.AddAddress? && o.ok ==> cmd.dev in o.host.ifaces && cmd.address in o.host.ifaces[cmd.dev].addresses)
      && (cmd.SetMtu? && o.ok ==> cmd.dev in o.host.ifaces && o.host.ifaces[cmd.dev].mtu == cmd.mtu)
      && (cmd.LinkUp? && o.ok ==> cmd.dev in o.host.ifaces && o.host.ifaces[cmd.dev].up)
      && (cmd.AddUnreachable6? && fault == Works ==> cmd.half in o.host.unreachable6)
  {
  }

  // ---- Undoing it ----

  /** The table without its first route to a prefix. */
  function Unpinned(t: Table, p: Prefix): Table {
    match Del(t, p, None)
    case Some(rest) => rest
    case None => t
  }

  lemma {:induction false} NoneLeaves(hops: seq<Hop>, dev: string)
    requires forall i | 0 <= i < |hops| :: hops[i].dev != dev
    ensures !exists i :: 0 <= i < |hops| && Leaves(hops[i], Some(dev))
  {
  }

  lemma UndoLower(base: Host, st: State, cfg: Config, f: Progress, h: Host)
    requires Snapped(base, st, cfg) && Mid(base, st, cfg, f, h)
    ensures var o := Exec(h, DelRoute(LOWER_HALF, Some(cfg.tun)), Works);
      Mid(base, st, cfg, f.(lower := false), o.host) && (o.ok <==> f.lower)
  {
    var pinned := if f.pin then Insert(base.routes, Pin(cfg), PinHop(st)) else base.routes;
    var bare := if f.upper then Insert(pinned, UPPER_HALF, TunHop(cfg)) else pinned;
    if f.lower {
      InsertsCommute(pinned, LOWER_HALF, TunHop(cfg), UPPER_HALF, TunHop(cfg));
      assert h.routes == Insert(bare, LOWER_HALF, TunHop(cfg));
      DelUndoesInsert(bare, LOWER_HALF, TunHop(cfg), Some(cfg.tun));
    } else {
      TakenHops(base.routes, st, cfg, f, LOWER_HALF);
      NoneLeaves(Hops(base.routes, LOWER_HALF), cfg.tun);
    }
  }

  lemma UndoUpper(base: Host, st: State, cfg: Config, f: Progress, h: Host)
    requires Snapped(base, st, cfg) && Mid(base, st, cfg, f, h) && !f.lower
    ensures var o := Exec(h, DelRoute(UPPER_HALF, Some(cfg.tun)), Works);
      Mid(base, st, cfg, f.(upper := false), o.host) && (o.ok <==> f.upper)
  {
    var pinned := if f.pin then Insert(base.routes, Pin(cfg), PinHop(st)) else base.routes;
    if f.upper {
      DelUndoesInsert(pinned, UPPER_HALF, TunHop(cfg), Some(cfg.tun));
    } else {
      TakenHops(base.routes, st, cfg, f, UPPER_HALF);
      NoneLeaves(Hops(base.routes, UPPER_HALF), cfg.tun);
    }
  }

  /** The pin is deleted by its prefix alone: ours if we added it, else whatever was there. */
  lemma UndoPin(base: Host, st: State, cfg: Config, pin: bool, h: Host)
    requires Snapped(base, st, cfg) && Mid(base, st, cfg, Progress(pin, false, false), h)
    ensures var o := Exec(h, DelRoute(Pin(cfg), None), Works);
      && o.host == h.(routes := if pin then base.routes else Unpinned(base.routes, Pin(cfg)))
      && (o.ok <==> pin || Hops(base.routes, Pin(cfg)) != [])
  {
    if pin {
      DelUndoesInsert(base.routes, Pin(cfg), PinHop(st), None);
    } else if Hops(h.routes, Pin(cfg)) != [] {
      assert Leaves(Hops(h.routes, Pin(cfg))[0], None);
    }
  }

  /** Everything the takeover could have touched is back, but for the two things Restore removes without
      having added them. */
  ghost predicate Undone(base: Host, st: State, cfg: Config, pin: bool, h: Host) {
    && h.routes == (if pin then base.routes else Unpinned(base.routes, Pin(cfg)))
    && h.unreachable6 == base.unreachable6 - V6_HALVES
    && h.resolv == base.resolv && h.elsewhere == base.elsewhere && h.resolvedAnswers == base.resolvedAnswers
    && h.ifaces - {cfg.tun} == base.ifaces && h.linkDns - {cfg.tun} == base.linkDns
  }

  lemma UndoV6(h: Host)
    ensures var one := Exec(h, DelUnreachable6("::/1"), Works).host;
      Exec(one, DelUnreachable6("8000::/1"), Works).host == h.(unreachable6 := h.unreachable6 - V6_HALVES)
      && one.routes == h.routes
  {
    var one := Exec(h, DelUnreachable6("::/1"), Works).host;
    var two := Exec(one, DelUnreachable6("8000::/1"), Works).host;
    assert one.unreachable6 == h.unreachable6 - {"::/1"};
    assert two.unreachable6 == h.unreachable6 - V6_HALVES;
  }

  lemma UndoDns(base: Host, st: State, cfg: Config, h: Host)
    requires Snapped(base, st, cfg)
    requires h.resolvedAnswers == base.resolvedAnswers && cfg.tun in h.ifaces
    requires h.resolv == base.resolv || (!st.resolved && !h.resolv.Link?)
    ensures var r := RunPlan(h, RestoreDnsPlan(st, cfg), NoFaults(), 5);
      && Final(h, r.trace) == h.(resolv := base.resolv,
                                 linkDns := if st.resolved then h.linkDns - {cfg.tun} else h.linkDns)
      && r.ok && r.problems == 0 && (forall g | g in r.trace :: g.routes == h.routes)
  {
    hide Snapshot, Exec, Effect;
    SnapshotDns(base, st, cfg);
    RestoredDns(h, cfg.tun);
    if st.resolved {
      RunOne(h, Act(ResolveRevert(cfg.tun), Noted), 5);
    } else if st.link != "" {
      var gone := h.(resolv := Absent);
      RunCons(h, Act(RemoveResolv, Quiet), [Act(SymlinkResolv(st.link), Noted)], NoFaults(), 5);
      RunOne(gone, Act(SymlinkResolv(st.link), Noted), 6);
      RestoredLink(gone, st.link);
    } else if st.previous.None? {
      RunOne(h, Act(RemoveResolv, Quiet), 5);
    } else {
      RunOne(h, Act(WriteResolv(st.previous.value), Noted), 5);
      RestoredFile(h, st.previous.value);
    }
  }

  lemma RunOne(h: Host, act: Act, k: nat)
    requires !act.kind.Fatal?
    ensures var o := Exec(h, act.cmd, Works);
      RunPlan(h, [act], NoFaults(), k) == Ran([o.host], true, if !o.ok && act.kind.Noted? then 1 else 0)
  {
    hide Exec;
    assert [act] + [] == [act];
    RunCons(h, act, [], NoFaults(), k);
  }

  lemma RestoredDns(h: Host, tun: string)
    requires tun in h.ifaces
    ensures h.resolvedAnswers ==>
      Exec(h, ResolveRevert(tun), Works) == Outcome(h.(linkDns := h.linkDns - {tun}), true)
    ensures Exec(h, RemoveResolv, Works).host == h.(resolv := Absent)
  {
  }

  lemma RestoredLink(h: Host, target: string)
    requires h.resolv.Absent?
    ensures Exec(h, SymlinkResolv(target), Works) == Outcome(h.(resolv := Link(target)), true)
  {
  }

  lemma RestoredFile(h: Host, contents: string)
    requires !h.resolv.Link?
    ensures Exec(h, WriteResolv(contents), Works) == Outcome(h.(resolv := File(contents)), true)
  {
  }

  lemma SnapshotDns(base: Host, st: State, cfg: Config)
    requires Snapped(base, st, cfg)
    ensures st.resolved == base.resolvedAnswers
    ensures !st.resolved ==> st.link == (if base.resolv.Link? then base.resolv.target else "")
    ensures !st.resolved && base.resolv.Absent? ==> st.previous == None
    ensures !st.resolved && base.resolv.File? ==> st.previous == Some(base.resolv.contents)
    ensures base.resolv.Link? ==> base.resolv.target != ""
  {
  }

  /** Restore as its commands one after the other. */
  lemma RestoreRun(h: Host, st: State, cfg: Config)
    ensures var p := RestorePlan(st, cfg);
      var o1 := Exec(h, p[0].cmd, Works);
      var o2 := Exec(o1.host, p[1].cmd, Works);
      var o3 := Exec(o2.host, p[2].cmd, Works);
      var o4 := Exec(o3.host, p[3].cmd, Works);
      var o5 := Exec(o4.host, p[4].cmd, Works);
      var rest := RunPlan(o5.host, RestoreDnsPlan(st, cfg), NoFaults(), 5);
      && RunPlan(h, p, NoFaults(), 0).trace == [o1.host, o2.host, o3.host, o4.host, o5.host] + rest.trace
      && RunPlan(h, p, NoFaults(), 0).ok == rest.ok
      && RunPlan(h, p, NoFaults(), 0).problems
         == rest.problems + (if o1.ok then 0 else 1) + (if o2.ok then 0 else 1) + (if o3.ok then 0 else 1)
  {
    hide Exec, RestoreDnsPlan, RunPlan;
    var p, dns := RestorePlan(st, cfg), RestoreDnsPlan(st, cfg);
    var h1 := Exec(h, p[0].cmd, Works).host;
    var h2 := Exec(h1, p[1].cmd, Works).host;
    var h3 := Exec(h2, p[2].cmd, Works).host;
    var h4 := Exec(h3, p[3].cmd, Works).host;
    RunCons(h4, p[4], dns, NoFaults(), 4);
    RunCons(h3, p[3], [p[4]] + dns, NoFaults(), 3);
    RunCons(h2, p[2], [p[3]] + ([p[4]] + dns), NoFaults(), 2);
    RunCons(h1, p[1], [p[2]] + ([p[3]] + ([p[4]] + dns)), NoFaults(), 1);
    RunCons(h, p[0], [p[1]] + ([p[2]] + ([p[3]] + ([p[4]] + dns))), NoFaults(), 0);
    assert p == [p[0]] + ([p[1]] + ([p[2]] + ([p[3]] + ([p[4]] + dns))));
  }

  ghost predicate EndpointOut(cfg: Config, h: Host) {
    Resolve(h.routes, cfg.endpoint).Some? ==> Resolve(h.routes, cfg.endpoint).value.dev != cfg.tun
  }

  lemma UnpinnedUnused(t: Table, p: Prefix, dev: string)
    requires ValidTable(t) && Unused(t, dev)
    ensures ValidTable(Unpinned(t, p)) && Unused(Unpinned(t, p), dev)
  {
    var hops := Hops(t, p);
    if hops != [] {
      assert Leaves(hops[0], None);
      assert Without(hops, None) == hops[1..];
    }
  }

  lemma PinIs(cfg: Config)
    ensures Pin(cfg) == Of(cfg.endpoint, 32)
  {
  }

  /** From wherever Apply stopped, Restore undoes it, and at none of its commands does the endpoint's
      address lead into the tunnel. The problems it reports are the routes it did not find, so none of a complete
      takeover. */
  lemma RestoreUndoes(base: Host, st: State, cfg: Config, f: Progress, h: Host)
    requires Snapped(base, st, cfg) && Mid(base, st, cfg, f, h)
    ensures var r := RunPlan(h, RestorePlan(st, cfg), NoFaults(), 0);
      && r.ok && Undone(base, st, cfg, f.pin, Final(h, r.trace))
      && (forall g | g in r.trace :: EndpointOut(cfg, g))
      && r.problems == (if f.lower then 0 else 1) + (if f.upper then 0 else 1)
                       + (if f.pin || Hops(base.routes, Of(cfg.endpoint, 32)) != [] then 0 else 1)
  {
    hide Exec, RunPlan, Resolve, Taken, Unpinned, Snapshot, Pin;
    var p := RestorePlan(st, cfg);
    PinIs(cfg);
    RestoreRun(h, st, cfg);
    UndoLower(base, st, cfg, f, h);
    var h1 := Exec(h, p[0].cmd, Works).host;
    UndoUpper(base, st, cfg, f.(lower := false), h1);
    var h2 := Exec(h1, p[1].cmd, Works).host;
    UndoPin(base, st, cfg, f.pin, h2);
    var h3 := Exec(h2, p[2].cmd, Works).host;
    UndoV6(h3);
    var h4 := Exec(h3, p[3].cmd, Works).host;
    var h5 := Exec(h4, p[4].cmd, Works).host;
    UndoDns(base, st, cfg, h5);
    EndpointStaysOut(base, st, cfg, h1);
    EndpointStaysOut(base, st, cfg, h2);
    UnpinnedUnused(base.routes, Pin(cfg), cfg.tun);
    ResolveUnused(h3.routes, cfg.endpoint, cfg.tun);
    assert h3.unreachable6 - V6_HALVES == base.unreachable6 - V6_HALVES;
    assert h5.linkDns - {cfg.tun} - {cfg.tun} == h5.linkDns - {cfg.tun};
  }

  /** What the machine is once the device is closed too. */
  lemma ClosedIs(base: Host, st: State, cfg: Config, pin: bool, h: Host)
    requires Snapped(base, st, cfg) && Undone(base, st, cfg, pin, h)
    ensures CloseTun(h, cfg.tun) == base.(
      routes := if pin then base.routes else Unpinned(base.routes, Pin(cfg)),
      unreachable6 := base.unreachable6 - V6_HALVES)
  {
    UnpinnedUnused(base.routes, Pin(cfg), cfg.tun);
    PurgeUnused(h.routes, cfg.tun);
  }

  /** Whether Apply got as far as adding its own route to the endpoint. */
  predicate Pinned(base: Host, cfg: Config, h: Host) {
    |Hops(h.routes, Pin(cfg))| > |Hops(base.routes, Pin(cfg))|
  }

  lemma MidPinned(base: Host, st: State, cfg: Config, f: Progress, h: Host)
    requires Mid(base, st, cfg, f, h)
    ensures Pinned(base, cfg, h) <==> f.pin
  {
    TakenHops(base.routes, st, cfg, f, Pin(cfg));
  }

  /** The end of a takeover undone: from Apply's last state, through Restore, to the device closed. */
  function Unwound(h: Host, st: State, cfg: Config): Host {
    CloseTun(Final(h, RunPlan(h, RestorePlan(st, cfg), NoFaults(), 0).trace), cfg.tun)
  }

  lemma UnpinnedIsSame(t: Table, p: Prefix)
    requires ValidTable(t)
    ensures Unpinned(t, p) == t <==> Hops(t, p) == []
  {
    var hops := Hops(t, p);
    if hops != [] {
      assert Leaves(hops[0], None) && Without(hops, None) == hops[1..];
      assert Hops(Unpinned(t, p), p) == hops[1..];
    }
  }

  /** The transaction, for every point at which Apply may have stopped: the machine is what it was exactly
      when it had no IPv6 half of its own, and either Apply added the pin itself or the machine had no
      route of its own to the endpoint. */
  lemma UnwoundIsBaseline(base: Host, st: State, cfg: Config, h: Host)
    requires Snapped(base, st, cfg) && Between(base, st, cfg, h)
    ensures Unwound(h, st, cfg) == base <==>
      base.unreachable6 !! V6_HALVES && (Pinned(base, cfg, h) || Hops(base.routes, Pin(cfg)) == [])
  {
    hide Mid, Undone, RunPlan, RestorePlan, Unpinned, Pin;
    var f :| Mid(base, st, cfg, f, h);
    RestoreUndoes(base, st, cfg, f, h);
    ClosedIs(base, st, cfg, f.pin, Final(h, RunPlan(h, RestorePlan(st, cfg), NoFaults(), 0).trace));
    MidPinned(base, st, cfg, f, h);
    UnpinnedIsSame(base.routes, Pin(cfg));
    assert base.unreachable6 - V6_HALVES == base.unreachable6 <==> base.unreachable6 !! V6_HALVES;
  }

  // ---- When undoing goes wrong ----

  lemma {:induction false} NothingFatalGoesOn(h: Host, plan: seq<Act>, faults: Faults, k: nat)
    requires forall i | 0 <= i < |plan| :: !plan[i].kind.Fatal?
    ensures RunPlan(h, plan, faults, k).ok && |RunPlan(h, plan, faults, k).trace| == |plan|
    decreases |plan|
  {
    hide Exec;
    if plan != [] {
      NothingFatalGoesOn(Exec(h, plan[0].cmd, faults(k)).host, plan[1..], faults, k + 1);
    }
  }

  /** Whatever fails, on whatever host, Restore goes on to its last command. */
  lemma RestoreGoesOn(h: Host, st: State, cfg: Config, faults: Faults)
    ensures RunPlan(h, RestorePlan(st, cfg), faults, 0).ok
    ensures |RunPlan(h, RestorePlan(st, cfg), faults, 0).trace| == |RestorePlan(st, cfg)|
  {
    NothingFatalGoesOn(h, RestorePlan(st, cfg), faults, 0);
  }

  function NotedIn(plan: seq<Act>): nat {
    if plan == [] then 0 else (if plan[0].kind.Noted? then 1 else 0) + NotedIn(plan[1..])
  }

  lemma {:induction false} AllFailing(h: Host, plan: seq<Act>, faults: Faults, k: nat)
    requires forall i | 0 <= i < |plan| :: !plan[i].kind.Fatal?
    requires forall i :: faults(i) == FailsBefore
    ensures RunPlan(h, plan, faults, k).problems == NotedIn(plan)
    decreases |plan|
  {
    if plan != [] {
      AllFailing(h, plan[1..], faults, k + 1);
    }
  }

  /** And where all of it fails it reports the two halves, the endpoint's route, and the resolver, unless all there was
      to undo of that was a file of its own. */
  lemma RestoreReports(h: Host, st: State, cfg: Config, faults: Faults)
    requires forall i :: faults(i) == FailsBefore
    ensures RunPlan(h, RestorePlan(st, cfg), faults, 0).problems
         == 3 + if st.resolved || st.link != "" || st.previous.Some? then 1 else 0
  {
    var plan := RestorePlan(st, cfg);
    AllFailing(h, plan, faults, 0);
    var dns := RestoreDnsPlan(st, cfg);
    assert NotedIn(dns) == if st.resolved || st.link != "" || st.previous.Some? then 1 else 0 by { NotedDns(st, cfg); }
    NotedRoutes(plan[..5], dns);
    assert plan == plan[..5] + dns;
  }

  lemma NotedDns(st: State, cfg: Config)
    ensures NotedIn(RestoreDnsPlan(st, cfg)) == if st.resolved || st.link != "" || st.previous.Some? then 1 else 0
  {
    var plan := RestoreDnsPlan(st, cfg);
    NotedNone();
    if |plan| == 2 {
      assert plan[1..] == [plan[1]] && [plan[1]][1..] == [];
      assert NotedIn([plan[1]]) == 1 + NotedIn([]);
    } else {
      assert plan[1..] == [];
    }
  }

  lemma NotedNone()
    ensures NotedIn([]) == 0
  {
  }

  lemma NotedRoutes(first: seq<Act>, dns: seq<Act>)
    requires |first| == 5
    ensures NotedIn(first + dns) == NotedIn(dns)
      + (if first[0].kind.Noted? then 1 else 0) + (if first[1].kind.Noted? then 1 else 0)
      + (if first[2].kind.Noted? then 1 else 0) + (if first[3].kind.Noted? then 1 else 0)
      + (if first[4].kind.Noted? then 1 else 0)
  {
    var p := first + dns;
    assert p[1..][1..] == p[2..] && p[2..][1..] == p[3..] && p[3..][1..] == p[4..] && p[4..][1..] == p[5..];
    assert p[5..] == dns;
    assert NotedIn(p[4..]) == (if first[4].kind.Noted? then 1 else 0) + NotedIn(dns);
    assert NotedIn(p[3..]) == (if first[3].kind.Noted? then 1 else 0) + NotedIn(p[4..]);
    assert NotedIn(p[2..]) == (if first[2].kind.Noted? then 1 else 0) + NotedIn(p[3..]);
  }

  // ---- When nothing goes wrong ----

  lemma FinalCons(h: Host, g: Host, trace: seq<Host>)
    ensures Final(h, [g] + trace) == Final(g, trace)
  {
  }

  lemma RunNothing(h: Host, faults: Faults, k: nat)
    ensures RunPlan(h, [], faults, k) == Ran([], true, 0) && Final(h, []) == h
  {
  }

  lemma {:induction false} RunConcat(h: Host, a: seq<Act>, b: seq<Act>, faults: Faults, k: nat)
    requires RunPlan(h, a, faults, k).ok
    ensures var first, whole := RunPlan(h, a, faults, k), RunPlan(h, a + b, faults, k);
      var rest := RunPlan(Final(h, first.trace), b, faults, k + |a|);
      whole.ok == rest.ok && Final(h, whole.trace) == Final(Final(h, first.trace), rest.trace)
    decreases |a|
  {
    hide Exec, RunPlan, Final;
    if a == [] {
      RunNothing(h, faults, k);
      assert a + b == b;
    } else {
      var o := Exec(h, a[0].cmd, faults(k));
      RunCons(h, a[0], a[1..], faults, k);
      RunCons(h, a[0], a[1..] + b, faults, k);
      assert [a[0]] + a[1..] == a && [a[0]] + (a[1..] + b) == a + b;
      RunConcat(o.host, a[1..], b, faults, k + 1);
      FinalCons(h, o.host, RunPlan(o.host, a[1..], faults, k + 1).trace);
      FinalCons(h, o.host, RunPlan(o.host, a[1..] + b, faults, k + 1).trace);
    }
  }

  /** A sequence whose first command fails for good has failed. */
  lemma RunFront(h: Host, a: seq<Act>, b: seq<Act>, faults: Faults)
    requires !RunPlan(h, a, faults, 0).ok
    ensures !RunPlan(h, a + b, faults, 0).ok
  {
    assert (a + b)[..|a|] == a;
    RunEnded(h, a + b, |a|, faults, 0);
  }

  /** One command, met by nothing but the host itself. */
  lemma RunOneWorks(h: Host, act: Act, k: nat)
    ensures var r, g := RunPlan(h, [act], NoFaults(), k), Effect(h, act.cmd);
      && (r.ok <==> g.Some? || !act.kind.Fatal?)
      && Final(h, r.trace) == if g.Some? then g.value else h
  {
    hide Effect;
    assert [act][1..] == [];
  }

  /** Nothing keeps a route to this prefix out: the lowest metric there is above that of the route to come. */
  predicate Open(t: Table, p: Prefix) {
    Hops(t, p) == [] || Hops(t, p)[0].metric > 0
  }

  /** Nothing that was run so far ended the sequence, and it left this host. */
  ghost predicate RanTo(h: Host, plan: seq<Act>, g: Host) {
    RunPlan(h, plan, NoFaults(), 0).ok && Final(h, RunPlan(h, plan, NoFaults(), 0).trace) == g
  }

  /** One command more: it goes on unless the command is fatal and the host refuses it. */
  lemma OneMoreRuns(h: Host, plan: seq<Act>, g: Host, act: Act)
    requires RanTo(h, plan, g)
    ensures Effect(g, act.cmd).Some? ==> RanTo(h, plan + [act], Effect(g, act.cmd).value)
    ensures Effect(g, act.cmd).None? && !act.kind.Fatal? ==> RanTo(h, plan + [act], g)
    ensures Effect(g, act.cmd).None? && act.kind.Fatal? ==> !RunPlan(h, plan + [act], NoFaults(), 0).ok
  {
    hide Effect, RunPlan, Final;
    RunConcat(h, plan, [act], NoFaults(), 0);
    RunOneWorks(g, act, |plan|);
  }

  /** What Apply needs of the machine, nothing else going wrong: the way to the gateway is up, no route of metric zero
      stands where its own three go, and without resolved every server is an address. */
  ghost predicate Ready(base: Host, st: State, cfg: Config) {
    && st.dev in base.ifaces && base.ifaces[st.dev].up
    && Open(base.routes, Pin(cfg)) && Open(base.routes, LOWER_HALF) && Open(base.routes, UPPER_HALF)
    && (!st.resolved ==> forall i | 0 <= i < |cfg.dns| :: cfg.dns[i].isAddress)
  }

  lemma EmptyRan(h: Host)
    ensures RanTo(h, [], h)
  {
  }

  /** A command about the interface does it, and touches nothing else. */
  lemma IfaceGoesOn(h: Host, plan: seq<Act>, g: Host, act: Act, tun: string) returns (more: Host)
    requires RanTo(h, plan, g) && tun in g.ifaces
    requires act.cmd.SetMtu? || act.cmd.LinkUp? || (act.cmd.AddAddress? && g.ifaces[tun].addresses == {})
    requires act.cmd.dev == tun
    ensures RanTo(h, plan + [act], more) && tun in more.ifaces
    ensures more == g.(ifaces := g.ifaces[tun := more.ifaces[tun]])
    ensures act.cmd.LinkUp? ==> more.ifaces[tun].up
  {
    hide RanTo, RunPlan;
    OneMoreRuns(h, plan, g, act);
    more := Effect(g, act.cmd).value;
  }

  lemma LinkRuns(base: Host, cfg: Config) returns (g: Host)
    requires CreateTun(base, cfg.tun).Some?
    ensures RanTo(CreateTun(base, cfg.tun).value, LinkPlan(cfg), g)
    ensures g.(ifaces := base.ifaces) == base && g.ifaces - {cfg.tun} == base.ifaces
    ensures cfg.tun in g.ifaces && g.ifaces[cfg.tun].up
  {
    hide RanTo;
    var h := CreateTun(base, cfg.tun).value;
    EmptyRan(h);
    var address, up := Act(AddAddress(cfg.tun, cfg.address + "/32"), Fatal), Act(LinkUp(cfg.tun), Fatal);
    g := IfaceGoesOn(h, [], h, address, cfg.tun);
    var plan := [] + [address];
    if cfg.mtu > 0 {
      g := IfaceGoesOn(h, plan, g, Act(SetMtu(cfg.tun, cfg.mtu), Fatal), cfg.tun);
      plan := plan + [Act(SetMtu(cfg.tun, cfg.mtu), Fatal)];
    }
    g := IfaceGoesOn(h, plan, g, up, cfg.tun);
    assert plan + [up] == LinkPlan(cfg);
  }

  ghost predicate WayReady(st: State, g: Host) {
    st.dev in g.ifaces && g.ifaces[st.dev].up
  }

  /** One route goes in where its interface is up and nothing keeps it out, and ends the sequence otherwise. */
  lemma RouteGoesIn(h: Host, plan: seq<Act>, g: Host, act: Act)
    requires RanTo(h, plan, g) && act.cmd.AddRoute? && act.kind.Fatal?
    ensures var into := g.(routes := Insert(g.routes, act.cmd.prefix, Hop(act.cmd.via, act.cmd.dev, 0)));
      if act.cmd.dev in g.ifaces && g.ifaces[act.cmd.dev].up && Open(g.routes, act.cmd.prefix)
      then RanTo(h, plan + [act], into) else !RunPlan(h, plan + [act], NoFaults(), 0).ok
  {
    hide RanTo, RunPlan, Insert;
    OneMoreRuns(h, plan, g, act);
  }

  lemma HalfGoesIn(h: Host, plan: seq<Act>, g: Host, act: Act) returns (last: Host)
    requires RanTo(h, plan, g) && act.cmd.AddUnreachable6? && act.kind.Quiet?
    ensures RanTo(h, plan + [act], last) && last == g.(unreachable6 := last.unreachable6)
  {
    hide RanTo, RunPlan;
    OneMoreRuns(h, plan, g, act);
    last := if Effect(g, act.cmd).Some? then Effect(g, act.cmd).value else g;
  }

  lemma OpenStays(t: Table, p: Prefix, h: Hop, q: Prefix)
    requires p != q
    ensures Open(Insert(t, p, h), q) <==> Open(t, q)
  {
  }

  lemma PrefixesDiffer(cfg: Config)
    ensures Pin(cfg) != LOWER_HALF && Pin(cfg) != UPPER_HALF && LOWER_HALF != UPPER_HALF
  {
    hide Pow2;
  }

  /** The three routes go in one after the other, and what becomes of the IPv6 halves stops nothing. */
  lemma RoutesRun(h: Host, plan: seq<Act>, g: Host, st: State, cfg: Config) returns (last: Host)
    requires RanTo(h, plan, g) && cfg.tun in g.ifaces && g.ifaces[cfg.tun].up
    ensures var open := WayReady(st, g) && Open(g.routes, Pin(cfg)) && Open(g.routes, LOWER_HALF)
                        && Open(g.routes, UPPER_HALF);
      if open then RanTo(h, plan + RoutePlan(st, cfg), last)
      else !RunPlan(h, plan + RoutePlan(st, cfg), NoFaults(), 0).ok
    ensures last.ifaces == g.ifaces && last.resolv == g.resolv && last.resolvedAnswers == g.resolvedAnswers
  {
    hide RunPlan, Final, RanTo, Insert, Open, Pin;
    var r := RoutePlan(st, cfg);
    var p1 := plan + [r[0]];
    var p2 := p1 + [r[1]];
    var p3 := p2 + [r[2]];
    assert plan + r == p1 + [r[1], r[2], r[3], r[4]] == p2 + [r[2], r[3], r[4]] == p3 + [r[3], r[4]]
        == p3 + [r[3]] + [r[4]];
    PrefixesDiffer(cfg);
    last := g;
    RouteGoesIn(h, plan, g, r[0]);
    if !WayReady(st, g) || !Open(g.routes, Pin(cfg)) {
      RunFront(h, p1, [r[1], r[2], r[3], r[4]], NoFaults());
      return;
    }
    var pin, low, high := Hop(st.gateway, st.dev, 0), Hop("", cfg.tun, 0), Hop("", cfg.tun, 0);
    var g1 := g.(routes := Insert(g.routes, Pin(cfg), pin));
    OpenStays(g.routes, Pin(cfg), pin, LOWER_HALF);
    OpenStays(g.routes, Pin(cfg), pin, UPPER_HALF);
    RouteGoesIn(h, p1, g1, r[1]);
    if !Open(g.routes, LOWER_HALF) {
      RunFront(h, p2, [r[2], r[3], r[4]], NoFaults());
      return;
    }
    var g2 := g1.(routes := Insert(g1.routes, LOWER_HALF, low));
    OpenStays(g1.routes, LOWER_HALF, low, UPPER_HALF);
    RouteGoesIn(h, p2, g2, r[2]);
    if !Open(g.routes, UPPER_HALF) {
      RunFront(h, p3, [r[3], r[4]], NoFaults());
      return;
    }
    var g3 := g2.(routes := Insert(g2.routes, UPPER_HALF, high));
    var g4 := HalfGoesIn(h, p3, g3, r[3]);
    last := HalfGoesIn(h, p3 + [r[3]], g4, r[4]);
  }

  /** The resolver is told where every server is an address or resolved answers. */
  lemma DnsRuns(h: Host, plan: seq<Act>, g: Host, st: State, cfg: Config)
    requires RanTo(h, plan, g) && cfg.tun in g.ifaces && g.resolvedAnswers == st.resolved
    requires st.link != "" ==> !g.resolv.Absent?
    ensures RunPlan(h, plan + DnsPlan(st, cfg), NoFaults(), 0).ok <==>
      st.resolved || forall i | 0 <= i < |cfg.dns| :: cfg.dns[i].isAddress
  {
    hide RunPlan, Final, RanTo, Texts, ResolvText;
    if cfg.dns == [] {
      assert plan + [] == plan;
      RanIsOk(h, plan, g);
    } else if st.resolved {
      var servers, every := Act(ResolveDns(cfg.tun, Texts(cfg.dns)), Fatal), Act(ResolveEverything(cfg.tun), Fatal);
      OneMoreRuns(h, plan, g, servers);
      var g1 := Effect(g, servers.cmd).value;
      OneMoreRuns(h, plan + [servers], g1, every);
      assert plan + DnsPlan(st, cfg) == plan + [servers] + [every];
      RanIsOk(h, plan + [servers] + [every], Effect(g1, every.cmd).value);
    } else if exists i :: 0 <= i < |cfg.dns| && !cfg.dns[i].isAddress {
      OneMoreRuns(h, plan, g, Act(Refuse, Fatal));
    } else {
      var remove, write := Act(RemoveResolv, Fatal), Act(WriteResolv(ResolvText(cfg.dns)), Fatal);
      var p, g1 := plan, g;
      if st.link != "" {
        OneMoreRuns(h, plan, g, remove);
        p, g1 := plan + [remove], Effect(g, remove.cmd).value;
      }
      OneMoreRuns(h, p, g1, write);
      assert plan + DnsPlan(st, cfg) == p + [write];
      RanIsOk(h, p + [write], Effect(g1, write.cmd).value);
    }
  }

  lemma RanIsOk(h: Host, plan: seq<Act>, g: Host)
    requires RanTo(h, plan, g)
    ensures RunPlan(h, plan, NoFaults(), 0).ok
  {
  }

  /** With nothing else going wrong a takeover succeeds exactly on a machine that is ready for it. */
  lemma ApplySucceedsExactly(base: Host, st: State, cfg: Config)
    requires Snapped(base, st, cfg) && CreateTun(base, cfg.tun).Some?
    ensures RunPlan(CreateTun(base, cfg.tun).value, ApplyPlan(st, cfg), NoFaults(), 0).ok <==> Ready(base, st, cfg)
  {
    hide RunPlan, Final, RanTo, LinkPlan, RoutePlan, DnsPlan, CreateTun;
    var h := CreateTun(base, cfg.tun).value;
    var g := LinkRuns(base, cfg);
    var last := RoutesRun(h, LinkPlan(cfg), g, st, cfg);
    DevIsItsOwn(base, st, cfg);
    var front := LinkPlan(cfg) + RoutePlan(st, cfg);
    if WayReady(st, g) && Open(g.routes, Pin(cfg)) && Open(g.routes, LOWER_HALF) && Open(g.routes, UPPER_HALF) {
      DnsRuns(h, front, last, st, cfg);
    } else {
      RunFront(h, front, DnsPlan(st, cfg), NoFaults());
    }
  }

  /** The way to the gateway is no part of the tunnel. */
  lemma DevIsItsOwn(base: Host, st: State, cfg: Config)
    requires Snapped(base, st, cfg)
    ensures st.dev != cfg.tun && st.resolved == base.resolvedAnswers && (st.link != "" ==> base.resolv.Link?)
  {
    assert Prefix(0, 0) in base.routes;
  }
}
