/** A node as a subscription delivers it, made into the same configuration a .conf gives. */
module AwgEndpoint {
  import opened Wrappers
  import opened Strings
  import opened AwgConfig
  import opened AwgUapi

  const ENDPOINT_TYPE: string := "amneziawg"

  datatype EndpointPeer = EndpointPeer(
    address: string,
    port: int,
    publicKey: string,
    preSharedKey: string,
    allowedIPs: seq<string>,
    keepalive: int
  )

  /** A scalar that did not arrive is empty, or not in the map. */
  datatype Endpoint = Endpoint(
    kind: string,
    address: seq<string>,
    privateKey: string,
    mtu: int,
    dns: seq<string>,
    peers: seq<EndpointPeer>,
    scalars: map<Param, string>
  )

  // ---- The endpoint's own way to a configuration ----

  function AddList(addrs: Option<seq<Addr>>, entry: string, read: AddrReader): Option<seq<Addr>> {
    match addrs
    case None => None
    case Some(before) =>
      match ParseAddrList(entry, read)
      case Some(more) => Some(before + more)
      case None => None
  }

  function AddLists(entries: seq<string>, read: AddrReader): Option<seq<Addr>> {
    if entries == [] then Some([])
    else AddList(AddLists(entries[..|entries| - 1], read), entries[|entries| - 1], read)
  }

  predicate Set(scalars: map<Param, string>, p: Param) {
    p in scalars && scalars[p] != ""
  }

  predicate Readable(p: Param, value: string) {
    p.HeaderProtectionKey? ==> KeyToHex(value).Some?
  }

  function Stored(p: Param, value: string): string
    requires Readable(p, value)
  {
    if p.HeaderProtectionKey? then KeyToHex(value).value else value
  }

  predicate ScalarsReadable(scalars: map<Param, string>) {
    forall p | p in scalars :: Set(scalars, p) ==> Readable(p, scalars[p])
  }

  function Obfuscation(scalars: map<Param, string>): map<Param, string>
    requires ScalarsReadable(scalars)
  {
    map p | p in scalars && Set(scalars, p) :: Stored(p, scalars[p])
  }

  function JoinHostPort(host: string, port: int): string {
    if ':' in host && !(host != "" && host[0] == '[') then "[" + host + "]:" + Itoa(port) else host + ":" + Itoa(port)
  }

  function InterfaceOf(e: Endpoint, read: AddrReader): Option<Config> {
    match (KeyToHex(e.privateKey), AddLists(e.address, read), AddLists(e.dns, read))
    case (Some(key), Some(addresses), Some(dns)) =>
      if ScalarsReadable(e.scalars)
      then Some(Config(key, addresses, if e.mtu > 0 then e.mtu else 1420, dns, Obfuscation(e.scalars), EMPTY.peer))
      else None
    case _ => None
  }

  /** No allowed addresses means all of IPv4. */
  function AllowedOf(p: EndpointPeer): seq<string> {
    if p.allowedIPs == [] then ["0.0.0.0/0"] else p.allowedIPs
  }

  function PeerOf(p: EndpointPeer): Option<Peer> {
    match KeyToHex(p.publicKey)
    case None => None
    case Some(key) =>
      if p.preSharedKey != "" && KeyToHex(p.preSharedKey).None? then None
      else
        var shared := if p.preSharedKey != "" then KeyToHex(p.preSharedKey).value else "";
        Some(Peer(key, shared, JoinHostPort(p.address, p.port), AllowedOf(p), p.keepalive))
  }

  function ConfigOf(e: Endpoint, read: AddrReader): Option<Config> {
    if (e.kind != "" && e.kind != ENDPOINT_TYPE) || |e.peers| != 1 then None
    else if e.peers[0].address == "" || e.peers[0].port == 0 then None
    else
      match (InterfaceOf(e, read), PeerOf(e.peers[0]))
      case (Some(c), Some(p)) => if c.addresses == [] then None else Some(c.(peer := p))
      case _ => None
  }

  // ---- As the program runs it ----

  method ReadLists(entries: seq<string>, read: AddrReader) returns (addrs: Option<seq<Addr>>)
    ensures addrs == AddLists(entries, read)
  {
    hide ParseAddrList;
    var list := [];
    for i := 0 to |entries|
      invariant AddLists(entries[..i], read) == Some(list)
    {
      assert entries[..i + 1][..i] == entries[..i];
      var more := ReadAddrList(entries[i], read);
      if more.None? {
        ListsStayNone(entries, i + 1, read);
        return None;
      }
      list := list + more.value;
    }
    assert entries[..|entries|] == entries;
    return Some(list);
  }

  lemma {:induction false} ListsStayNone(entries: seq<string>, n: nat, read: AddrReader)
    requires n <= |entries| && AddLists(entries[..n], read).None?
    ensures AddLists(entries, read).None?
    decreases |entries|
  {
    hide ParseAddrList;
    if n == |entries| {
      assert entries[..n] == entries;
    } else {
      assert entries[..|entries| - 1][..n] == entries[..n];
      ListsStayNone(entries[..|entries| - 1], n, read);
    }
  }

  method EndpointConfig(e: Endpoint, read: AddrReader) returns (r: Option<Config>)
    ensures r == ConfigOf(e, read)
  {
    hide KeyToHex, AddLists, PeerOf, ScalarsReadable, Obfuscation;
    if e.kind != "" && e.kind != ENDPOINT_TYPE { return None; }
    if |e.peers| == 0 { return None; }
    if |e.peers| > 1 { return None; }
    var cfg := new MutableConfig();
    if e.mtu > 0 { cfg.mtu := e.mtu; }
    var privateKey := KeyToHex(e.privateKey);
    if privateKey.None? { return None; }
    cfg.privateKey := privateKey.value;
    if |e.address| == 0 {
      NoEntries(read);
      return None;
    }
    var addresses := ReadLists(e.address, read);
    if addresses.None? { return None; }
    cfg.addresses := addresses.value;
    if |cfg.addresses| == 0 { return None; }
    var dns := ReadLists(e.dns, read);
    if dns.None? { return None; }
    cfg.dns := dns.value;
    var peer := EndpointPeerConfig(e.peers[0]);
    if peer.None? { return None; }
    cfg.peer := peer.value;
    var ok := SetScalars(cfg, e.scalars);
    if !ok { return None; }
    return Some(Config(cfg.privateKey, cfg.addresses, cfg.mtu, cfg.dns, cfg.obfuscation, cfg.peer));
  }

  lemma NoEntries(read: AddrReader)
    ensures AddLists([], read) == Some([])
  {
  }

  method EndpointPeerConfig(p: EndpointPeer) returns (peer: Option<Peer>)
    ensures peer == if p.address == "" || p.port == 0 then None else PeerOf(p)
  {
    hide KeyToHex, Itoa;
    var r := EMPTY.peer;
    var publicKey := KeyToHex(p.publicKey);
    if publicKey.None? { return None; }
    r := r.(publicKey := publicKey.value);
    if p.preSharedKey != "" {
      var presharedKey := KeyToHex(p.preSharedKey);
      if presharedKey.None? { return None; }
      r := r.(presharedKey := presharedKey.value);
    }
    if p.address == "" || p.port == 0 { return None; }
    r := r.(endpoint := JoinHostPort(p.address, p.port), allowedIPs := p.allowedIPs);
    if |r.allowedIPs| == 0 {
      r := r.(allowedIPs := ["0.0.0.0/0"]);
    }
    return Some(r.(keepalive := p.keepalive));
  }

  /** A range over a map: the parameters come in any order, and the outcome does not depend on it. */
  method SetScalars(cfg: MutableConfig, scalars: map<Param, string>) returns (ok: bool)
    requires cfg.obfuscation == map[]
    modifies cfg
    ensures ok == ScalarsReadable(scalars)
    ensures ok ==> cfg.View() == old(cfg.View()).(obfuscation := Obfuscation(scalars))
  {
    hide KeyToHex;
    var todo := scalars.Keys;
    while todo != {}
      invariant todo <= scalars.Keys
      invariant forall p | p in scalars && p !in todo && Set(scalars, p) :: Readable(p, scalars[p])
      invariant forall p :: p in cfg.obfuscation <==> p in scalars && p !in todo && Set(scalars, p)
      invariant forall p | p in cfg.obfuscation :: cfg.obfuscation[p] == Stored(p, scalars[p])
      invariant cfg.View() == old(cfg.View()).(obfuscation := cfg.obfuscation)
    {
      var p :| p in todo;
      todo := todo - {p};
      if scalars[p] == "" {
        continue;
      }
      ok := cfg.SetParam(p, scalars[p]);
      if !ok {
        assert Set(scalars, p) && !Readable(p, scalars[p]);
        return;
      }
    }
    ok := true;
  }

  // ---- What its fields become ----

  /** The parts of all the entries, each entry a list cut at its commas. */
  function AllParts(entries: seq<string>): seq<string> {
    if entries == [] then []
    else AllParts(entries[..|entries| - 1]) + Kept(Split(entries[|entries| - 1], ','))
  }

  lemma ReadAsConcat(a: seq<string>, b: seq<string>, addrs: seq<Addr>, read: AddrReader)
    ensures ReadAs(a + b, addrs, read) <==>
      |a| <= |addrs| && ReadAs(a, addrs[..|a|], read) && ReadAs(b, addrs[|a|..], read)
  {
    if ReadAs(a + b, addrs, read) {
      assert forall i | 0 <= i < |a| :: (a + b)[i] == a[i];
      assert forall i | 0 <= i < |b| :: (a + b)[|a| + i] == b[i] && addrs[|a|..][i] == addrs[|a| + i];
    }
    if |a| <= |addrs| && ReadAs(a, addrs[..|a|], read) && ReadAs(b, addrs[|a|..], read) {
      forall i | 0 <= i < |a + b|
        ensures read((a + b)[i]) == Some(addrs[i])
      {
        if i >= |a| {
          assert read(b[i - |a|]) == Some(addrs[|a|..][i - |a|]);
        } else {
          assert read(a[i]) == Some(addrs[..|a|][i]);
        }
      }
    }
  }

  /** The entries read as these addresses exactly when all their parts do, one by one. */
  lemma {:induction false} ListsExactly(entries: seq<string>, addrs: seq<Addr>, read: AddrReader)
    ensures AddLists(entries, read) == Some(addrs) <==> ReadAs(AllParts(entries), addrs, read)
  {
    hide ParseAddrList, Kept, Split, ReadAs;
    if entries == [] {
      NothingReadAs(addrs, read);
    } else {
      var n := |entries| - 1;
      var before, last := AllParts(entries[..n]), Kept(Split(entries[n], ','));
      ReadAsConcat(before, last, addrs, read);
      forall a
        ensures AddLists(entries[..n], read) == Some(a) <==> ReadAs(before, a, read)
        ensures ParseAddrList(entries[n], read) == Some(a) <==> ReadAs(last, a, read)
      {
        ListsExactly(entries[..n], a, read);
        ListExactly(entries[n], a, read);
      }
      if AddLists(entries, read) == Some(addrs) {
        var a, b := AddLists(entries[..n], read).value, ParseAddrList(entries[n], read).value;
        ReadAsLength(before, a, read);
        assert addrs == a + b && addrs[..|before|] == a && addrs[|before|..] == b;
      }
      if ReadAs(before + last, addrs, read) {
        assert addrs == addrs[..|before|] + addrs[|before|..];
      }
    }
  }

  lemma NothingReadAs(addrs: seq<Addr>, read: AddrReader)
    ensures ReadAs([], addrs, read) <==> addrs == []
  {
  }

  lemma ReadAsLength(parts: seq<string>, addrs: seq<Addr>, read: AddrReader)
    requires ReadAs(parts, addrs, read)
    ensures |addrs| == |parts|
  {
  }

  /** Each field of a configuration is that of the endpoint: its keys as hex, all its addresses and servers in order,
      its own MTU and allowed addresses or the defaults, its keepalive, and of its parameters those that are not
      empty, as they are but for the one that is a key. */
  lemma FieldsConverted(e: Endpoint, read: AddrReader)
    requires ConfigOf(e, read).Some?
    ensures |e.peers| == 1
    ensures var c, far := ConfigOf(e, read).value, e.peers[0];
      && Some(c.privateKey) == KeyToHex(e.privateKey) && Some(c.peer.publicKey) == KeyToHex(far.publicKey)
      && (if far.preSharedKey == "" then c.peer.presharedKey == ""
          else Some(c.peer.presharedKey) == KeyToHex(far.preSharedKey))
      && c.addresses != [] && ReadAs(AllParts(e.address), c.addresses, read) && ReadAs(AllParts(e.dns), c.dns, read)
      && c.mtu == (if e.mtu <= 0 then 1420 else e.mtu) && c.peer.keepalive == far.keepalive
      && c.peer.allowedIPs == (if far.allowedIPs == [] then ["0.0.0.0/0"] else far.allowedIPs)
      && ('[' !in far.address && ']' !in far.address ==>
            SplitHostPort(c.peer.endpoint) == Some((far.address, Itoa(far.port))))
      && (forall p :: p in c.obfuscation <==> p in e.scalars && e.scalars[p] != "")
      && (forall p | p in c.obfuscation ::
            if p == HeaderProtectionKey then KeyToHex(e.scalars[p]) == Some(c.obfuscation[p])
            else c.obfuscation[p] == e.scalars[p])
  {
    hide KeyToHex, AddLists, JoinHostPort, ReadAs, AllParts, SplitHostPort;
    var far := e.peers[0];
    if AddLists(e.address, read).Some? {
      ListsExactly(e.address, AddLists(e.address, read).value, read);
    }
    if AddLists(e.dns, read).Some? {
      ListsExactly(e.dns, AddLists(e.dns, read).value, read);
    }
    if '[' !in far.address && ']' !in far.address {
      JoinedComesApart(far.address, far.port);
    }
  }

  // ---- The endpoint's host and port ----

  /** Where the character last is, or -1. */
  function LastIndex(s: string, c: char): (i: int)
    ensures -1 <= i < |s| && (i >= 0 ==> s[i] == c) && c !in s[i + 1..]
  {
    if s == "" then -1 else if s[|s| - 1] == c then |s| - 1 else LastIndex(s[..|s| - 1], c)
  }

  /** net.SplitHostPort, by which whoever uses an endpoint takes it apart: the port is behind the last colon, and a
      host with colons of its own stands in brackets. */
  function SplitHostPort(s: string): Option<(string, string)> {
    var i := LastIndex(s, ':');
    if i < 0 then None
    else if s[0] == '[' then
      var end := Index(s, ']');
      if end + 1 != i || '[' in s[1..] || ']' in s[end + 1..] then None else Some((s[1..end], s[i + 1..]))
    else if ':' in s[..i] || '[' in s || ']' in s then None
    else Some((s[..i], s[i + 1..]))
  }

  lemma {:induction false} LastIndexIs(a: string, c: char, b: string)
    requires c !in b
    ensures LastIndex(a + [c] + b, c) == |a|
    decreases |b|
  {
    var s := a + [c] + b;
    if b != "" {
      assert s[..|s| - 1] == a + [c] + b[..|b| - 1] && s[|s| - 1] == b[|b| - 1];
      LastIndexIs(a, c, b[..|b| - 1]);
    }
  }

  /** Host and port, joined, come apart as they were, a host in brackets without them: an address or a name, and an
      IPv6 address with or without brackets of its own. */
  lemma JoinedComesApart(host: string, port: int)
    requires '[' !in host && ']' !in host
    ensures SplitHostPort(JoinHostPort(host, port)) == Some((host, Itoa(port)))
    ensures ':' in host ==> SplitHostPort(JoinHostPort("[" + host + "]", port)) == Some((host, Itoa(port)))
  {
    hide Itoa;
    ItoaPlain(port);
    if ':' !in host {
      PlainComesApart(host, Itoa(port));
    }
    BracketsComeApart(host, Itoa(port));
    assert "[" + host + "]" + ":" + Itoa(port) == "[" + host + "]:" + Itoa(port);
    assert ("[" + host + "]")[0] == '[';
    assert host != "" ==> host[0] in host;
  }

  lemma PlainComesApart(host: string, port: string)
    requires '[' !in host && ']' !in host && ':' !in host && ':' !in port && '[' !in port && ']' !in port
    ensures SplitHostPort(host + ":" + port) == Some((host, port))
  {
    var s := host + ":" + port;
    LastIndexIs(host, ':', port);
    assert s == host + [':'] + port && s[..|host|] == host && s[|host| + 1..] == port;
    assert s[0] != '[';
  }

  lemma BracketsComeApart(host: string, port: string)
    requires '[' !in host && ']' !in host && ':' !in port && '[' !in port && ']' !in port
    ensures SplitHostPort("[" + host + "]:" + port) == Some((host, port))
  {
    var s := "[" + host + "]:" + port;
    LastIndexIs("[" + host + "]", ':', port);
    assert s == "[" + host + "]" + [':'] + port;
    IndexIs("[" + host, ']', ":" + port);
    assert s == "[" + host + [']'] + (":" + port);
    assert s[1..|host| + 1] == host && s[|host| + 3..] == port;
    assert s[1..] == host + "]:" + port && s[|host| + 2..] == ":" + port;
  }

  // ---- What the device is told of it ----

  /** Nothing of the endpoint that reaches the device as text spans lines. A key always reaches it as hex. */
  ghost predicate Tellable(e: Endpoint)
    requires |e.peers| == 1
  {
    && OneLine(e.peers[0].address)
    && (forall i | 0 <= i < |e.peers[0].allowedIPs| :: OneLine(e.peers[0].allowedIPs[i]))
    && (forall p | p in e.scalars && Set(e.scalars, p) && !p.HeaderProtectionKey? ::
          OneLine(UapiValue(p, e.scalars[p])))
  }

  lemma HexIsOneLine(hex: string)
    requires Hexadecimal(hex)
    ensures OneLine(hex)
  {
    assert !('0' <= '\n' <= '9') && !('a' <= '\n' <= 'f');
  }

  lemma KeyIsOneLine(value: string)
    ensures KeyToHex(value).Some? ==> OneLine(KeyToHex(value).value)
  {
    hide KeyToHex, OneLine, Hexadecimal;
    if KeyToHex(value).Some? {
      HexIsOneLine(KeyToHex(value).value);
    }
  }

  lemma JoinedIsOneLine(host: string, port: int)
    ensures OneLine(JoinHostPort(host, port)) <==> OneLine(host)
  {
    hide Itoa;
    ItoaPlain(port);
    var digits := Itoa(port);
    assert host <= JoinHostPort(host, port) || host <= JoinHostPort(host, port)[1..];
    assert forall c | c in host :: c in JoinHostPort(host, port);
  }

  lemma ToldScalar(scalars: map<Param, string>, p: Param)
    requires ScalarsReadable(scalars) && p in scalars && Set(scalars, p)
    ensures OneLine(UapiValue(p, Obfuscation(scalars)[p])) <==>
      p.HeaderProtectionKey? || OneLine(UapiValue(p, scalars[p]))
  {
    hide KeyToHex, OneLine;
    KeyIsOneLine(scalars[p]);
  }

  lemma ToldPeer(e: Endpoint, read: AddrReader)
    requires ConfigOf(e, read).Some?
    ensures |e.peers| == 1
    ensures var peer := ConfigOf(e, read).value.peer;
      && OneLine(peer.publicKey) && OneLine(peer.presharedKey)
      && peer.endpoint == JoinHostPort(e.peers[0].address, e.peers[0].port)
      && peer.allowedIPs == AllowedOf(e.peers[0]) && peer.keepalive == e.peers[0].keepalive
  {
    hide KeyToHex, OneLine, InterfaceOf, JoinHostPort;
    KeyIsOneLine(e.peers[0].publicKey);
    KeyIsOneLine(e.peers[0].preSharedKey);
    assert OneLine("") by { EmptyIsOneLine(); }
  }

  lemma EmptyIsOneLine()
    ensures OneLine("") && OneLine("0.0.0.0/0")
  {
  }

  lemma ToldInterface(e: Endpoint, read: AddrReader)
    requires ConfigOf(e, read).Some?
    ensures OneLine(ConfigOf(e, read).value.privateKey)
    ensures ScalarsReadable(e.scalars) && ConfigOf(e, read).value.obfuscation == Obfuscation(e.scalars)
  {
    hide KeyToHex, OneLine, PeerOf, ScalarsReadable, Obfuscation, AddLists;
    KeyIsOneLine(e.privateKey);
  }

  lemma ToldTexts(scalars: map<Param, string>)
    requires ScalarsReadable(scalars)
    ensures (forall p | p in Obfuscation(scalars) :: OneLine(UapiValue(p, Obfuscation(scalars)[p]))) <==>
      (forall p | p in scalars && Set(scalars, p) && !p.HeaderProtectionKey? :: OneLine(UapiValue(p, scalars[p])))
  {
    hide OneLine, UapiValue, Stored, Readable;
    forall p | p in scalars && Set(scalars, p)
      ensures OneLine(UapiValue(p, Obfuscation(scalars)[p])) <==>
        p.HeaderProtectionKey? || OneLine(UapiValue(p, scalars[p]))
    {
      ToldScalar(scalars, p);
    }
  }

  /** What is told of a configuration is a line each where its parts are. */
  lemma ToldExactly(c: Config)
    ensures OneLineTold(Told(c)) <==>
      && OneLine(c.privateKey) && (forall p | p in c.obfuscation :: OneLine(UapiValue(p, c.obfuscation[p])))
      && OneLine(c.peer.publicKey) && OneLine(c.peer.presharedKey) && OneLine(c.peer.endpoint)
      && (forall i | 0 <= i < |c.peer.allowedIPs| :: OneLine(c.peer.allowedIPs[i]))
  {
    hide OneLine, UapiValue;
    assert forall p | p in c.obfuscation :: Told(c).settings[p] == UapiValue(p, c.obfuscation[p]);
    assert Told(c).peer.value.allowedIPs == c.peer.allowedIPs;
    assert forall i | 0 <= i < |c.peer.allowedIPs| :: c.peer.allowedIPs[i] in c.peer.allowedIPs;
  }

  /** Every node from a subscription that is accepted is rendered so that the device reads its own keys, values
      and peer, in their order, if and only if no field that is told as text spans lines. */
  lemma DeliveredNodeIsReadBack(e: Endpoint, read: AddrReader)
    requires ConfigOf(e, read).Some? && e.peers[0].keepalive <= MAX_INT
    ensures ReadUapi(Text(IpcLines(ConfigOf(e, read).value))) == Some(Told(ConfigOf(e, read).value)) <==> Tellable(e)
  {
    hide OneLineTold, Told, IpcLines, ReadUapi, OneLine, UapiValue, Obfuscation, ScalarsReadable, JoinHostPort,
      InterfaceOf, PeerOf;
    var c, far := ConfigOf(e, read).value, e.peers[0];
    ToldPeer(e, read);
    ToldInterface(e, read);
    ToldTexts(e.scalars);
    JoinedIsOneLine(far.address, far.port);
    EmptyIsOneLine();
    ToldExactly(c);
    ReadBackExactly(c);
    if far.allowedIPs == [] {
      assert AllowedOf(far) == ["0.0.0.0/0"];
    }
  }

  lemma OtherScalars(scalars: map<Param, string>, jc: string, jmin: string)
    requires ScalarsReadable(scalars) && Set(scalars, Jc) && !Set(scalars, Jmin) && jc != "" && jmin != ""
    ensures ScalarsReadable(scalars[Jc := jc][Jmin := jmin])
    ensures Obfuscation(scalars[Jc := jc][Jmin := jmin]) == Obfuscation(scalars)[Jc := jc][Jmin := jmin]
  {
    hide KeyToHex;
    var other := scalars[Jc := jc][Jmin := jmin];
    forall p | p in other && Set(other, p)
      ensures Readable(p, other[p])
    {
      assert p == Jc || p == Jmin || Set(scalars, p);
    }
  }

  /** A node whose Jc holds a line end, and what makes a second setting of the rest, is told to the device as the
      node that has both settings is, and so is not read back as itself. */
  lemma LineEndIsAnotherNode(e: Endpoint, jc: string, jmin: string, read: AddrReader)
    requires ConfigOf(e, read).Some? && e.peers[0].keepalive <= MAX_INT
    requires Jc in e.scalars && e.scalars[Jc] == jc + "\n" + "jmin=" + jmin && !Set(e.scalars, Jmin)
    requires jc != "" && jmin != ""
    ensures var other := e.(scalars := e.scalars[Jc := jc][Jmin := jmin]);
      && ConfigOf(other, read).Some?
      && Text(IpcLines(ConfigOf(e, read).value)) == Text(IpcLines(ConfigOf(other, read).value))
    ensures ReadUapi(Text(IpcLines(ConfigOf(e, read).value))) != Some(Told(ConfigOf(e, read).value))
  {
    hide Told, IpcLines, ReadUapi, Text, KeyToHex, AddLists, PeerOf, ScalarsReadable, Obfuscation;
    OtherScalars(e.scalars, jc, jmin);
    var c := ConfigOf(e, read).value;
    assert Jmin !in c.obfuscation && Jc in c.obfuscation && c.obfuscation[Jc] == e.scalars[Jc] by {
      JcAndJmin(e.scalars);
    }
    LineEndTellsMore(c, jc, jmin);
    DeliveredNodeIsReadBack(e, read);
    assert e.scalars[Jc][|jc|] == '\n';
  }

  lemma JcAndJmin(scalars: map<Param, string>)
    requires ScalarsReadable(scalars) && Set(scalars, Jc) && !Set(scalars, Jmin)
    ensures Jmin !in Obfuscation(scalars) && Jc in Obfuscation(scalars) && Obfuscation(scalars)[Jc] == scalars[Jc]
  {
  }

  lemma OneAddress(entry: string, a: Addr, read: AddrReader)
    requires entry != "" && Trimmed(entry) && ',' !in entry && read(entry) == Some(a)
    ensures AddLists([entry], read) == Some([a])
  {
    hide Split, Trim;
    SplitNone(entry, ',');
    TrimTrimmed(entry);
    assert [entry][..0] == [] && AddAddrs([], read) == Some([]);
    var none: seq<Addr> := [];
    assert none + [a] == [a];
    assert ParseAddrList(entry, read) == Some([a]);
    assert AddLists([], read) == Some(none) && [entry][0] == entry;
    assert AddLists([entry], read) == AddList(Some(none), entry, read);
  }

  // ---- A node ----

  /** A node with nothing out of the ordinary but perhaps its Jc. */
  function SomeNode(key: string, jc: string): Endpoint {
    var far := EndpointPeer("203.0.113.7", 51820, key, "", ["0.0.0.0/0"], 25);
    Endpoint("", ["10.0.0.2"], key, 0, [], [far], map[Jc := jc])
  }

  lemma SomeKey() returns (key: string)
    ensures KeyToHex(key).Some? && OneLine(key)
  {
    hide KeyToHex, Base64, HexBytes, Sextet;
    var bytes: seq<Byte> := seq(32, i => 7);
    key := Base64(bytes) + "=";
    KeyIsItsBytes(bytes);
    DigitsAreNoLineEnds(Base64(bytes));
  }

  lemma SomeNodeConverts(key: string, jc: string, read: AddrReader)
    requires KeyToHex(key).Some? && read("10.0.0.2").Some?
    ensures ConfigOf(SomeNode(key, jc), read).Some?
  {
    hide KeyToHex, AddLists;
    OneAddress("10.0.0.2", read("10.0.0.2").value, read);
    NoEntries(read);
  }

  /** There is such a node, with keys of 32 bytes each, and it is accepted. */
  lemma LineEndHappens() returns (e: Endpoint, read: AddrReader)
    ensures ConfigOf(e, read).Some? && e.scalars == map[Jc := "4\njmin=8"]
    ensures ReadUapi(Text(IpcLines(ConfigOf(e, read).value))) != Some(Told(ConfigOf(e, read).value))
  {
    hide ConfigOf, KeyToHex, IpcLines, ReadUapi, Told, Text;
    var key := SomeKey();
    read := s => Some(Addr([10, 0, 0, 2], ""));
    e := SomeNode(key, "4\njmin=8");
    SomeNodeConverts(key, "4\njmin=8", read);
    assert "4" + "\n" + "jmin=" + "8" == "4\njmin=8";
    LineEndIsAnotherNode(e, "4", "8", read);
  }
}
