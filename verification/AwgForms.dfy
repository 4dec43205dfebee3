/** An endpoint written out as a .conf, what reading that gives, and when it is what the endpoint gives. */
module AwgForms {
  import opened Wrappers
  import opened Strings
  import opened AwgConfig
  import opened AwgUapi
  import opened AwgEndpoint

  // ---- Rendering an endpoint as a .conf ----

  function ConfName(p: Param): string {
    match p
    case Jc => "Jc" case Jmin => "Jmin" case Jmax => "Jmax"
    case S1 => "S1" case S2 => "S2" case S3 => "S3" case S4 => "S4"
    case H1 => "H1" case H2 => "H2" case H3 => "H3" case H4 => "H4"
    case I1 => "I1" case I2 => "I2" case I3 => "I3" case I4 => "I4" case I5 => "I5"
    case HeaderProtectionKey => "HeaderProtectionKey"
    case ContentPaddingAddition => "ContentPaddingAddition"
    case RekeyAfterTime => "RekeyAfterTime"
    case RekeyTimeout => "RekeyTimeout"
    case RejectAfterTime => "RejectAfterTime"
    case KeepaliveTimeout => "KeepaliveTimeout"
    case MaxHandshakeAttempts => "MaxHandshakeAttempts"
    case RandomTrailers => "RandomTrailers"
    case DisableCookies => "DisableCookies"
  }

  function Line(key: string, value: string): string {
    key + " = " + value
  }

  function KeyLines(key: string, values: seq<string>): seq<string> {
    if values == [] then [] else KeyLines(key, values[..|values| - 1]) + [Line(key, values[|values| - 1])]
  }

  function ScalarLines(scalars: map<Param, string>, params: seq<Param>): seq<string> {
    if params == [] then []
    else
      var p := params[|params| - 1];
      ScalarLines(scalars, params[..|params| - 1]) + if Set(scalars, p) then [Line(ConfName(p), scalars[p])] else []
  }

  function InterfaceLines(e: Endpoint): seq<string> {
    [Line("PrivateKey", e.privateKey)]
    + KeyLines("Address", e.address)
    + (if e.mtu > 0 then [Line("MTU", Itoa(e.mtu))] else [])
    + KeyLines("DNS", e.dns)
    + ScalarLines(e.scalars, PARAMS)
  }

  function ConfPeerLines(p: EndpointPeer, allowed: seq<string>): seq<string> {
    [Line("PublicKey", p.publicKey)]
    + (if p.preSharedKey != "" then [Line("PresharedKey", p.preSharedKey)] else [])
    + [Line("Endpoint", JoinHostPort(p.address, p.port))]
    + KeyLines("AllowedIPs", allowed)
    + [Line("PersistentKeepalive", Itoa(p.keepalive))]
  }

  /** The file of an endpoint, with one line for each of the allowed addresses given. */
  function ConfLinesWith(e: Endpoint, allowed: seq<string>): seq<string>
    requires |e.peers| == 1
  {
    ["[Interface]"] + InterfaceLines(e) + ["[Peer]"] + ConfPeerLines(e.peers[0], allowed)
  }

  /** The file writes out what the endpoint means, all of IPv4 where it names no allowed address. */
  function ConfLines(e: Endpoint): seq<string>
    requires |e.peers| == 1
  {
    ConfLinesWith(e, AllowedOf(e.peers[0]))
  }

  predicate Fits(n: int) {
    -MAX_INT - 1 <= n <= MAX_INT
  }

  predicate OneLineAll(ss: seq<string>) {
    forall i | 0 <= i < |ss| :: OneLine(ss[i])
  }

  /** Each field can stand on a line: none has a line end in it, and the numbers are 64-bit ones. */
  ghost predicate Renderable(e: Endpoint) {
    && |e.peers| == 1 && RenderablePeer(e.peers[0])
    && OneLine(e.privateKey) && OneLineAll(e.address) && OneLineAll(e.dns) && Fits(e.mtu)
    && (forall p | p in e.scalars :: OneLine(e.scalars[p]))
  }

  ghost predicate RenderablePeer(p: EndpointPeer) {
    && OneLine(p.address) && OneLine(p.publicKey) && OneLine(p.preSharedKey)
    && OneLineAll(p.allowedIPs) && Fits(p.keepalive)
  }

  // ---- What the file means ----

  /** The scalars that arrived, each without the spaces around it. */
  function TrimmedScalars(scalars: map<Param, string>): map<Param, string> {
    map p | p in scalars && Set(scalars, p) :: Trim(scalars[p])
  }

  predicate AllReadable(values: map<Param, string>) {
    forall p | p in values :: Readable(p, values[p])
  }

  function StoreAll(values: map<Param, string>): map<Param, string>
    requires AllReadable(values)
  {
    map p | p in values :: Stored(p, values[p])
  }

  function FileInterface(e: Endpoint, read: AddrReader): Option<Config> {
    match (KeyToHex(Trim(e.privateKey)), AddLists(e.address, read), AddLists(e.dns, read))
    case (Some(key), Some(addresses), Some(dns)) =>
      if AllReadable(TrimmedScalars(e.scalars))
      then Some(Config(key, addresses, if e.mtu > 0 then e.mtu else 1420, dns,
                       StoreAll(TrimmedScalars(e.scalars)), EMPTY.peer))
      else None
    case _ => None
  }

  function FilePeer(p: EndpointPeer, allowed: seq<string>): Option<Peer> {
    match KeyToHex(Trim(p.publicKey))
    case None => None
    case Some(key) =>
      if p.preSharedKey != "" && KeyToHex(Trim(p.preSharedKey)).None? then None
      else
        var shared := if p.preSharedKey != "" then KeyToHex(Trim(p.preSharedKey)).value else "";
        Some(Peer(key, shared, Trim(JoinHostPort(p.address, p.port)), AllParts(allowed), p.keepalive))
  }

  function FileOf(e: Endpoint, allowed: seq<string>, read: AddrReader): Option<Config>
    requires |e.peers| == 1
  {
    match (FileInterface(e, read), FilePeer(e.peers[0], allowed))
    case (Some(c), Some(p)) => if c.addresses == [] then None else Some(c.(peer := p))
    case _ => None
  }

  // ---- One line ----

  predicate KeyWord(key: string) {
    key != "" && (forall i | 0 <= i < |key| :: 'A' <= key[i] <= 'Z' || 'a' <= key[i] <= 'z' || '0' <= key[i] <= '9')
  }

  lemma KeyWordIs(key: string)
    requires KeyWord(key)
    ensures Trimmed(key) && '=' !in key && OneLine(key) && key[0] != '#' && key[0] != ';' && key[0] != '['
  {
  }

  /** A name can stand in front of an equals sign: no key, comment or header begins otherwise. */
  predicate Named(name: string) {
    name != "" && Trimmed(name) && '=' !in name && name[0] != '#' && name[0] != ';' && name[0] != '['
  }

  lemma TrimKeyLine(before: string, name: string, between: string, rest: string)
    requires Named(name) && Spaces(before) && Spaces(between)
    ensures Trim(before + (name + between + "=" + rest)) == name + between + "=" + TrimRight(rest)
  {
    hide TrimRight;
    var head, t := name + between + "=", name + between + "=" + rest;
    TrimLeftPad(before, t);
    assert t[0] == name[0] && TrimLeft(t) == t;
    TrimRightConcat(head, rest);
    assert TrimRight(head) == head by { TrimEnds(head); }
    assert head + "" == head;
  }

  lemma TrimEnds(s: string)
    requires s != "" && !IsSpace(s[|s| - 1])
    ensures TrimRight(s) == s
  {
  }

  lemma CutKeyLine(name: string, between: string, rest: string)
    requires Named(name) && Spaces(between)
    ensures Cut(name + between + "=" + rest, '=') == Some((name + between, rest)) && Trim(name + between) == name
  {
    assert '=' !in between by { assert !IsSpace('='); }
    CutIs(name + between, '=', rest);
    assert name + between + "=" + rest == name + between + ['='] + rest;
    TrimPads("", name, between);
    assert "" + name + between == name + between;
  }

  /** A line that sets a key is read as that key in lower case and the value, without the spaces around each. */
  lemma KeyLineReads(r: Reader, before: string, name: string, between: string, rest: string, read: AddrReader)
    requires Named(name) && Spaces(before) && Spaces(between)
    ensures ReadLine(r, before + (name + between + "=" + rest), read) == SetKey(r, Lower(name), Trim(rest), read)
  {
    hide SetKey, Lower, Cut, Trim, TrimRight;
    TrimKeyLine(before, name, between, rest);
    CutKeyLine(name, between, TrimRight(rest));
    TrimRightFirst(rest);
  }

  /** A rendered line is read as the key and the value it was rendered from, without the spaces around it. */
  lemma LineReads(r: Reader, key: string, value: string, read: AddrReader)
    requires KeyWord(key)
    ensures ReadLine(r, Line(key, value), read) == SetKey(r, Lower(key), Trim(value), read)
  {
    hide SetKey, Lower, Trim, ReadLine;
    KeyWordIs(key);
    KeyLineReads(r, "", key, " ", " " + value, read);
    assert Line(key, value) == "" + (key + " " + "=" + (" " + value));
    TrimDropFirst(" " + value);
    assert (" " + value)[1..] == value;
  }

  lemma ReadSnoc(start: Option<Reader>, lines: seq<string>, line: string, read: AddrReader)
    ensures ReadLines(start, lines + [line], read) ==
      match ReadLines(start, lines, read)
      case None => None
      case Some(r) => ReadLine(r, line, read)
  {
    assert (lines + [line])[..|lines|] == lines;
  }

  lemma {:induction false} ReadConcat(start: Option<Reader>, a: seq<string>, b: seq<string>, read: AddrReader)
    ensures ReadLines(start, a + b, read) == ReadLines(ReadLines(start, a, read), b, read)
  {
    hide ReadLine;
    if b == [] {
      assert a + b == a;
    } else {
      var n := |b| - 1;
      assert a + b == a + b[..n] + [b[n]];
      ReadConcat(start, a, b[..n], read);
      ReadSnoc(start, a + b[..n], b[n], read);
    }
  }

  lemma {:induction false} ReadNone(lines: seq<string>, read: AddrReader)
    ensures ReadLines(None, lines, read) == None
  {
    if lines != [] {
      ReadNone(lines[..|lines| - 1], read);
    }
  }

  lemma ReadOne(r: Reader, key: string, value: string, read: AddrReader)
    requires KeyWord(key)
    ensures ReadLines(Some(r), [Line(key, value)], read) == SetKey(r, Lower(key), Trim(value), read)
  {
    hide ReadLine, SetKey, Lower, Line, Trim;
    assert [] + [Line(key, value)] == [Line(key, value)];
    ReadSnoc(Some(r), [], Line(key, value), read);
    LineReads(r, key, value, read);
  }

  // ---- Keys that are not known ----

  /** The lines hold no header. */
  ghost predicate NoHeader(lines: seq<string>) {
    forall l | l in lines :: Trim(l) == "" || Trim(l)[0] != '['
  }

  predicate InterfaceName(name: string) {
    name in [
      "privatekey", "address", "dns", "mtu",
      "jc", "jmin", "jmax", "s1", "s2", "s3", "s4", "h1", "h2", "h3", "h4", "i1", "i2", "i3", "i4", "i5",
      "headerprotectionkey", "contentpaddingaddition", "rekeyaftertime", "rekeytimeout", "rejectaftertime",
      "keepalivetimeout", "maxhandshakeattempts", "randomtrailers", "disablecookies"
    ]
  }

  predicate PeerName(name: string) {
    name in ["publickey", "presharedkey", "endpoint", "allowedips", "persistentkeepalive"]
  }

  lemma HeaderReads(r: Reader, header: string, word: string, read: AddrReader)
    requires KeyWord(word) && Trim(header) == "[" + word + "]"
    ensures ReadLine(r, header, read) == Some(r.(section := Lower(word)))
  {
    hide Trim, Lower, TrimBrackets;
    BracketsTrimmed(word);
  }

  lemma SectionStaysLine(r: Reader, line: string, read: AddrReader)
    requires Trim(line) == "" || Trim(line)[0] != '['
    ensures ReadLine(r, line, read).Some? ==> ReadLine(r, line, read).value.section == r.section
  {
    hide Trim, SetInterface, SetPeer, Cut, Lower, TrimBrackets;
  }

  lemma {:induction false} SectionStays(start: Reader, lines: seq<string>, read: AddrReader)
    requires NoHeader(lines)
    ensures ReadLines(Some(start), lines, read).Some? ==>
      ReadLines(Some(start), lines, read).value.section == start.section
  {
    hide ReadLine, Trim;
    if lines != [] {
      var n := |lines| - 1;
      SectionStays(start, lines[..n], read);
      if ReadLines(Some(start), lines[..n], read).Some? {
        SectionStaysLine(ReadLines(Some(start), lines[..n], read).value, lines[n], read);
      }
    }
  }

  lemma UnknownInterfaceKeySets(c: Config, key: string, value: string, read: AddrReader)
    requires !InterfaceName(key)
    ensures SetInterface(c, key, value, read) == Some(c)
  {
  }

  lemma UnknownPeerKeySets(p: Peer, key: string, value: string)
    requires !PeerName(key)
    ensures SetPeer(p, key, value) == Some(p)
  {
  }

  /** Under a header of the interface or of the peer, however its letters are cased, a line that sets a key not known
      there changes nothing of what the file is read as, wherever it stands. */
  lemma UnknownKeyIsPassedOver(a: seq<string>, header: string, word: string, c: seq<string>, before: string,
                               name: string, between: string, rest: string, b: seq<string>, read: AddrReader)
    requires KeyWord(word) && Trim(header) == "[" + word + "]" && NoHeader(c)
    requires Named(name) && Spaces(before) && Spaces(between)
    requires (Lower(word) == "interface" && !InterfaceName(Lower(name)))
          || (Lower(word) == "peer" && !PeerName(Lower(name)))
    requires var line := before + (name + between + "=" + rest);
      forall l | l in a || l == header || l in c || l == line || l in b :: OneLine(l)
    ensures var line := before + (name + between + "=" + rest);
      ReadConf(Text(a + [header] + c + [line] + b), read) == ReadConf(Text(a + [header] + c + b), read)
  {
    hide ReadLine, ReadConf, SetKey, Trim, OneLine, Lower, InterfaceName, PeerName, Named;
    var line, front := before + (name + between + "=" + rest), a + [header] + c;
    var start := Some(Reader("", EMPTY));
    ReadConcat(start, a + [header], c, read);
    ReadSnoc(start, a, header, read);
    if ReadLines(start, a, read).Some? {
      var r := ReadLines(start, a, read).value;
      HeaderReads(r, header, word, read);
      SectionStays(r.(section := Lower(word)), c, read);
    } else {
      ReadNone(c, read);
    }
    if ReadLines(start, front, read).Some? {
      var r := ReadLines(start, front, read).value;
      KeyLineReads(r, before, name, between, rest, read);
      UnknownKeySets(r, Lower(name), Trim(rest), read);
    }
    LineChangesNothing(front, line, b, read);
  }

  lemma UnknownKeySets(r: Reader, key: string, value: string, read: AddrReader)
    requires (r.section == "interface" && !InterfaceName(key)) || (r.section == "peer" && !PeerName(key))
    ensures SetKey(r, key, value, read) == Some(r)
  {
    hide InterfaceName, PeerName, SetInterface, SetPeer;
    if r.section == "interface" {
      UnknownInterfaceKeySets(r.config, key, value, read);
    } else {
      UnknownPeerKeySets(r.config.peer, key, value);
    }
  }

  /** Before any header a line that sets a key, known or not, refuses the file. */
  lemma KeyOutsideSections(a: seq<string>, before: string, name: string, between: string, rest: string,
                           b: seq<string>, read: AddrReader)
    requires NoHeader(a) && Named(name) && Spaces(before) && Spaces(between)
    requires var line := before + (name + between + "=" + rest); forall l | l in a || l == line || l in b :: OneLine(l)
    ensures var line := before + (name + between + "=" + rest); ReadConf(Text(a + [line] + b), read) == None
  {
    hide ReadLine, SetInterface, SetPeer, Trim, OneLine, Lower, Named, NoHeader, Split;
    var line := before + (name + between + "=" + rest);
    var start := Reader("", EMPTY);
    SectionStays(start, a, read);
    if ReadLines(Some(start), a, read).Some? {
      KeyLineReads(ReadLines(Some(start), a, read).value, before, name, between, rest, read);
    }
    ReadSnoc(Some(start), a, line, read);
    SplitText(a + [line] + b);
    assert a + [line] + b + [""] == a + [line] + (b + [""]);
    ReadConcat(Some(start), a + [line], b + [""], read);
    ReadNone(b + [""], read);
  }

  /** A comment or an empty line, wherever it is put, changes nothing of what a file gives. */
  lemma NoiseIsIgnored(a: seq<string>, noise: string, b: seq<string>, read: AddrReader)
    requires forall l | l in a || l in b || l == noise :: OneLine(l)
    requires Trim(noise) == "" || Trim(noise)[0] == '#' || Trim(noise)[0] == ';'
    ensures ReadConf(Text(a + [noise] + b), read) == ReadConf(Text(a + b), read)
  {
    hide ReadLine, ReadConf, Trim, OneLine;
    var start := Some(Reader("", EMPTY));
    if ReadLines(start, a, read).Some? {
      NoiseReads(ReadLines(start, a, read).value, noise, read);
    }
    LineChangesNothing(a, noise, b, read);
  }

  /** A line that changes nothing where it stands could as well not be there. */
  lemma LineChangesNothing(a: seq<string>, line: string, b: seq<string>, read: AddrReader)
    requires forall l | l in a || l in b || l == line :: OneLine(l)
    requires var r := ReadLines(Some(Reader("", EMPTY)), a, read); r.Some? ==> ReadLine(r.value, line, read) == r
    ensures ReadConf(Text(a + [line] + b), read) == ReadConf(Text(a + b), read)
  {
    hide ReadLine, Split, OneLine;
    var start := Some(Reader("", EMPTY));
    SplitText(a + [line] + b);
    SplitText(a + b);
    assert a + [line] + b + [""] == a + [line] + (b + [""]);
    assert a + b + [""] == a + (b + [""]);
    ReadConcat(start, a + [line], b + [""], read);
    ReadConcat(start, a, b + [""], read);
    ReadSnoc(start, a, line, read);
  }

  lemma NoiseReads(r: Reader, noise: string, read: AddrReader)
    requires Trim(noise) == "" || Trim(noise)[0] == '#' || Trim(noise)[0] == ';'
    ensures ReadLine(r, noise, read) == Some(r)
  {
    hide Trim;
  }

  // ---- The interface ----

  lemma {:induction false} AddressesRead(c: Config, entries: seq<string>, read: AddrReader)
    ensures ReadLines(Some(Reader("interface", c)), KeyLines("Address", entries), read) ==
      match AddLists(entries, read)
      case None => None
      case Some(addrs) => Some(Reader("interface", c.(addresses := c.addresses + addrs)))
  {
    hide ReadLine, ParseAddrList, Line, Trim, Split, Kept, KeyWord, Lower, SetKey;
    if entries == [] {
      assert c.addresses + [] == c.addresses;
    } else {
      var n := |entries| - 1;
      AddressesRead(c, entries[..n], read);
      ReadSnoc(Some(Reader("interface", c)), KeyLines("Address", entries[..n]), Line("Address", entries[n]), read);
      var before := AddLists(entries[..n], read);
      if before.Some? {
        var r := Reader("interface", c.(addresses := c.addresses + before.value));
        ListWords();
        LineReads(r, "Address", entries[n], read);
        AddressSets(r.config, Trim(entries[n]), read);
        TrimmedListIsSame(entries[n], read);
        var more := ParseAddrList(entries[n], read);
        if more.Some? {
          assert c.addresses + before.value + more.value == c.addresses + (before.value + more.value);
        }
      }
    }
  }

  lemma ListWords()
    ensures KeyWord("Address") && Lower("Address") == "address"
    ensures KeyWord("DNS") && Lower("DNS") == "dns"
    ensures KeyWord("AllowedIPs") && Lower("AllowedIPs") == "allowedips"
  {
  }

  lemma AddressSets(c: Config, value: string, read: AddrReader)
    ensures SetKey(Reader("interface", c), "address", value, read) ==
      match ParseAddrList(value, read)
      case Some(addrs) => Some(Reader("interface", c.(addresses := c.addresses + addrs)))
      case None => None
    ensures SetKey(Reader("interface", c), "dns", value, read) ==
      match ParseAddrList(value, read)
      case Some(addrs) => Some(Reader("interface", c.(dns := c.dns + addrs)))
      case None => None
  {
    hide ParseAddrList;
  }

  lemma {:induction false} DnsRead(c: Config, entries: seq<string>, read: AddrReader)
    ensures ReadLines(Some(Reader("interface", c)), KeyLines("DNS", entries), read) ==
      match AddLists(entries, read)
      case None => None
      case Some(addrs) => Some(Reader("interface", c.(dns := c.dns + addrs)))
  {
    hide ReadLine, ParseAddrList, Line, Trim, Split, Kept, KeyWord, Lower, SetKey;
    if entries == [] {
      assert c.dns + [] == c.dns;
    } else {
      var n := |entries| - 1;
      DnsRead(c, entries[..n], read);
      ReadSnoc(Some(Reader("interface", c)), KeyLines("DNS", entries[..n]), Line("DNS", entries[n]), read);
      var before := AddLists(entries[..n], read);
      if before.Some? {
        var r := Reader("interface", c.(dns := c.dns + before.value));
        ListWords();
        LineReads(r, "DNS", entries[n], read);
        AddressSets(r.config, Trim(entries[n]), read);
        TrimmedListIsSame(entries[n], read);
        var more := ParseAddrList(entries[n], read);
        if more.Some? {
          assert c.dns + before.value + more.value == c.dns + (before.value + more.value);
        }
      }
    }
  }

  lemma OldConfNameReads(p: Param)
    requires !Recent(p)
    ensures KeyWord(ConfName(p)) && Lower(ConfName(p)) == UapiName(p)
  {
  }

  lemma ConfNameReads(p: Param)
    ensures KeyWord(ConfName(p)) && ParamOf(Lower(ConfName(p))) == Some(p)
  {
    if !Recent(p) {
      OldConfNameReads(p);
      OldNameReads(p);
    } else {
      RecentConfNameReads(p);
    }
  }

  lemma RecentConfNameReads(p: Param)
    requires Recent(p)
    ensures KeyWord(ConfName(p)) && ParamOf(Lower(ConfName(p))) == Some(p)
  {
    hide Lower, KeyWord, ParamOf, ConfName;
    RecentConfNameIsWord(p);
    LowNameReads(p);
  }

  function LowName(p: Param): string
    requires Recent(p)
  {
    match p
    case HeaderProtectionKey => "headerprotectionkey"
    case ContentPaddingAddition => "contentpaddingaddition"
    case RekeyAfterTime => "rekeyaftertime"
    case RekeyTimeout => "rekeytimeout"
    case RejectAfterTime => "rejectaftertime"
    case KeepaliveTimeout => "keepalivetimeout"
    case MaxHandshakeAttempts => "maxhandshakeattempts"
    case RandomTrailers => "randomtrailers"
    case DisableCookies => "disablecookies"
  }

  lemma LowNameReads(p: Param)
    requires Recent(p)
    ensures ParamOf(LowName(p)) == Some(p)
  {
  }

  lemma RecentConfNameIsWord(p: Param)
    requires Recent(p)
    ensures KeyWord(ConfName(p)) && Lower(ConfName(p)) == LowName(p)
  {
    hide Lower, KeyWord, ConfName, LowName;
    match p
    case HeaderProtectionKey => HeaderProtectionKeyIsWord();
    case ContentPaddingAddition => ContentPaddingAdditionIsWord();
    case RekeyAfterTime => RekeyAfterTimeIsWord();
    case RekeyTimeout => RekeyTimeoutIsWord();
    case RejectAfterTime => RejectAfterTimeIsWord();
    case KeepaliveTimeout => KeepaliveTimeoutIsWord();
    case MaxHandshakeAttempts => MaxHandshakeAttemptsIsWord();
    case RandomTrailers => RandomTrailersIsWord();
    case DisableCookies => DisableCookiesIsWord();
  }

  lemma HeaderProtectionKeyIsWord()
    ensures KeyWord(ConfName(HeaderProtectionKey))
    ensures Lower(ConfName(HeaderProtectionKey)) == LowName(HeaderProtectionKey)
  {
    assert Lower("HeaderProtectionKey") == "headerprotectionkey";
  }

  lemma ContentPaddingAdditionIsWord()
    ensures KeyWord(ConfName(ContentPaddingAddition))
    ensures Lower(ConfName(ContentPaddingAddition)) == LowName(ContentPaddingAddition)
  {
    assert Lower("ContentPaddingAddition") == "contentpaddingaddition";
  }

  lemma RekeyAfterTimeIsWord()
    ensures KeyWord(ConfName(RekeyAfterTime)) && Lower(ConfName(RekeyAfterTime)) == LowName(RekeyAfterTime)
  {
    assert Lower("RekeyAfterTime") == "rekeyaftertime";
  }

  lemma RekeyTimeoutIsWord()
    ensures KeyWord(ConfName(RekeyTimeout)) && Lower(ConfName(RekeyTimeout)) == LowName(RekeyTimeout)
  {
    assert Lower("RekeyTimeout") == "rekeytimeout";
  }

  lemma RejectAfterTimeIsWord()
    ensures KeyWord(ConfName(RejectAfterTime)) && Lower(ConfName(RejectAfterTime)) == LowName(RejectAfterTime)
  {
    assert Lower("RejectAfterTime") == "rejectaftertime";
  }

  lemma KeepaliveTimeoutIsWord()
    ensures KeyWord(ConfName(KeepaliveTimeout)) && Lower(ConfName(KeepaliveTimeout)) == LowName(KeepaliveTimeout)
  {
    assert Lower("KeepaliveTimeout") == "keepalivetimeout";
  }

  lemma MaxHandshakeAttemptsIsWord()
    ensures KeyWord(ConfName(MaxHandshakeAttempts))
    ensures Lower(ConfName(MaxHandshakeAttempts)) == LowName(MaxHandshakeAttempts)
  {
    assert Lower("MaxHandshakeAttempts") == "maxhandshakeattempts";
  }

  lemma RandomTrailersIsWord()
    ensures KeyWord(ConfName(RandomTrailers)) && Lower(ConfName(RandomTrailers)) == LowName(RandomTrailers)
  {
    assert Lower("RandomTrailers") == "randomtrailers";
  }

  lemma DisableCookiesIsWord()
    ensures KeyWord(ConfName(DisableCookies)) && Lower(ConfName(DisableCookies)) == LowName(DisableCookies)
  {
    assert Lower("DisableCookies") == "disablecookies";
  }

  lemma ParamSets(c: Config, p: Param, value: string, read: AddrReader)
    ensures SetKey(Reader("interface", c), Lower(ConfName(p)), value, read) ==
      if Readable(p, value)
      then Some(Reader("interface", c.(obfuscation := c.obfuscation[p := Stored(p, value)])))
      else None
  {
    hide KeyToHex, ParamOf, Lower, ConfName;
    ConfNameReads(p);
  }

  function Restrict(values: map<Param, string>, params: seq<Param>): map<Param, string> {
    map p | p in values && p in params :: values[p]
  }

  lemma StoreOneMore(values: map<Param, string>, p: Param, value: string)
    requires p in values ==> values[p] == value
    ensures AllReadable(values[p := value]) <==> AllReadable(values) && Readable(p, value)
    ensures AllReadable(values[p := value]) ==> StoreAll(values[p := value]) == StoreAll(values)[p := Stored(p, value)]
  {
    hide Readable, Stored;
    var more := values[p := value];
    assert forall q | q in values :: q in more && more[q] == values[q];
    assert p in more && more[p] == value;
  }

  lemma RestrictOneMore(values: map<Param, string>, params: seq<Param>, p: Param)
    ensures Restrict(values, params + [p]) ==
      if p in values then Restrict(values, params)[p := values[p]] else Restrict(values, params)
  {
  }

  lemma {:induction false} ScalarsRead(c: Config, scalars: map<Param, string>, params: seq<Param>, read: AddrReader)
    requires c.obfuscation == map[]
    ensures var told := Restrict(TrimmedScalars(scalars), params);
      ReadLines(Some(Reader("interface", c)), ScalarLines(scalars, params), read) ==
        if AllReadable(told) then Some(Reader("interface", c.(obfuscation := StoreAll(told)))) else None
  {
    hide ReadLine, Line, Readable, Stored, ConfName, Lower, SetKey, Trim, Restrict, AllReadable, StoreAll;
    var all := TrimmedScalars(scalars);
    if params == [] {
      NothingTold(all);
    } else {
      var n := |params| - 1;
      var p := params[n];
      var start := Some(Reader("interface", c));
      ScalarsRead(c, scalars, params[..n], read);
      RestrictOneMore(all, params[..n], p);
      assert params[..n] + [p] == params;
      if Set(scalars, p) {
        var told := Restrict(all, params[..n]);
        ReadSnoc(start, ScalarLines(scalars, params[..n]), Line(ConfName(p), scalars[p]), read);
        RestrictIs(all, params[..n], p);
        StoreOneMore(told, p, all[p]);
        if AllReadable(told) {
          var r := Reader("interface", c.(obfuscation := StoreAll(told)));
          ConfNameReads(p);
          LineReads(r, ConfName(p), scalars[p], read);
          ParamSets(r.config, p, Trim(scalars[p]), read);
        }
      } else {
        assert ScalarLines(scalars, params) == ScalarLines(scalars, params[..n]);
      }
    }
  }

  lemma NothingTold(values: map<Param, string>)
    ensures Restrict(values, []) == map[] && AllReadable(map[]) && StoreAll(map[]) == map[]
  {
  }

  lemma RestrictIs(values: map<Param, string>, params: seq<Param>, p: Param)
    ensures p in Restrict(values, params) ==> p in values && Restrict(values, params)[p] == values[p]
  {
  }

  lemma RestrictAll(values: map<Param, string>)
    ensures Restrict(values, PARAMS) == values
  {
    forall p | p in values
      ensures p in PARAMS
    {
      AllParams(p);
    }
  }

  /** The interface section of a file gives what the file means, or fails with it. */
  lemma InterfaceReads(e: Endpoint, read: AddrReader)
    requires Fits(e.mtu)
    ensures ReadLines(Some(Reader("interface", EMPTY)), InterfaceLines(e), read) ==
      match FileInterface(e, read)
      case None => None
      case Some(c) => Some(Reader("interface", c))
  {
    hide ReadLine, ReadLines, ParseAddrList, KeyToHex, Line, KeyLines, ScalarLines, Itoa, Atoi, SetKey, AddLists,
      AllReadable, StoreAll, TrimmedScalars, Restrict, Trim, Lower, KeyWord;
    var start := Some(Reader("interface", EMPTY));
    var key := [Line("PrivateKey", e.privateKey)];
    var addresses := KeyLines("Address", e.address);
    var mtu := if e.mtu > 0 then [Line("MTU", Itoa(e.mtu))] else [];
    var dns, scalars := KeyLines("DNS", e.dns), ScalarLines(e.scalars, PARAMS);
    assert InterfaceLines(e) == key + (addresses + (mtu + (dns + scalars)));
    ReadConcat(start, key, addresses + (mtu + (dns + scalars)), read);
    PrivateKeyReads(EMPTY, e.privateKey, read);
    if KeyToHex(Trim(e.privateKey)).None? {
      ReadNone(addresses + (mtu + (dns + scalars)), read);
      return;
    }
    var c1 := EMPTY.(privateKey := KeyToHex(Trim(e.privateKey)).value);
    ReadConcat(Some(Reader("interface", c1)), addresses, mtu + (dns + scalars), read);
    AddressesRead(c1, e.address, read);
    if AddLists(e.address, read).None? {
      ReadNone(mtu + (dns + scalars), read);
      return;
    }
    assert [] + AddLists(e.address, read).value == AddLists(e.address, read).value;
    var c2 := c1.(addresses := AddLists(e.address, read).value);
    ReadConcat(Some(Reader("interface", c2)), mtu, dns + scalars, read);
    MtuReads(c2, e.mtu, read);
    var c3 := c2.(mtu := if e.mtu > 0 then e.mtu else 1420);
    ReadConcat(Some(Reader("interface", c3)), dns, scalars, read);
    DnsRead(c3, e.dns, read);
    if AddLists(e.dns, read).None? {
      ReadNone(scalars, read);
      return;
    }
    assert [] + AddLists(e.dns, read).value == AddLists(e.dns, read).value;
    var c4 := c3.(dns := AddLists(e.dns, read).value);
    ScalarsRead(c4, e.scalars, PARAMS, read);
    RestrictAll(TrimmedScalars(e.scalars));
  }

  lemma PrivateKeyReads(c: Config, value: string, read: AddrReader)
    ensures ReadLines(Some(Reader("interface", c)), [Line("PrivateKey", value)], read) ==
      match KeyToHex(Trim(value))
      case None => None
      case Some(hex) => Some(Reader("interface", c.(privateKey := hex)))
  {
    hide KeyToHex, Line, ReadLines, Trim;
    assert KeyWord("PrivateKey") && Lower("PrivateKey") == "privatekey";
    ReadOne(Reader("interface", c), "PrivateKey", value, read);
  }

  lemma MtuReads(c: Config, mtu: int, read: AddrReader)
    requires Fits(mtu) && c.mtu == 1420
    ensures ReadLines(Some(Reader("interface", c)), if mtu > 0 then [Line("MTU", Itoa(mtu))] else [], read)
         == Some(Reader("interface", c.(mtu := if mtu > 0 then mtu else 1420)))
  {
    hide Atoi, Itoa, Line, ReadLine, Trim;
    if mtu > 0 {
      assert KeyWord("MTU") && Lower("MTU") == "mtu";
      ItoaPlain(mtu);
      AtoiItoa(mtu);
      TrimTrimmed(Itoa(mtu));
      ReadOne(Reader("interface", c), "MTU", Itoa(mtu), read);
    }
  }

  // ---- The peer ----

  lemma PeerSets(c: Config, key: string, value: string, read: AddrReader)
    ensures SetKey(Reader("peer", c), key, value, read) ==
      match SetPeer(c.peer, key, value)
      case None => None
      case Some(p) => Some(Reader("peer", c.(peer := p)))
  {
    hide SetPeer;
  }

  lemma AllowedSets(p: Peer, value: string)
    ensures SetPeer(p, "allowedips", Trim(value)) == Some(p.(allowedIPs := p.allowedIPs + Kept(Split(value, ','))))
  {
    hide Trim, Split, Kept, KeyToHex, Atoi;
    TrimmedListIsSame(value, s => None);
  }

  lemma {:induction false} AllowedRead(c: Config, allowed: seq<string>, read: AddrReader)
    ensures ReadLines(Some(Reader("peer", c)), KeyLines("AllowedIPs", allowed), read)
         == Some(Reader("peer", c.(peer := c.peer.(allowedIPs := c.peer.allowedIPs + AllParts(allowed)))))
  {
    hide ReadLine, Line, SetPeer, SetKey, Trim, Split, Kept, KeyWord, Lower;
    if allowed == [] {
      assert c.peer.allowedIPs + [] == c.peer.allowedIPs;
    } else {
      var n := |allowed| - 1;
      var more := Kept(Split(allowed[n], ','));
      AllowedRead(c, allowed[..n], read);
      ReadSnoc(Some(Reader("peer", c)), KeyLines("AllowedIPs", allowed[..n]), Line("AllowedIPs", allowed[n]), read);
      var before := c.(peer := c.peer.(allowedIPs := c.peer.allowedIPs + AllParts(allowed[..n])));
      ListWords();
      LineReads(Reader("peer", before), "AllowedIPs", allowed[n], read);
      PeerSets(before, "allowedips", Trim(allowed[n]), read);
      AllowedSets(before.peer, allowed[n]);
      assert c.peer.allowedIPs + AllParts(allowed[..n]) + more
          == c.peer.allowedIPs + (AllParts(allowed[..n]) + more);
    }
  }

  lemma PeerKeyReads(c: Config, key: string, value: string, read: AddrReader)
    requires KeyWord(key)
    ensures ReadLines(Some(Reader("peer", c)), [Line(key, value)], read) ==
      match SetPeer(c.peer, Lower(key), Trim(value))
      case None => None
      case Some(p) => Some(Reader("peer", c.(peer := p)))
  {
    hide SetPeer, Line, ReadLines, KeyWord, Lower, Trim;
    ReadOne(Reader("peer", c), key, value, read);
    PeerSets(c, Lower(key), Trim(value), read);
  }

  lemma PeerWords()
    ensures KeyWord("PublicKey") && Lower("PublicKey") == "publickey"
    ensures KeyWord("PresharedKey") && Lower("PresharedKey") == "presharedkey"
    ensures KeyWord("Endpoint") && Lower("Endpoint") == "endpoint"
  {
  }

  lemma KeepaliveWord()
    ensures KeyWord("PersistentKeepalive") && Lower("PersistentKeepalive") == "persistentkeepalive"
  {
  }

  lemma PeerKeysSet(p: Peer, value: string)
    ensures SetPeer(p, "publickey", value) ==
      match KeyToHex(value) case Some(hex) => Some(p.(publicKey := hex)) case None => None
    ensures SetPeer(p, "presharedkey", value) ==
      match KeyToHex(value) case Some(hex) => Some(p.(presharedKey := hex)) case None => None
    ensures SetPeer(p, "endpoint", value) == Some(p.(endpoint := value))
    ensures SetPeer(p, "persistentkeepalive", value) ==
      match Atoi(value) case Some(n) => Some(p.(keepalive := n)) case None => None
  {
    hide KeyToHex, Atoi;
  }

  /** The peer section of a file gives what the file means, or fails with it. */
  lemma PeerReads(c: Config, p: EndpointPeer, allowed: seq<string>, read: AddrReader)
    requires Fits(p.keepalive) && c.peer == EMPTY.peer
    ensures ReadLines(Some(Reader("peer", c)), ConfPeerLines(p, allowed), read) ==
      match FilePeer(p, allowed)
      case None => None
      case Some(peer) => Some(Reader("peer", c.(peer := peer)))
  {
    hide ReadLine, ReadLines, SetPeer, KeyToHex, Line, KeyLines, Itoa, Atoi, KeyWord, Lower, JoinHostPort,
      Trim, AllParts;
    var public := [Line("PublicKey", p.publicKey)];
    var shared := if p.preSharedKey != "" then [Line("PresharedKey", p.preSharedKey)] else [];
    var endpoint := [Line("Endpoint", JoinHostPort(p.address, p.port))];
    var allowedLines, keepalive := KeyLines("AllowedIPs", allowed), [Line("PersistentKeepalive", Itoa(p.keepalive))];
    assert ConfPeerLines(p, allowed) == public + (shared + (endpoint + (allowedLines + keepalive)));
    PeerWords();
    ReadConcat(Some(Reader("peer", c)), public, shared + (endpoint + (allowedLines + keepalive)), read);
    PeerKeyReads(c, "PublicKey", p.publicKey, read);
    PeerKeysSet(c.peer, Trim(p.publicKey));
    if KeyToHex(Trim(p.publicKey)).None? {
      ReadNone(shared + (endpoint + (allowedLines + keepalive)), read);
      return;
    }
    var c1 := c.(peer := c.peer.(publicKey := KeyToHex(Trim(p.publicKey)).value));
    ReadConcat(Some(Reader("peer", c1)), shared, endpoint + (allowedLines + keepalive), read);
    if p.preSharedKey != "" {
      PeerKeyReads(c1, "PresharedKey", p.preSharedKey, read);
      PeerKeysSet(c1.peer, Trim(p.preSharedKey));
      if KeyToHex(Trim(p.preSharedKey)).None? {
        ReadNone(endpoint + (allowedLines + keepalive), read);
        return;
      }
    } else {
      ReadNothing(Some(Reader("peer", c1)), read);
    }
    var key := if p.preSharedKey != "" then KeyToHex(Trim(p.preSharedKey)).value else "";
    var c2 := c1.(peer := c1.peer.(presharedKey := key));
    ReadConcat(Some(Reader("peer", c2)), endpoint, allowedLines + keepalive, read);
    PeerKeyReads(c2, "Endpoint", JoinHostPort(p.address, p.port), read);
    PeerKeysSet(c2.peer, Trim(JoinHostPort(p.address, p.port)));
    var c3 := c2.(peer := c2.peer.(endpoint := Trim(JoinHostPort(p.address, p.port))));
    ReadConcat(Some(Reader("peer", c3)), allowedLines, keepalive, read);
    AllowedRead(c3, allowed, read);
    assert [] + AllParts(allowed) == AllParts(allowed);
    var c4 := c3.(peer := c3.peer.(allowedIPs := AllParts(allowed)));
    KeepaliveWord();
    ItoaPlain(p.keepalive);
    AtoiItoa(p.keepalive);
    TrimTrimmed(Itoa(p.keepalive));
    PeerKeyReads(c4, "PersistentKeepalive", Itoa(p.keepalive), read);
    PeerKeysSet(c4.peer, Itoa(p.keepalive));
  }

  lemma ReadNothing(start: Option<Reader>, read: AddrReader)
    ensures ReadLines(start, [], read) == start
  {
  }

  // ---- The whole file ----

  lemma HeadersRead(c: Config, section: string, read: AddrReader)
    ensures ReadLine(Reader(section, c), "[Interface]", read) == Some(Reader("interface", c))
    ensures ReadLine(Reader(section, c), "[Peer]", read) == Some(Reader("peer", c))
    ensures ReadLine(Reader(section, c), "", read) == Some(Reader(section, c))
  {
    hide SetKey, Cut, Lower, TrimBrackets, TrimLeft, TrimRight;
    TrimTrimmed("[Interface]");
    TrimTrimmed("[Peer]");
    TrimTrimmed("");
    InterfaceHeader();
    PeerHeader();
  }

  lemma BracketsTrimmed(name: string)
    requires KeyWord(name)
    ensures TrimBrackets("[" + name + "]") == name
  {
    BracketsExactly("[", name, "]");
  }

  lemma InterfaceHeader()
    ensures Lower(TrimBrackets("[Interface]")) == "interface"
  {
    hide TrimBrackets;
    BracketsTrimmed("Interface");
    assert "[" + "Interface" + "]" == "[Interface]";
    assert Lower("Interface") == "interface";
  }

  lemma PeerHeader()
    ensures Lower(TrimBrackets("[Peer]")) == "peer"
  {
    hide TrimBrackets;
    BracketsTrimmed("Peer");
    assert "[" + "Peer" + "]" == "[Peer]";
    assert Lower("Peer") == "peer";
  }

  lemma LineIsOneLine(key: string, value: string)
    requires KeyWord(key) && OneLine(value)
    ensures OneLine(Line(key, value))
  {
    KeyWordIs(key);
  }

  lemma {:induction false} KeyLinesOneLine(key: string, values: seq<string>)
    requires KeyWord(key) && OneLineAll(values)
    ensures forall l | l in KeyLines(key, values) :: OneLine(l)
  {
    hide Line, OneLine, KeyWord;
    if values != [] {
      KeyLinesOneLine(key, values[..|values| - 1]);
      LineIsOneLine(key, values[|values| - 1]);
    }
  }

  lemma {:induction false} ScalarLinesOneLine(scalars: map<Param, string>, params: seq<Param>)
    requires forall p | p in scalars :: OneLine(scalars[p])
    ensures forall l | l in ScalarLines(scalars, params) :: OneLine(l)
  {
    hide Line, OneLine, KeyWord, ConfName, ParamOf, Lower;
    if params != [] {
      var p := params[|params| - 1];
      ScalarLinesOneLine(scalars, params[..|params| - 1]);
      if Set(scalars, p) {
        ConfNameReads(p);
        LineIsOneLine(ConfName(p), scalars[p]);
      }
    }
  }

  lemma InterfaceLinesOneLine(e: Endpoint)
    requires Renderable(e)
    ensures forall l | l in InterfaceLines(e) :: OneLine(l)
  {
    hide Line, OneLine, KeyLines, ScalarLines, Itoa;
    assert KeyWord("PrivateKey") && KeyWord("Address") && KeyWord("MTU") && KeyWord("DNS");
    LineIsOneLine("PrivateKey", e.privateKey);
    KeyLinesOneLine("Address", e.address);
    ItoaPlain(e.mtu);
    LineIsOneLine("MTU", Itoa(e.mtu));
    KeyLinesOneLine("DNS", e.dns);
    ScalarLinesOneLine(e.scalars, PARAMS);
  }

  lemma PeerLinesOneLine(p: EndpointPeer, allowed: seq<string>)
    requires RenderablePeer(p) && OneLineAll(allowed)
    ensures forall l | l in ConfPeerLines(p, allowed) :: OneLine(l)
  {
    hide Line, KeyLines, Itoa, KeyWord, Lower, OneLine, JoinHostPort;
    PeerWords();
    KeepaliveWord();
    ListWords();
    LineIsOneLine("PublicKey", p.publicKey);
    LineIsOneLine("PresharedKey", p.preSharedKey);
    JoinedIsOneLine(p.address, p.port);
    LineIsOneLine("Endpoint", JoinHostPort(p.address, p.port));
    KeyLinesOneLine("AllowedIPs", allowed);
    ItoaPlain(p.keepalive);
    LineIsOneLine("PersistentKeepalive", Itoa(p.keepalive));
  }

  /** Reading the file of an endpoint gives what the file means, the same configuration or none, for any number of
      addresses, servers and allowed addresses, any subset of the parameters and any reader of addresses. */
  lemma RenderingGives(e: Endpoint, allowed: seq<string>, read: AddrReader)
    requires Renderable(e) && OneLineAll(allowed)
    ensures ReadConf(Text(ConfLinesWith(e, allowed)), read) == FileOf(e, allowed, read)
  {
    hide ReadLine, ReadLines, InterfaceLines, ConfPeerLines, FileInterface, FilePeer, OneLine, Split;
    var interface_, peer := InterfaceLines(e), ConfPeerLines(e.peers[0], allowed);
    var start := Some(Reader("", EMPTY));
    InterfaceLinesOneLine(e);
    PeerLinesOneLine(e.peers[0], allowed);
    HeadersOneLine();
    SplitText(ConfLinesWith(e, allowed));
    var lines := ["[Interface]"] + (interface_ + (["[Peer]"] + (peer + [""])));
    assert ConfLinesWith(e, allowed) + [""] == lines;
    ReadConcat(start, ["[Interface]"], interface_ + (["[Peer]"] + (peer + [""])), read);
    ReadHeader(start.value, "[Interface]", read);
    HeadersRead(EMPTY, "", read);
    ReadConcat(Some(Reader("interface", EMPTY)), interface_, ["[Peer]"] + (peer + [""]), read);
    InterfaceReads(e, read);
    if FileInterface(e, read).None? {
      ReadNone(["[Peer]"] + (peer + [""]), read);
      return;
    }
    var c := FileInterface(e, read).value;
    InterfaceHasNoPeer(e, read);
    ReadConcat(Some(Reader("interface", c)), ["[Peer]"], peer + [""], read);
    ReadHeader(Reader("interface", c), "[Peer]", read);
    HeadersRead(c, "interface", read);
    ReadConcat(Some(Reader("peer", c)), peer, [""], read);
    PeerReads(c, e.peers[0], allowed, read);
    if FilePeer(e.peers[0], allowed).None? {
      ReadNone([""], read);
      return;
    }
    var full := c.(peer := FilePeer(e.peers[0], allowed).value);
    ReadHeader(Reader("peer", full), "", read);
    HeadersRead(full, "peer", read);
    KeysAreThere(e, allowed, read);
  }

  lemma HeadersOneLine()
    ensures OneLine("[Interface]") && OneLine("[Peer]")
  {
  }

  lemma ReadHeader(r: Reader, line: string, read: AddrReader)
    ensures ReadLines(Some(r), [line], read) == ReadLine(r, line, read)
  {
    hide ReadLine;
    assert [] + [line] == [line];
    ReadSnoc(Some(r), [], line, read);
  }

  lemma InterfaceHasNoPeer(e: Endpoint, read: AddrReader)
    ensures FileInterface(e, read).Some? ==> FileInterface(e, read).value.peer == EMPTY.peer
  {
    hide KeyToHex, AddLists, AllReadable, StoreAll, Trim;
  }

  lemma KeysAreThere(e: Endpoint, allowed: seq<string>, read: AddrReader)
    requires |e.peers| == 1 && FileInterface(e, read).Some? && FilePeer(e.peers[0], allowed).Some?
    ensures FileInterface(e, read).value.privateKey != "" && FilePeer(e.peers[0], allowed).value.publicKey != ""
  {
    hide KeyToHex, AddLists, AllReadable, StoreAll, Trim;
  }

  /** What a file leaves out is as it is by default: an MTU of 1420, and no servers, parameters, pre-shared key,
      endpoint, allowed addresses or keepalive. */
  lemma DefaultsRead(privateKey: string, address: string, publicKey: string, read: AddrReader)
    requires OneLine(privateKey) && OneLine(address) && OneLine(publicKey)
    requires KeyToHex(Trim(privateKey)).Some? && KeyToHex(Trim(publicKey)).Some?
    requires ParseAddrList(address, read).Some? && ParseAddrList(address, read).value != []
    ensures ReadConf(Text(["[Interface]", Line("PrivateKey", privateKey), Line("Address", address),
                           "[Peer]", Line("PublicKey", publicKey)]), read)
         == Some(Config(KeyToHex(Trim(privateKey)).value, ParseAddrList(address, read).value, 1420, [], map[],
                        Peer(KeyToHex(Trim(publicKey)).value, "", "", [], 0)))
  {
    hide ReadLine, KeyToHex, ParseAddrList, Line, Trim, Split, Kept, KeyWord, Lower, OneLine;
    var lines := ["[Interface]", Line("PrivateKey", privateKey), Line("Address", address),
                  "[Peer]", Line("PublicKey", publicKey)];
    DefaultLinesAreLines(privateKey, address, publicKey);
    SplitText(lines);
    var start, addrs := Reader("", EMPTY), ParseAddrList(address, read).value;
    HeadersRead(EMPTY, "", read);
    PrivateKeyReads(EMPTY, privateKey, read);
    var c1 := EMPTY.(privateKey := KeyToHex(Trim(privateKey)).value);
    ListWords();
    LineReads(Reader("interface", c1), "Address", address, read);
    AddressSets(c1, Trim(address), read);
    TrimmedListIsSame(address, read);
    assert [] + addrs == addrs;
    var c2 := c1.(addresses := addrs);
    HeadersRead(c2, "interface", read);
    PeerWords();
    PeerKeyReads(c2, "PublicKey", publicKey, read);
    PeerKeysSet(c2.peer, Trim(publicKey));
    var c3 := c2.(peer := c2.peer.(publicKey := KeyToHex(Trim(publicKey)).value));
    HeadersRead(c3, "peer", read);
    DefaultSteps(lines, c1, c2, c3, read);
  }

  lemma DefaultLinesAreLines(privateKey: string, address: string, publicKey: string)
    requires OneLine(privateKey) && OneLine(address) && OneLine(publicKey)
    ensures forall l | l in ["[Interface]", Line("PrivateKey", privateKey), Line("Address", address),
                             "[Peer]", Line("PublicKey", publicKey)] :: OneLine(l)
  {
    hide Line, OneLine, KeyWord, Lower;
    HeadersOneLine();
    ListWords();
    PeerWords();
    PrivateWord();
    LineIsOneLine("PrivateKey", privateKey);
    LineIsOneLine("Address", address);
    LineIsOneLine("PublicKey", publicKey);
  }

  lemma PrivateWord()
    ensures KeyWord("PrivateKey") && Lower("PrivateKey") == "privatekey"
  {
  }

  /** Five lines and the end of the last, one after the other. */
  lemma DefaultSteps(lines: seq<string>, c1: Config, c2: Config, c3: Config, read: AddrReader)
    requires |lines| == 5
    requires ReadLine(Reader("", EMPTY), lines[0], read) == Some(Reader("interface", EMPTY))
    requires ReadLines(Some(Reader("interface", EMPTY)), [lines[1]], read) == Some(Reader("interface", c1))
    requires ReadLine(Reader("interface", c1), lines[2], read) == Some(Reader("interface", c2))
    requires ReadLine(Reader("interface", c2), lines[3], read) == Some(Reader("peer", c2))
    requires ReadLines(Some(Reader("peer", c2)), [lines[4]], read) == Some(Reader("peer", c3))
    requires ReadLine(Reader("peer", c3), "", read) == Some(Reader("peer", c3))
    ensures ReadLines(Some(Reader("", EMPTY)), lines + [""], read) == Some(Reader("peer", c3))
  {
    hide ReadLine, ReadLines;
    var start := Some(Reader("", EMPTY));
    var a, b, c, d, e, f := [lines[0]], [lines[1]], [lines[2]], [lines[3]], [lines[4]], [""];
    assert lines + [""] == a + (b + (c + (d + (e + f))));
    ReadHeader(Reader("", EMPTY), lines[0], read);
    ReadConcat(start, a, b + (c + (d + (e + f))), read);
    ReadConcat(Some(Reader("interface", EMPTY)), b, c + (d + (e + f)), read);
    ReadConcat(Some(Reader("interface", c1)), c, d + (e + f), read);
    ReadHeader(Reader("interface", c1), lines[2], read);
    ReadConcat(Some(Reader("interface", c2)), d, e + f, read);
    ReadHeader(Reader("interface", c2), lines[3], read);
    ReadConcat(Some(Reader("peer", c2)), e, f, read);
    ReadHeader(Reader("peer", c3), "", read);
  }

  // ---- When the two forms converge ----

  predicate Tidy(part: string) {
    part != "" && Trimmed(part) && ',' !in part
  }

  predicate TidyAll(parts: seq<string>) {
    forall i | 0 <= i < |parts| :: Tidy(parts[i])
  }

  /** Each key is one, once trimmed, each list is of addresses, and there is an address. */
  predicate FileReads(e: Endpoint, read: AddrReader)
    requires |e.peers| == 1
  {
    var p := e.peers[0];
    && KeyToHex(Trim(e.privateKey)).Some? && KeyToHex(Trim(p.publicKey)).Some?
    && (p.preSharedKey != "" ==> KeyToHex(Trim(p.preSharedKey)).Some?)
    && AllReadable(TrimmedScalars(e.scalars))
    && AddLists(e.dns, read).Some? && AddLists(e.address, read).Some? && AddLists(e.address, read).value != []
  }

  /** The endpoint is of the type meant, says where its peer is, and each of its keys is one as it stands. */
  predicate Accepted(e: Endpoint)
    requires |e.peers| == 1
  {
    var p := e.peers[0];
    && (e.kind == "" || e.kind == "amneziawg") && p.address != "" && p.port != 0
    && KeyToHex(e.privateKey).Some? && KeyToHex(p.publicKey).Some?
    && (p.preSharedKey != "" ==> KeyToHex(p.preSharedKey).Some?)
    && ScalarsReadable(e.scalars)
  }

  /** What is passed on as text has no spaces around it, and an allowed address is one. */
  predicate Carried(e: Endpoint)
    requires |e.peers| == 1
  {
    && (forall p | p in e.scalars :: Set(e.scalars, p) && !p.HeaderProtectionKey? ==> Trimmed(e.scalars[p]))
    && Trimmed(JoinHostPort(e.peers[0].address, e.peers[0].port))
    && TidyAll(AllowedOf(e.peers[0]))
  }

  lemma {:induction false} KeptIsTidy(parts: seq<string>)
    requires forall p | p in parts :: ',' !in p
    ensures TidyAll(Kept(parts))
  {
    hide Trim, Trimmed;
    if parts != [] {
      KeptIsTidy(parts[..|parts| - 1]);
      assert parts[|parts| - 1] in parts;
      TrimIs(parts[|parts| - 1]);
    }
  }

  lemma {:induction false} AllPartsAreTidy(allowed: seq<string>)
    ensures TidyAll(AllParts(allowed))
  {
    hide Split, Tidy;
    if allowed != [] {
      AllPartsAreTidy(allowed[..|allowed| - 1]);
      SplitParts(allowed[|allowed| - 1], ',');
      KeptIsTidy(Split(allowed[|allowed| - 1], ','));
    }
  }

  lemma TidyIsKept(part: string)
    requires Tidy(part)
    ensures Kept(Split(part, ',')) == [part]
  {
    hide Split, Trim;
    SplitNone(part, ',');
    TrimTrimmed(part);
    assert [part][..0] == [];
  }

  lemma {:induction false} TidyIsSame(allowed: seq<string>)
    requires TidyAll(allowed)
    ensures AllParts(allowed) == allowed
  {
    hide Split, Kept, Tidy;
    if allowed != [] {
      TidyIsSame(allowed[..|allowed| - 1]);
      TidyIsKept(allowed[|allowed| - 1]);
    }
  }

  /** The allowed addresses come through a file as they are exactly when each is a single one. */
  lemma FileAllowedExactly(allowed: seq<string>)
    ensures AllParts(allowed) == allowed <==> TidyAll(allowed)
  {
    hide AllParts, TidyAll;
    AllPartsAreTidy(allowed);
    if TidyAll(allowed) {
      TidyIsSame(allowed);
    }
  }

  lemma StoredExactly(p: Param, value: string)
    requires Readable(p, value)
    ensures Readable(p, Trim(value))
    ensures Stored(p, Trim(value)) == Stored(p, value) <==> p.HeaderProtectionKey? || Trimmed(value)
  {
    hide KeyToHex, Trim, Trimmed;
    if p.HeaderProtectionKey? {
      TrimmedKeyIsSame(value);
    } else {
      TrimmedExactly(value);
    }
  }

  lemma ScalarsExactly(scalars: map<Param, string>)
    requires ScalarsReadable(scalars)
    ensures AllReadable(TrimmedScalars(scalars))
    ensures StoreAll(TrimmedScalars(scalars)) == Obfuscation(scalars) <==>
      (forall p | p in scalars :: Set(scalars, p) && !p.HeaderProtectionKey? ==> Trimmed(scalars[p]))
  {
    hide Readable, Stored, Trim, Trimmed;
    forall p | p in scalars && Set(scalars, p)
      ensures Readable(p, scalars[p]) && Readable(p, Trim(scalars[p]))
      ensures Stored(p, Trim(scalars[p])) == Stored(p, scalars[p]) <==> p.HeaderProtectionKey? || Trimmed(scalars[p])
    {
      StoredExactly(p, scalars[p]);
    }
    var file, own := StoreAll(TrimmedScalars(scalars)), Obfuscation(scalars);
    assert file.Keys == own.Keys;
    assert forall p | p in own ::
      p in scalars && Set(scalars, p) && file[p] == Stored(p, Trim(scalars[p])) && own[p] == Stored(p, scalars[p]);
    assert file == own <==> forall p | p in own :: file[p] == own[p];
    assert forall p | p in scalars && Set(scalars, p) :: p in own;
  }

  lemma InterfaceExactly(e: Endpoint, read: AddrReader)
    requires InterfaceOf(e, read).Some?
    ensures FileInterface(e, read).Some? && ScalarsReadable(e.scalars) && AllReadable(TrimmedScalars(e.scalars))
    ensures FileInterface(e, read).value ==
      InterfaceOf(e, read).value.(obfuscation := StoreAll(TrimmedScalars(e.scalars)))
    ensures InterfaceOf(e, read).value.obfuscation == Obfuscation(e.scalars)
  {
    hide KeyToHex, Trim, AddLists, ScalarsReadable, AllReadable, StoreAll, Obfuscation, TrimmedScalars;
    TrimmedKeyIsSame(e.privateKey);
    ScalarsExactly(e.scalars);
  }

  lemma PeerExactly(p: EndpointPeer)
    requires PeerOf(p).Some?
    ensures FilePeer(p, AllowedOf(p)).Some?
    ensures FilePeer(p, AllowedOf(p)).value == PeerOf(p).value <==>
      Trimmed(JoinHostPort(p.address, p.port)) && TidyAll(AllowedOf(p))
  {
    hide KeyToHex, Trim, Trimmed, JoinHostPort, AllParts, TidyAll, AllowedOf;
    TrimmedKeyIsSame(p.publicKey);
    if p.preSharedKey != "" {
      TrimmedKeyIsSame(p.preSharedKey);
    }
    TrimmedExactly(JoinHostPort(p.address, p.port));
    FileAllowedExactly(AllowedOf(p));
  }

  /** Where the endpoint gives a configuration, so does its file, and the same one exactly when it carries it. */
  lemma ConvertedExactly(e: Endpoint, read: AddrReader)
    requires ConfigOf(e, read).Some?
    ensures FileOf(e, AllowedOf(e.peers[0]), read).Some?
    ensures FileOf(e, AllowedOf(e.peers[0]), read) == ConfigOf(e, read) <==> Carried(e)
  {
    hide InterfaceOf, PeerOf, FileInterface, FilePeer, Trimmed, TidyAll, StoreAll, TrimmedScalars, Obfuscation,
      ScalarsReadable, AllReadable, JoinHostPort, AllowedOf;
    InterfaceExactly(e, read);
    PeerExactly(e.peers[0]);
    ScalarsExactly(e.scalars);
  }

  /** Where the file gives a configuration, the endpoint does exactly when it is one that is accepted. */
  lemma AcceptedExactly(e: Endpoint, allowed: seq<string>, read: AddrReader)
    requires |e.peers| == 1 && FileOf(e, allowed, read).Some?
    ensures ConfigOf(e, read).Some? <==> Accepted(e)
  {
    hide KeyToHex, Trim, AddLists, ScalarsReadable, AllReadable, StoreAll, Obfuscation, TrimmedScalars, JoinHostPort,
      AllParts;
  }

  lemma AllowedOfIsOneLine(e: Endpoint)
    requires Renderable(e)
    ensures OneLineAll(AllowedOf(e.peers[0]))
  {
    EmptyIsOneLine();
  }

  lemma FileReadsExactly(e: Endpoint, allowed: seq<string>, read: AddrReader)
    requires |e.peers| == 1
    ensures FileOf(e, allowed, read).Some? <==> FileReads(e, read)
  {
    hide KeyToHex, Trim, AddLists, AllReadable, StoreAll, TrimmedScalars, JoinHostPort, AllParts;
  }

  /** The two forms converge: an endpoint and its file give the same configuration, or none, exactly when the file
      does not read, or the endpoint is accepted and the file carries it. */
  lemma FormsConverge(e: Endpoint, read: AddrReader)
    requires Renderable(e)
    ensures ReadConf(Text(ConfLines(e)), read).Some? <==> FileReads(e, read)
    ensures ConfigOf(e, read).Some? <==> FileReads(e, read) && Accepted(e)
    ensures ReadConf(Text(ConfLines(e)), read) == ConfigOf(e, read)
       <==> (FileReads(e, read) ==> Accepted(e) && Carried(e))
  {
    hide ConfigOf, ReadConf, Text, ConfLinesWith, FileOf, FileReads, Accepted, Carried, AllowedOf;
    var allowed := AllowedOf(e.peers[0]);
    AllowedOfIsOneLine(e);
    RenderingGives(e, allowed, read);
    FileReadsExactly(e, allowed, read);
    if ConfigOf(e, read).Some? {
      ConvertedExactly(e, read);
    }
    if FileOf(e, allowed, read).Some? {
      AcceptedExactly(e, allowed, read);
    }
  }

  /** Of the form a node is written in: of the type meant, with somewhere to reach its peer, and no space, line end
      or comma where none belongs. */
  ghost predicate Canonical(e: Endpoint) {
    && Renderable(e) && (e.kind == "" || e.kind == ENDPOINT_TYPE)
    && Trimmed(e.privateKey) && (forall p | p in e.scalars :: Trimmed(e.scalars[p]))
    && CanonicalPeer(e.peers[0])
  }

  ghost predicate CanonicalPeer(p: EndpointPeer) {
    && Trimmed(p.address) && p.address != "" && p.port != 0
    && Trimmed(p.publicKey) && Trimmed(p.preSharedKey) && TidyAll(p.allowedIPs)
  }

  lemma JoinedIsTrimmed(host: string, port: int)
    requires host != "" && Trimmed(host)
    ensures Trimmed(JoinHostPort(host, port))
  {
    ItoaPlain(port);
    var digits, s := Itoa(port), JoinHostPort(host, port);
    assert s[|s| - 1] == digits[|digits| - 1];
  }

  lemma CanonicalIsCarried(e: Endpoint)
    requires Canonical(e)
    ensures Carried(e)
  {
    hide Trimmed, JoinHostPort, Tidy;
    JoinedIsTrimmed(e.peers[0].address, e.peers[0].port);
    assert Tidy("0.0.0.0/0") by { DefaultIsTidy(); }
  }

  lemma DefaultIsTidy()
    ensures Tidy("0.0.0.0/0")
  {
  }

  lemma CanonicalIsAccepted(e: Endpoint, read: AddrReader)
    requires Canonical(e) && FileReads(e, read)
    ensures Accepted(e)
  {
    hide KeyToHex, Trim, Trimmed, AddLists, TidyAll, OneLineAll, OneLine;
    var p := e.peers[0];
    TrimTrimmed(e.privateKey);
    TrimTrimmed(p.publicKey);
    TrimTrimmed(p.preSharedKey);
    forall q | q in e.scalars && Set(e.scalars, q)
      ensures Readable(q, e.scalars[q])
    {
      TrimTrimmed(e.scalars[q]);
      assert TrimmedScalars(e.scalars)[q] == e.scalars[q];
    }
  }

  /** So an endpoint in that form and its file always give the same configuration, or the same refusal. */
  lemma CanonicalConverges(e: Endpoint, read: AddrReader)
    requires Canonical(e)
    ensures ReadConf(Text(ConfLines(e)), read) == ConfigOf(e, read)
  {
    hide ConfigOf, ReadConf, ConfLines, FileReads, Accepted, Carried;
    FormsConverge(e, read);
    CanonicalIsCarried(e);
    if FileReads(e, read) {
      CanonicalIsAccepted(e, read);
    }
  }

  lemma SomeNodeIsRenderable(key: string, jc: string)
    requires OneLine(key) && OneLine(jc)
    ensures Renderable(SomeNode(key, jc))
  {
  }

  /** They do not always: there is an accepted node whose file is accepted for another configuration, its value
      trimmed; and one of another type, refused, whose file is accepted. */
  lemma DivergenceHappens() returns (e: Endpoint, other: Endpoint, read: AddrReader)
    ensures Renderable(e) && ConfigOf(e, read).Some? && ReadConf(Text(ConfLines(e)), read).Some?
    ensures ReadConf(Text(ConfLines(e)), read) != ConfigOf(e, read)
    ensures Renderable(other) && ConfigOf(other, read).None? && ReadConf(Text(ConfLines(other)), read).Some?
  {
    hide ConfigOf, ReadConf, Text, ConfLines, KeyToHex, Trimmed, JoinHostPort, TidyAll;
    var key := SomeKey();
    read := s => Some(Addr([10, 0, 0, 2], ""));
    e := SomeNode(key, " 4");
    SomeNodeConverts(key, " 4", read);
    SomeNodeIsRenderable(key, " 4");
    FormsConverge(e, read);
    assert !Trimmed(" 4") by { SpaceInFront(); }
    assert e.scalars[Jc] == " 4" && !Carried(e);
    other := e.(kind := "wireguard");
    FormsConverge(other, read);
  }

  lemma SpaceInFront()
    ensures !Trimmed(" 4")
  {
  }

  /** The default has to be written out: without it a file allows no address at all. */
  lemma WithoutAllowedLine(e: Endpoint, read: AddrReader)
    requires Renderable(e) && ConfigOf(e, read).Some? && e.peers[0].allowedIPs == []
    ensures ReadConf(Text(ConfLinesWith(e, [])), read).Some?
    ensures ReadConf(Text(ConfLinesWith(e, [])), read).value.peer.allowedIPs == []
    ensures ConfigOf(e, read).value.peer.allowedIPs == ["0.0.0.0/0"]
  {
    hide ReadConf, ConfLinesWith, InterfaceOf, FileInterface, KeyToHex, JoinHostPort, Trim;
    RenderingGives(e, [], read);
    InterfaceExactly(e, read);
    TrimmedKeyIsSame(e.peers[0].publicKey);
    if e.peers[0].preSharedKey != "" {
      TrimmedKeyIsSame(e.peers[0].preSharedKey);
    }
  }

  // ---- Telling the forms apart ----

  predicate LooksLikeJson(text: string) {
    var t := Trim(text);
    t != "" && t[0] == '{'
  }

  /** It does exactly when its first character, spaces aside, is a brace. */
  lemma LooksLikeJsonExactly(text: string)
    ensures LooksLikeJson(text) <==> exists a, rest :: Spaces(a) && text == a + "{" + rest
  {
    hide IsSpace;
    var k := TrimLeftIs(text);
    var j := TrimRightIs(text[k..]);
    if LooksLikeJson(text) {
      assert Spaces(text[..k]) && text == text[..k] + "{" + text[k + 1..];
    }
    if a, rest :| Spaces(a) && text == a + "{" + rest {
      TrimLeftPad(a, "{" + rest);
      assert text == a + ("{" + rest);
      BraceIsNoSpace();
      assert ("{" + rest)[0] == '{' && TrimLeft("{" + rest) == "{" + rest;
      TrimRightConcat("{", rest);
    }
  }

  lemma BraceIsNoSpace()
    ensures !IsSpace('{') && TrimRight("{") == "{"
  {
  }

  /** Either form, given a reader of the JSON one. */
  function Parse(text: string, json: string -> Option<Endpoint>, read: AddrReader): Option<Config> {
    if LooksLikeJson(text) then
      match json(text)
      case Some(e) => ConfigOf(e, read)
      case None => None
    else ReadConf(text, read)
  }

  /** A node pasted as a file and the same node in the subscription's form give the same exactly then. */
  lemma EitherFormParses(e: Endpoint, text: string, json: string -> Option<Endpoint>, read: AddrReader)
    requires Renderable(e) && LooksLikeJson(text) && json(text) == Some(e)
    ensures Parse(text, json, read) == Parse(Text(ConfLines(e)), json, read)
       <==> (FileReads(e, read) ==> Accepted(e) && Carried(e))
    ensures Canonical(e) ==> Parse(text, json, read) == Parse(Text(ConfLines(e)), json, read)
  {
    hide ConfigOf, ReadConf, Canonical, FileReads, Accepted, Carried, ConfLines;
    FormsConverge(e, read);
    ConfIsNotJson(e);
    if Canonical(e) {
      CanonicalConverges(e, read);
    }
  }

  lemma ConfIsNotJson(e: Endpoint)
    requires |e.peers| == 1
    ensures !LooksLikeJson(Text(ConfLines(e)))
  {
    hide InterfaceLines, ConfPeerLines;
    var text := Text(ConfLines(e));
    assert ConfLines(e)[0] == "[Interface]";
    assert text[0] == '[';
    assert TrimLeft(text) == text;
    var k := TrimRightIs(text);
    if k > 0 {
      assert Trim(text)[0] == '[';
    }
  }
}
