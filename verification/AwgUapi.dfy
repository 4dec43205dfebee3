/** The configuration as the device is told it, and a reader of that form. */
module AwgUapi {
  import opened Wrappers
  import opened Strings
  import opened AwgConfig

  /** What the device calls a parameter. */
  function UapiName(p: Param): string {
    match p
    case Jc => "jc" case Jmin => "jmin" case Jmax => "jmax"
    case S1 => "s1" case S2 => "s2" case S3 => "s3" case S4 => "s4"
    case H1 => "h1" case H2 => "h2" case H3 => "h3" case H4 => "h4"
    case I1 => "i1" case I2 => "i2" case I3 => "i3" case I4 => "i4" case I5 => "i5"
    case HeaderProtectionKey => "header_protection_key"
    case ContentPaddingAddition => "content_padding_addition"
    case RekeyAfterTime => "rekey_after_time"
    case RekeyTimeout => "rekey_timeout"
    case RejectAfterTime => "reject_after_time"
    case KeepaliveTimeout => "keepalive_timeout"
    case MaxHandshakeAttempts => "max_handshake_attempts"
    case RandomTrailers => "random_trailers"
    case DisableCookies => "disable_cookies"
  }

  /** A flag as the device reads it, where it is one of the words a file uses; anything else as it is. */
  function UapiValue(p: Param, value: string): string {
    if !p.RandomTrailers? && !p.DisableCookies? then value
    else
      var word := Lower(Trim(value));
      if word == "on" || word == "true" || word == "1" || word == "yes" then "true"
      else if word == "off" || word == "false" || word == "0" || word == "no" then "false"
      else value
  }

  // ---- Writing ----

  function ParamLines(obfuscation: map<Param, string>, params: seq<Param>): seq<string> {
    if params == [] then []
    else
      var p := params[|params| - 1];
      ParamLines(obfuscation, params[..|params| - 1])
      + if p in obfuscation then [UapiName(p) + "=" + UapiValue(p, obfuscation[p])] else []
  }

  function AllowedLines(allowed: seq<string>): seq<string> {
    if allowed == [] then []
    else AllowedLines(allowed[..|allowed| - 1]) + ["allowed_ip" + "=" + allowed[|allowed| - 1]]
  }

  function PeerLines(p: Peer): seq<string> {
    ["public_key" + "=" + p.publicKey]
    + (if p.presharedKey != "" then ["preshared_key" + "=" + p.presharedKey] else [])
    + (if p.endpoint != "" then ["endpoint" + "=" + p.endpoint] else [])
    + AllowedLines(p.allowedIPs)
    + (if p.keepalive > 0 then ["persistent_keepalive_interval" + "=" + Itoa(p.keepalive)] else [])
  }

  /** The order matters: what follows public_key belongs to the peer. */
  function IpcLines(c: Config): seq<string> {
    ["private_key" + "=" + c.privateKey] + ParamLines(c.obfuscation, PARAMS) + PeerLines(c.peer)
  }

  /** IPC builds the text line by line. */
  method Ipc(c: Config) returns (b: string)
    ensures b == Text(IpcLines(c))
  {
    hide UapiName, UapiValue, Itoa;
    ghost var lines := ["private_key" + "=" + c.privateKey];
    TextSnoc([], lines[0]);
    assert [] + [lines[0]] == lines;
    b := "private_key" + "=" + c.privateKey + "\n";
    for i := 0 to |PARAMS|
      invariant lines == ["private_key" + "=" + c.privateKey] + ParamLines(c.obfuscation, PARAMS[..i])
      invariant b == Text(lines)
    {
      assert PARAMS[..i + 1][..i] == PARAMS[..i];
      var p := PARAMS[i];
      if p in c.obfuscation {
        ghost var line := UapiName(p) + "=" + UapiValue(p, c.obfuscation[p]);
        TextSnoc(lines, line);
        lines := lines + [line];
        b := b + (UapiName(p) + "=" + UapiValue(p, c.obfuscation[p])) + "\n";
      }
    }
    assert PARAMS[..|PARAMS|] == PARAMS;
    b, lines := IpcPeer(c.peer, b, lines);
  }

  method IpcPeer(p: Peer, start: string, ghost before: seq<string>) returns (b: string, ghost lines: seq<string>)
    requires start == Text(before)
    ensures b == Text(lines)
    ensures lines == before + PeerLines(p)
  {
    hide Itoa, Text, PeerLines;
    TextSnoc(before, "public_key" + "=" + p.publicKey);
    lines := before + ["public_key" + "=" + p.publicKey];
    b := start + ("public_key" + "=" + p.publicKey) + "\n";
    if p.presharedKey != "" {
      TextSnoc(lines, "preshared_key" + "=" + p.presharedKey);
      lines := lines + ["preshared_key" + "=" + p.presharedKey];
      b := b + ("preshared_key" + "=" + p.presharedKey) + "\n";
    }
    if p.endpoint != "" {
      TextSnoc(lines, "endpoint" + "=" + p.endpoint);
      lines := lines + ["endpoint" + "=" + p.endpoint];
      b := b + ("endpoint" + "=" + p.endpoint) + "\n";
    }
    ghost var top := lines;
    for i := 0 to |p.allowedIPs|
      invariant lines == top + AllowedLines(p.allowedIPs[..i]) && b == Text(lines)
    {
      assert p.allowedIPs[..i + 1][..i] == p.allowedIPs[..i];
      TextSnoc(lines, "allowed_ip" + "=" + p.allowedIPs[i]);
      lines := lines + ["allowed_ip" + "=" + p.allowedIPs[i]];
      b := b + ("allowed_ip" + "=" + p.allowedIPs[i]) + "\n";
    }
    assert p.allowedIPs[..|p.allowedIPs|] == p.allowedIPs;
    if p.keepalive > 0 {
      TextSnoc(lines, "persistent_keepalive_interval" + "=" + Itoa(p.keepalive));
      lines := lines + ["persistent_keepalive_interval" + "=" + Itoa(p.keepalive)];
      b := b + ("persistent_keepalive_interval" + "=" + Itoa(p.keepalive)) + "\n";
    }
    PeerLinesAre(p, before, lines);
  }

  lemma PeerLinesAre(p: Peer, before: seq<string>, lines: seq<string>)
    requires lines == before
      + ["public_key" + "=" + p.publicKey]
      + (if p.presharedKey != "" then ["preshared_key" + "=" + p.presharedKey] else [])
      + (if p.endpoint != "" then ["endpoint" + "=" + p.endpoint] else [])
      + AllowedLines(p.allowedIPs)
      + (if p.keepalive > 0 then ["persistent_keepalive_interval" + "=" + Itoa(p.keepalive)] else [])
    ensures lines == before + PeerLines(p)
  {
    hide Itoa, AllowedLines;
  }

  // ---- Reading ----

  /** What the device calls its parameters, the other way. */
  function ParamOfUapi(name: string): Option<Param> {
    if name == "header_protection_key" then Some(HeaderProtectionKey)
    else if name == "content_padding_addition" then Some(ContentPaddingAddition)
    else if name == "rekey_after_time" then Some(RekeyAfterTime)
    else if name == "rekey_timeout" then Some(RekeyTimeout)
    else if name == "reject_after_time" then Some(RejectAfterTime)
    else if name == "keepalive_timeout" then Some(KeepaliveTimeout)
    else if name == "max_handshake_attempts" then Some(MaxHandshakeAttempts)
    else if name == "random_trailers" then Some(RandomTrailers)
    else if name == "disable_cookies" then Some(DisableCookies)
    else if |name| <= 4 then ParamOf(name)
    else None
  }

  datatype UapiPeer = UapiPeer(
    publicKey: string,
    presharedKey: string,
    endpoint: string,
    allowedIPs: seq<string>,
    keepalive: int
  )

  datatype Uapi = Uapi(privateKey: string, settings: map<Param, string>, peer: Option<UapiPeer>)

  /** One setting: of the interface until public_key opens the peer, of the peer from then on. */
  function Feed(u: Uapi, key: string, value: string): Option<Uapi> {
    match u.peer
    case None =>
      if key == "private_key" then Some(u.(privateKey := value))
      else if key == "public_key" then Some(u.(peer := Some(UapiPeer(value, "", "", [], 0))))
      else (match ParamOfUapi(key)
            case Some(p) => Some(u.(settings := u.settings[p := value]))
            case None => None)
    case Some(peer) =>
      if key == "preshared_key" then Some(u.(peer := Some(peer.(presharedKey := value))))
      else if key == "endpoint" then Some(u.(peer := Some(peer.(endpoint := value))))
      else if key == "allowed_ip" then Some(u.(peer := Some(peer.(allowedIPs := peer.allowedIPs + [value]))))
      else if key == "persistent_keepalive_interval" then
        (match Atoi(value)
         case Some(n) => Some(u.(peer := Some(peer.(keepalive := n))))
         case None => None)
      else None
  }

  function FeedLine(u: Option<Uapi>, line: string): Option<Uapi> {
    match u
    case None => None
    case Some(before) =>
      if line == "" then u
      else
        match Cut(line, '=')
        case None => None
        case Some((key, value)) => Feed(before, key, value)
  }

  function FeedLines(start: Option<Uapi>, lines: seq<string>): Option<Uapi> {
    if lines == [] then start else FeedLine(FeedLines(start, lines[..|lines| - 1]), lines[|lines| - 1])
  }

  function ReadUapi(text: string): Option<Uapi> {
    FeedLines(Some(Uapi("", map[], None)), Split(text, '\n'))
  }

  // ---- The reader undoes the writer ----

  lemma FeedSnoc(start: Option<Uapi>, lines: seq<string>, line: string)
    ensures FeedLines(start, lines + [line]) == FeedLine(FeedLines(start, lines), line)
  {
    assert (lines + [line])[..|lines|] == lines;
  }

  lemma {:induction false} FeedConcat(start: Option<Uapi>, a: seq<string>, b: seq<string>)
    ensures FeedLines(start, a + b) == FeedLines(FeedLines(start, a), b)
  {
    if b == [] {
      assert a + b == a;
    } else {
      var n := |b| - 1;
      assert a + b == a + b[..n] + [b[n]];
      FeedConcat(start, a, b[..n]);
      FeedSnoc(start, a + b[..n], b[n]);
    }
  }

  /** A written line is read as the setting it was written from. */
  lemma FeedWritten(u: Uapi, key: string, value: string)
    requires key != "" && '=' !in key
    ensures FeedLine(Some(u), key + "=" + value) == Feed(u, key, value)
  {
    CutIs(key, '=', value);
    assert key + "=" + value == key + ['='] + value;
  }

  predicate Recent(p: Param) {
    p.HeaderProtectionKey? || p.ContentPaddingAddition? || p.RekeyAfterTime? || p.RekeyTimeout? || p.RejectAfterTime?
    || p.KeepaliveTimeout? || p.MaxHandshakeAttempts? || p.RandomTrailers? || p.DisableCookies?
  }

  lemma OldNameReads(p: Param)
    requires !Recent(p)
    ensures ParamOf(UapiName(p)) == Some(p) && |UapiName(p)| <= 4
  {
  }

  predicate IsTime(p: Param) {
    p.RekeyAfterTime? || p.RekeyTimeout? || p.RejectAfterTime? || p.KeepaliveTimeout?
  }

  lemma TimeNameReads(p: Param)
    requires IsTime(p)
    ensures ParamOfUapi(UapiName(p)) == Some(p)
  {
    hide ParamOf;
  }

  lemma OtherRecentNameReads(p: Param)
    requires Recent(p) && !IsTime(p)
    ensures ParamOfUapi(UapiName(p)) == Some(p)
  {
    hide ParamOf;
  }

  lemma RecentNameReads(p: Param)
    requires Recent(p)
    ensures ParamOfUapi(UapiName(p)) == Some(p)
  {
    hide ParamOf, UapiName, ParamOfUapi;
    if IsTime(p) {
      TimeNameReads(p);
    } else {
      OtherRecentNameReads(p);
    }
  }

  predicate PlainName(name: string) {
    name != "" && (forall i | 0 <= i < |name| :: name[i] != '=' && name[i] != '\n')
    && name != "private_key" && name != "public_key"
  }

  lemma OldNameIsPlain(p: Param)
    requires !Recent(p)
    ensures PlainName(UapiName(p))
  {
  }

  lemma RecentNameIsPlain(p: Param)
    requires Recent(p)
    ensures PlainName(UapiName(p))
  {
    match p
    case HeaderProtectionKey => assert PlainName("header_protection_key");
    case ContentPaddingAddition => assert PlainName("content_padding_addition");
    case RekeyAfterTime => assert PlainName("rekey_after_time");
    case RekeyTimeout => assert PlainName("rekey_timeout");
    case RejectAfterTime => assert PlainName("reject_after_time");
    case KeepaliveTimeout => assert PlainName("keepalive_timeout");
    case MaxHandshakeAttempts => assert PlainName("max_handshake_attempts");
    case RandomTrailers => assert PlainName("random_trailers");
    case DisableCookies => assert PlainName("disable_cookies");
  }

  lemma NameReads(p: Param)
    ensures ParamOfUapi(UapiName(p)) == Some(p)
    ensures UapiName(p) != "" && '=' !in UapiName(p) && OneLine(UapiName(p))
    ensures UapiName(p) != "private_key" && UapiName(p) != "public_key"
  {
    hide UapiName, ParamOf;
    if Recent(p) {
      RecentNameIsPlain(p);
      RecentNameReads(p);
    } else {
      OldNameIsPlain(p);
      OldNameReads(p);
    }
  }

  /** What the parameter lines tell: every parameter set, under its own name, its flag normalised. */
  function Settings(obfuscation: map<Param, string>, params: seq<Param>): map<Param, string> {
    map p | p in params && p in obfuscation :: UapiValue(p, obfuscation[p])
  }

  lemma {:induction false} FeedParams(u: Uapi, obfuscation: map<Param, string>, params: seq<Param>)
    requires u.peer.None? && u.settings == map[]
    ensures FeedLines(Some(u), ParamLines(obfuscation, params)) == Some(u.(settings := Settings(obfuscation, params)))
  {
    hide UapiName, UapiValue, ParamOfUapi;
    if params != [] {
      var n := |params| - 1;
      var p := params[n];
      FeedParams(u, obfuscation, params[..n]);
      assert params == params[..n] + [p];
      if p in obfuscation {
        var line := UapiName(p) + "=" + UapiValue(p, obfuscation[p]);
        FeedSnoc(Some(u), ParamLines(obfuscation, params[..n]), line);
        NameReads(p);
        FeedWritten(u.(settings := Settings(obfuscation, params[..n])), UapiName(p), UapiValue(p, obfuscation[p]));
        assert Settings(obfuscation, params) == Settings(obfuscation, params[..n])[p := UapiValue(p, obfuscation[p])];
      } else {
        assert Settings(obfuscation, params) == Settings(obfuscation, params[..n]);
        assert ParamLines(obfuscation, params) == ParamLines(obfuscation, params[..n]);
      }
    }
  }

  lemma FeedPeerKeys(u: Uapi, peer: UapiPeer, value: string)
    requires u.peer == Some(peer)
    ensures Feed(u, "preshared_key", value) == Some(u.(peer := Some(peer.(presharedKey := value))))
    ensures Feed(u, "endpoint", value) == Some(u.(peer := Some(peer.(endpoint := value))))
    ensures Feed(u, "allowed_ip", value) == Some(u.(peer := Some(peer.(allowedIPs := peer.allowedIPs + [value]))))
    ensures Atoi(value).Some? ==>
      Feed(u, "persistent_keepalive_interval", value) == Some(u.(peer := Some(peer.(keepalive := Atoi(value).value))))
  {
    hide Atoi;
  }

  lemma FeedPublic(u: Uapi, value: string)
    requires u.peer.None?
    ensures Feed(u, "public_key", value) == Some(u.(peer := Some(UapiPeer(value, "", "", [], 0))))
  {
  }

  lemma {:induction false} FeedAllowed(u: Uapi, peer: UapiPeer, allowed: seq<string>)
    requires u.peer == Some(peer)
    ensures FeedLines(Some(u), AllowedLines(allowed))
         == Some(u.(peer := Some(peer.(allowedIPs := peer.allowedIPs + allowed))))
  {
    hide FeedLine, Feed;
    if allowed == [] {
      assert peer.allowedIPs + allowed == peer.allowedIPs;
    } else {
      var n := |allowed| - 1;
      FeedAllowed(u, peer, allowed[..n]);
      FeedPeerKeys(u.(peer := Some(peer.(allowedIPs := peer.allowedIPs + allowed[..n]))),
                   peer.(allowedIPs := peer.allowedIPs + allowed[..n]), allowed[n]);
      FeedSnoc(Some(u), AllowedLines(allowed[..n]), "allowed_ip" + "=" + allowed[n]);
      FeedWritten(u.(peer := Some(peer.(allowedIPs := peer.allowedIPs + allowed[..n]))), "allowed_ip", allowed[n]);
      assert peer.allowedIPs + allowed[..n] + [allowed[n]] == peer.allowedIPs + allowed;
    }
  }

  /** What the reader is to recover of a configuration. */
  function Told(c: Config): Uapi {
    Uapi(c.privateKey, map p | p in c.obfuscation :: UapiValue(p, c.obfuscation[p]),
         Some(UapiPeer(c.peer.publicKey, c.peer.presharedKey, c.peer.endpoint, c.peer.allowedIPs,
                       if c.peer.keepalive > 0 then c.peer.keepalive else 0)))
  }

  lemma FeedNothing(u: Option<Uapi>)
    ensures FeedLines(u, []) == u
  {
  }

  lemma FeedOne(u: Uapi, key: string, value: string)
    requires key != "" && '=' !in key
    ensures FeedLines(Some(u), [key + "=" + value]) == Feed(u, key, value)
  {
    hide FeedLine, Feed;
    FeedNothing(Some(u));
    FeedSnoc(Some(u), [], key + "=" + value);
    FeedWritten(u, key, value);
    assert [] + [key + "=" + value] == [key + "=" + value];
  }

  lemma FeedPublicKey(u: Uapi, value: string)
    requires u.peer.None?
    ensures FeedLines(Some(u), ["public_key" + "=" + value])
         == Some(u.(peer := Some(UapiPeer(value, "", "", [], 0))))
  {
    hide FeedLines, Feed;
    FeedOne(u, "public_key", value);
    FeedPublic(u, value);
  }

  lemma FeedShared(u: Uapi, peer: UapiPeer, value: string)
    requires u.peer == Some(peer) && peer.presharedKey == ""
    ensures FeedLines(Some(u), if value != "" then ["preshared_key" + "=" + value] else [])
         == Some(u.(peer := Some(peer.(presharedKey := value))))
  {
    hide FeedLines, Feed;
    FeedNothing(Some(u));
    FeedOne(u, "preshared_key", value);
    FeedPeerKeys(u, peer, value);
  }

  lemma FeedEndpoint(u: Uapi, peer: UapiPeer, value: string)
    requires u.peer == Some(peer) && peer.endpoint == ""
    ensures FeedLines(Some(u), if value != "" then ["endpoint" + "=" + value] else [])
         == Some(u.(peer := Some(peer.(endpoint := value))))
  {
    hide FeedLines, Feed;
    FeedNothing(Some(u));
    FeedOne(u, "endpoint", value);
    FeedPeerKeys(u, peer, value);
  }

  lemma FeedKeepalive(u: Uapi, peer: UapiPeer, n: int)
    requires u.peer == Some(peer) && peer.keepalive == 0 && n <= MAX_INT
    ensures FeedLines(Some(u), if n > 0 then ["persistent_keepalive_interval" + "=" + Itoa(n)] else [])
         == Some(u.(peer := Some(peer.(keepalive := if n > 0 then n else 0))))
  {
    hide FeedLines, Feed, Itoa, Atoi;
    FeedNothing(Some(u));
    if n > 0 {
      FeedOne(u, "persistent_keepalive_interval", Itoa(n));
      AtoiItoa(n);
      FeedPeerKeys(u, peer, Itoa(n));
    }
  }

  lemma FeedPeer(u: Uapi, p: Peer)
    requires u.peer.None? && p.keepalive <= MAX_INT
    ensures FeedLines(Some(u), PeerLines(p))
      == Some(u.(peer := Some(UapiPeer(p.publicKey, p.presharedKey, p.endpoint, p.allowedIPs,
                                       if p.keepalive > 0 then p.keepalive else 0))))
  {
    hide FeedLines, Itoa, AllowedLines;
    var public := ["public_key" + "=" + p.publicKey];
    var shared := if p.presharedKey != "" then ["preshared_key" + "=" + p.presharedKey] else [];
    var endpoint := if p.endpoint != "" then ["endpoint" + "=" + p.endpoint] else [];
    var allowed := AllowedLines(p.allowedIPs);
    var alive := if p.keepalive > 0 then ["persistent_keepalive_interval" + "=" + Itoa(p.keepalive)] else [];
    assert PeerLines(p) == public + shared + endpoint + allowed + alive;
    FeedConcat(Some(u), public + shared + endpoint + allowed, alive);
    FeedConcat(Some(u), public + shared + endpoint, allowed);
    FeedConcat(Some(u), public + shared, endpoint);
    FeedConcat(Some(u), public, shared);
    var p1 := UapiPeer(p.publicKey, "", "", [], 0);
    FeedPublicKey(u, p.publicKey);
    FeedShared(u.(peer := Some(p1)), p1, p.presharedKey);
    var p2 := p1.(presharedKey := p.presharedKey);
    FeedEndpoint(u.(peer := Some(p2)), p2, p.endpoint);
    var p3 := p2.(endpoint := p.endpoint);
    FeedAllowed(u.(peer := Some(p3)), p3, p.allowedIPs);
    assert [] + p.allowedIPs == p.allowedIPs;
    var p4 := p3.(allowedIPs := p.allowedIPs);
    FeedKeepalive(u.(peer := Some(p4)), p4, p.keepalive);
  }

  // ---- What can be told on lines of its own ----

  /** No text that the device is told spans lines. */
  ghost predicate OneLineTold(u: Uapi) {
    && OneLine(u.privateKey)
    && (forall p | p in u.settings :: OneLine(u.settings[p]))
    && (u.peer.Some? ==>
        && OneLine(u.peer.value.publicKey) && OneLine(u.peer.value.presharedKey) && OneLine(u.peer.value.endpoint)
        && forall a | a in u.peer.value.allowedIPs :: OneLine(a))
  }

  lemma FeedNone(line: string)
    ensures FeedLine(None, line) == None
  {
  }

  lemma FeedKeepsOneLine(u: Uapi, line: string)
    requires OneLineTold(u) && OneLine(line)
    ensures FeedLine(Some(u), line).Some? ==> OneLineTold(FeedLine(Some(u), line).value)
  {
    hide ParamOfUapi, Atoi;
  }

  lemma {:induction false} FeedLinesKeepOneLine(u: Uapi, lines: seq<string>)
    requires OneLineTold(u) && forall l | l in lines :: OneLine(l)
    ensures FeedLines(Some(u), lines).Some? ==> OneLineTold(FeedLines(Some(u), lines).value)
  {
    hide FeedLine, OneLineTold;
    if lines != [] {
      FeedLinesKeepOneLine(u, lines[..|lines| - 1]);
      var before := FeedLines(Some(u), lines[..|lines| - 1]);
      if before.Some? {
        FeedKeepsOneLine(before.value, lines[|lines| - 1]);
      } else {
        FeedNone(lines[|lines| - 1]);
      }
    }
  }

  /** Nothing that is read line by line spans lines, whatever was written. */
  lemma ReadUapiIsOneLine(text: string)
    ensures ReadUapi(text).Some? ==> OneLineTold(ReadUapi(text).value)
  {
    hide Split;
    SplitParts(text, '\n');
    FeedLinesKeepOneLine(Uapi("", map[], None), Split(text, '\n'));
  }

  lemma {:induction false} ParamLinesOneLine(obfuscation: map<Param, string>, params: seq<Param>)
    requires forall p | p in obfuscation :: OneLine(UapiValue(p, obfuscation[p]))
    ensures forall l | l in ParamLines(obfuscation, params) :: OneLine(l)
  {
    hide UapiName, UapiValue, ParamOfUapi;
    if params != [] {
      ParamLinesOneLine(obfuscation, params[..|params| - 1]);
      NameReads(params[|params| - 1]);
    }
  }

  lemma {:induction false} AllowedLinesOneLine(allowed: seq<string>)
    requires forall a | a in allowed :: OneLine(a)
    ensures forall l | l in AllowedLines(allowed) :: OneLine(l)
  {
    if allowed != [] {
      AllowedLinesOneLine(allowed[..|allowed| - 1]);
      assert OneLine(allowed[|allowed| - 1]);
    }
  }

  lemma PeerLinesOneLine(p: Peer)
    requires OneLine(p.publicKey) && OneLine(p.presharedKey) && OneLine(p.endpoint)
    requires forall a | a in p.allowedIPs :: OneLine(a)
    ensures forall l | l in PeerLines(p) :: OneLine(l)
  {
    hide Itoa, AllowedLines;
    AllowedLinesOneLine(p.allowedIPs);
    ItoaPlain(p.keepalive);
  }

  lemma IpcLinesOneLine(c: Config)
    requires OneLineTold(Told(c))
    ensures forall l | l in IpcLines(c) :: OneLine(l)
  {
    hide Itoa, ParamLines, PARAMS, PeerLines, UapiValue;
    assert forall p | p in c.obfuscation :: Told(c).settings[p] == UapiValue(p, c.obfuscation[p]);
    ParamLinesOneLine(c.obfuscation, PARAMS);
    PeerLinesOneLine(c.peer);
  }

  lemma FeedIpc(c: Config)
    requires c.peer.keepalive <= MAX_INT
    ensures FeedLines(Some(Uapi("", map[], None)), IpcLines(c)) == Some(Told(c))
  {
    hide FeedLine, FeedLines, Feed, Itoa, UapiValue, ParamLines, PeerLines;
    var u0 := Uapi("", map[], None);
    var first := ["private_key" + "=" + c.privateKey];
    var params, rest := ParamLines(c.obfuscation, PARAMS), PeerLines(c.peer);
    assert IpcLines(c) == first + (params + rest);
    FeedConcat(Some(u0), first, params + rest);
    FeedFirst(c.privateKey);
    var u1 := u0.(privateKey := c.privateKey);
    FeedConcat(Some(u1), params, rest);
    FeedParams(u1, c.obfuscation, PARAMS);
    AllSettings(c.obfuscation);
    FeedPeer(u1.(settings := Told(c).settings), c.peer);
  }

  lemma FeedFirst(key: string)
    ensures FeedLines(Some(Uapi("", map[], None)), ["private_key" + "=" + key]) == Some(Uapi(key, map[], None))
  {
    hide FeedLines;
    FeedOne(Uapi("", map[], None), "private_key", key);
  }

  lemma AllSettings(obfuscation: map<Param, string>)
    ensures Settings(obfuscation, PARAMS) == map p | p in obfuscation :: UapiValue(p, obfuscation[p])
  {
    hide UapiValue;
    forall p | p in obfuscation
      ensures p in PARAMS
    {
      AllParams(p);
    }
  }

  /** Reading what was written recovers the configuration, keepalive of a 64-bit int and all, if and only if
      nothing that is told spans lines. */
  lemma ReadBackExactly(c: Config)
    requires c.peer.keepalive <= MAX_INT
    ensures ReadUapi(Text(IpcLines(c))) == Some(Told(c)) <==> OneLineTold(Told(c))
  {
    hide FeedLine, FeedLines, IpcLines, Told, Split, OneLineTold;
    ReadUapiIsOneLine(Text(IpcLines(c)));
    if OneLineTold(Told(c)) {
      IpcLinesOneLine(c);
      SplitText(IpcLines(c));
      FeedSnoc(Some(Uapi("", map[], None)), IpcLines(c), "");
      EmptyLine(FeedLines(Some(Uapi("", map[], None)), IpcLines(c)));
      FeedIpc(c);
    }
  }

  lemma EmptyLine(u: Option<Uapi>)
    ensures FeedLine(u, "") == u
  {
  }

  lemma UapiValueOneLine(p: Param, value: string)
    requires OneLine(value)
    ensures OneLine(UapiValue(p, value))
  {
    hide Lower, Trim;
  }

  lemma CleanIsOneLine(c: Config)
    requires Clean(c)
    ensures OneLineTold(Told(c))
  {
    hide UapiValue, OneLine;
    forall p | p in c.obfuscation
      ensures OneLine(UapiValue(p, c.obfuscation[p]))
    {
      UapiValueOneLine(p, c.obfuscation[p]);
    }
  }

  lemma ReadUndoesWrite(c: Config)
    requires Clean(c)
    ensures ReadUapi(Text(IpcLines(c))) == Some(Told(c))
  {
    hide ReadUapi, IpcLines, Told, OneLineTold;
    CleanIsOneLine(c);
    ReadBackExactly(c);
  }

  /** Every configuration that a .conf text gives is read back from its rendering: the private key, each
      obfuscation value under its own parameter, and the peer with its allowed addresses in order. */
  lemma WrittenConfIsReadBack(text: string, read: AddrReader)
    ensures ReadConf(text, read).Some? ==>
      ReadUapi(Text(IpcLines(ReadConf(text, read).value))) == Some(Told(ReadConf(text, read).value))
  {
    hide ReadUapi, IpcLines, Told, ReadConf, Clean;
    ReadConfIsClean(text, read);
    if ReadConf(text, read).Some? {
      ReadUndoesWrite(ReadConf(text, read).value);
    }
  }

  // ---- A value that spans lines ----

  lemma {:induction false} ParamLinesConcat(obfuscation: map<Param, string>, a: seq<Param>, b: seq<Param>)
    ensures ParamLines(obfuscation, a + b) == ParamLines(obfuscation, a) + ParamLines(obfuscation, b)
  {
    hide UapiName, UapiValue;
    if b == [] {
      assert a + b == a;
    } else {
      ParamLinesConcat(obfuscation, a, b[..|b| - 1]);
      assert (a + b)[..|a + b| - 1] == a + b[..|b| - 1];
    }
  }

  lemma {:induction false} ParamLinesAgree(o: map<Param, string>, w: map<Param, string>, params: seq<Param>)
    requires forall p | p in params :: (p in o <==> p in w) && (p in o ==> o[p] == w[p])
    ensures ParamLines(o, params) == ParamLines(w, params)
  {
    hide UapiName, UapiValue;
    if params != [] {
      ParamLinesAgree(o, w, params[..|params| - 1]);
    }
  }

  lemma OneParamLine(o: map<Param, string>, p: Param)
    ensures ParamLines(o, [p]) == if p in o then [UapiName(p) + "=" + UapiValue(p, o[p])] else []
  {
    hide UapiName, UapiValue;
    assert [p][..0] == [];
  }

  lemma FirstTwoLines(o: map<Param, string>, jc: string)
    requires Jc in o && o[Jc] == jc
    ensures ParamLines(o, [Jc, Jmin]) == ["jc=" + jc] + if Jmin in o then ["jmin=" + o[Jmin]] else []
  {
    ParamLinesConcat(o, [Jc], [Jmin]);
    assert [Jc] + [Jmin] == [Jc, Jmin];
    OneParamLine(o, Jc);
    OneParamLine(o, Jmin);
    assert "jc" + "=" == "jc=" && "jmin" + "=" == "jmin=";
  }

  /** A value with a line end in it is a line more: the device is told the very text it would be told of
      another configuration, where Jmin is set. */
  lemma LineEndTellsMore(c: Config, jc: string, jmin: string)
    requires Jmin !in c.obfuscation && Jc in c.obfuscation && c.obfuscation[Jc] == jc + "\n" + "jmin=" + jmin
    ensures Text(IpcLines(c)) == Text(IpcLines(c.(obfuscation := c.obfuscation[Jc := jc][Jmin := jmin])))
  {
    hide ParamLines, PeerLines, Text, PARAMS;
    var o, w := c.obfuscation, c.obfuscation[Jc := jc][Jmin := jmin];
    var others := ParamsAfterTwo();
    var first, rest := ["private_key" + "=" + c.privateKey], ParamLines(o, others) + PeerLines(c.peer);
    OtherParamLines(o, w, others);
    FirstTwoLines(o, o[Jc]);
    FirstTwoLines(w, jc);
    TextOfThree(first, ["jc=" + o[Jc]], rest);
    TextOfThree(first, ["jc=" + jc, "jmin=" + jmin], rest);
    assert IpcLines(c) == first + ["jc=" + o[Jc]] + rest;
    assert IpcLines(c.(obfuscation := w)) == first + ["jc=" + jc, "jmin=" + jmin] + rest;
    SameText(jc, jmin);
  }

  lemma TextOfThree(a: seq<string>, b: seq<string>, c: seq<string>)
    ensures Text(a + b + c) == Text(a) + Text(b) + Text(c)
  {
    TextConcat(a + b, c);
    TextConcat(a, b);
  }

  lemma OtherParamLines(o: map<Param, string>, w: map<Param, string>, others: seq<Param>)
    requires PARAMS == [Jc, Jmin] + others && Jc !in others && Jmin !in others
    requires forall p | p != Jc && p != Jmin :: (p in o <==> p in w) && (p in o ==> o[p] == w[p])
    ensures ParamLines(o, PARAMS) == ParamLines(o, [Jc, Jmin]) + ParamLines(o, others)
    ensures ParamLines(w, PARAMS) == ParamLines(w, [Jc, Jmin]) + ParamLines(o, others)
  {
    hide ParamLines, PARAMS;
    ParamLinesConcat(o, [Jc, Jmin], others);
    ParamLinesConcat(w, [Jc, Jmin], others);
    ParamLinesAgree(o, w, others);
  }

  lemma ParamsAfterTwo() returns (others: seq<Param>)
    ensures PARAMS == [Jc, Jmin] + others && Jc !in others && Jmin !in others
  {
    others := [Jmax, S1, S2, S3, S4, H1, H2, H3, H4, I1, I2, I3, I4, I5,
     HeaderProtectionKey, ContentPaddingAddition, RekeyAfterTime, RekeyTimeout, RejectAfterTime,
     KeepaliveTimeout, MaxHandshakeAttempts, RandomTrailers, DisableCookies];
  }

  lemma SameText(jc: string, jmin: string)
    ensures Text(["jc=" + (jc + "\n" + "jmin=" + jmin)]) == Text(["jc=" + jc, "jmin=" + jmin])
  {
    assert ["jc=" + jc, "jmin=" + jmin][1..] == ["jmin=" + jmin];
    assert Text(["jmin=" + jmin]) == "jmin=" + jmin + "\n";
  }

  /** strconv.ParseBool, by which the device reads a flag. */
  function ParseBool(s: string): Option<bool> {
    if s == "1" || s == "t" || s == "T" || s == "TRUE" || s == "true" || s == "True" then Some(true)
    else if s == "0" || s == "f" || s == "F" || s == "FALSE" || s == "false" || s == "False" then Some(false)
    else None
  }

  /** What the device would have understood it still understands as the same; a file's words for on and off,
      in any case and with spaces around, it now does too; and what is neither is passed on as it is. */
  lemma FlagsKeepTheirMeaning(p: Param, value: string)
    requires p.RandomTrailers? || p.DisableCookies?
    ensures ParseBool(value).Some? ==> ParseBool(UapiValue(p, value)) == ParseBool(value)
    ensures Lower(Trim(value)) in ["on", "yes", "true", "1"] ==> ParseBool(UapiValue(p, value)) == Some(true)
    ensures Lower(Trim(value)) in ["off", "no", "false", "0"] ==> ParseBool(UapiValue(p, value)) == Some(false)
    ensures Lower(Trim(value)) !in ["on", "yes", "true", "1", "off", "no", "false", "0"] ==>
      UapiValue(p, value) == value
  {
    hide Lower, Trim;
    if ParseBool(value).Some? {
      BooleansAreTrimmed(value);
      BooleansLower();
    }
  }

  /** What is no flag is told as it is. */
  lemma OtherValuesAreTold(p: Param, value: string)
    ensures p != RandomTrailers && p != DisableCookies ==> UapiValue(p, value) == value
  {
  }

  lemma BooleansAreTrimmed(value: string)
    requires ParseBool(value).Some?
    ensures Trim(value) == value
  {
    TrimTrimmed(value);
  }

  lemma BooleansLower()
    ensures Lower("TRUE") == Lower("True") == Lower("true") == "true"
    ensures Lower("FALSE") == Lower("False") == Lower("false") == "false"
    ensures Lower("1") == "1" && Lower("0") == "0"
    ensures Lower("T") == Lower("t") == "t" && Lower("F") == Lower("f") == "f"
  {
  }
}
