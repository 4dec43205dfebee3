/** The cheap summary of a subscription: a version for every node, and one for the list whatever its order.
    A node is its tag and the JSON it encodes to, None when it does not; `hash` is the first eight bytes of a
    SHA-256 in hex. */
module StateVersion {
  import opened Wrappers
  import opened Strings

  datatype Node = Node(tag: string, raw: Option<string>)

  /** The nodes of the file by name. A name that is not there stands for an empty node. */
  type Nodes = string -> Node

  datatype About = About(country: string, description: string, maintenance: bool)

  type Meta = string -> About

  type Hash = string -> string

  predicate HexDigits(s: string) {
    |s| == 16 && forall i | 0 <= i < 16 :: '0' <= s[i] <= '9' || 'a' <= s[i] <= 'f'
  }

  /** Sixteen hex digits for every input. */
  ghost predicate IsHash(hash: Hash) {
    forall s :: HexDigits(hash(s))
  }

  /** No two of these strings share a hash. (No hash of fixed length has this of all strings.) */
  ghost predicate NoCollision(hash: Hash, strings: set<string>) {
    forall s, t | s in strings && t in strings :: hash(s) == hash(t) ==> s == t
  }

  // ---- Sorting strings ----

  predicate Leq(a: string, b: string) {
    a == "" || (b != "" && (a[0] < b[0] || (a[0] == b[0] && Leq(a[1..], b[1..]))))
  }

  lemma {:induction false} LeqTotal(a: string, b: string)
    ensures Leq(a, b) || Leq(b, a)
    ensures Leq(a, b) && Leq(b, a) ==> a == b
  {
    if a != "" && b != "" && a[0] == b[0] {
      LeqTotal(a[1..], b[1..]);
      assert a == [a[0]] + a[1..] && b == [b[0]] + b[1..];
    }
  }

  lemma {:induction false} LeqTransitive(a: string, b: string, c: string)
    requires Leq(a, b) && Leq(b, c)
    ensures Leq(a, c)
  {
    if a != "" && a[0] == b[0] && b[0] == c[0] {
      LeqTransitive(a[1..], b[1..], c[1..]);
    }
  }

  ghost predicate Sorted(s: seq<string>) {
    forall i, j | 0 <= i < j < |s| :: Leq(s[i], s[j])
  }

  function Insert(x: string, s: seq<string>): seq<string> {
    if s == [] then [x]
    else if Leq(x, s[0]) then [x] + s
    else [s[0]] + Insert(x, s[1..])
  }

  /** sort.Strings */
  function Sort(s: seq<string>): seq<string> {
    if s == [] then [] else Insert(s[0], Sort(s[1..]))
  }

  /** A sorted list with something no greater in front is sorted. */
  lemma ConsSorted(x: string, s: seq<string>)
    requires Sorted(s) && forall y | y in s :: Leq(x, y)
    ensures Sorted([x] + s)
  {
    hide Leq;
    var all := [x] + s;
    forall i, j | 0 <= i < j < |all|
      ensures Leq(all[i], all[j])
    {
      assert all[j] == s[j - 1] && s[j - 1] in s;
      assert i > 0 ==> all[i] == s[i - 1];
    }
  }

  lemma {:induction false} InsertSorts(x: string, s: seq<string>)
    requires Sorted(s)
    ensures Sorted(Insert(x, s)) && multiset(Insert(x, s)) == multiset(s) + multiset{x}
  {
    hide Leq;
    if s != [] {
      assert s == [s[0]] + s[1..];
      LeqTotal(x, s[0]);
      if Leq(x, s[0]) {
        forall y | y in s
          ensures Leq(x, y)
        {
          var j :| 0 <= j < |s| && s[j] == y;
          if j > 0 {
            LeqTransitive(x, s[0], s[j]);
          }
        }
        ConsSorted(x, s);
      } else {
        InsertSorts(x, s[1..]);
        var rest := Insert(x, s[1..]);
        forall y | y in rest
          ensures Leq(s[0], y)
        {
          assert y in multiset(rest);
          assert y in s[1..] || y == x;
        }
        ConsSorted(s[0], rest);
      }
    }
  }

  lemma {:induction false} SortSorts(s: seq<string>)
    ensures Sorted(Sort(s)) && multiset(Sort(s)) == multiset(s)
  {
    if s != [] {
      SortSorts(s[1..]);
      InsertSorts(s[0], Sort(s[1..]));
      assert s == [s[0]] + s[1..];
    }
  }

  /** There is one sorted list of each multiset. */
  lemma {:induction false} SortedIsUnique(s: seq<string>, t: seq<string>)
    requires Sorted(s) && Sorted(t) && multiset(s) == multiset(t)
    ensures s == t
  {
    hide Leq, Sorted;
    assert |s| == |multiset(s)| && |t| == |multiset(t)|;
    if s != [] {
      assert s[0] in multiset(t) && t[0] in multiset(s);
      FirstIsLeast(s, t[0]);
      FirstIsLeast(t, s[0]);
      LeqTotal(s[0], t[0]);
      assert s == [s[0]] + s[1..] && t == [t[0]] + t[1..];
      assert multiset(s[1..]) == multiset(s) - multiset{s[0]};
      assert multiset(t[1..]) == multiset(t) - multiset{t[0]};
      TailSorted(s);
      TailSorted(t);
      SortedIsUnique(s[1..], t[1..]);
    }
  }

  lemma FirstIsLeast(s: seq<string>, x: string)
    requires Sorted(s) && x in s
    ensures Leq(s[0], x)
  {
    hide Leq;
    var j :| 0 <= j < |s| && s[j] == x;
    LeqTotal(x, x);
  }

  lemma TailSorted(s: seq<string>)
    requires Sorted(s) && s != []
    ensures Sorted(s[1..])
  {
    hide Leq;
  }

  lemma SortForgetsOrder(s: seq<string>, t: seq<string>)
    ensures Sort(s) == Sort(t) <==> multiset(s) == multiset(t)
  {
    SortSorts(s);
    SortSorts(t);
    if multiset(s) == multiset(t) {
      SortedIsUnique(Sort(s), Sort(t));
    }
  }

  // ---- Joining ----

  /** strings.Join with a line end. */
  function Join(parts: seq<string>): string {
    if parts == [] then "" else if |parts| == 1 then parts[0] else parts[0] + ['\n'] + Join(parts[1..])
  }

  lemma {:induction false} JoinSplit(s: string)
    ensures Join(Split(s, '\n')) == s
    decreases |s|
  {
    var i := Index(s, '\n');
    if i < |s| {
      JoinSplit(s[i + 1..]);
      assert ([s[..i]] + Split(s[i + 1..], '\n'))[1..] == Split(s[i + 1..], '\n');
      assert s == s[..i] + ['\n'] + s[i + 1..];
    }
  }

  lemma {:induction false} SplitConcat(a: string, b: string)
    ensures Split(a + ['\n'] + b, '\n') == Split(a, '\n') + Split(b, '\n')
    decreases |a|
  {
    hide Split;
    var i := Index(a, '\n');
    if i == |a| {
      SplitNone(a, '\n');
      SplitCons(a, '\n', b);
    } else {
      var rest := a[i + 1..];
      SplitConcat(rest, b);
      assert a + ['\n'] + b == a[..i] + ['\n'] + (rest + ['\n'] + b);
      SplitCons(a[..i], '\n', rest + ['\n'] + b);
      assert a == a[..i] + ['\n'] + rest;
      SplitCons(a[..i], '\n', rest);
    }
  }

  /** What is put behind a text without a line end goes to its last line. */
  lemma {:induction false} SplitAppend(a: string, x: string)
    requires OneLine(x)
    ensures var lines, n := Split(a, '\n'), |Split(a, '\n')| - 1;
      Split(a + x, '\n') == lines[..n] + [lines[n] + x]
    decreases |a|
  {
    hide Split;
    var i := Index(a, '\n');
    if i == |a| {
      SplitNone(a, '\n');
      SplitNone(a + x, '\n');
    } else {
      var rest := a[i + 1..];
      SplitAppend(rest, x);
      assert a == a[..i] + ['\n'] + rest && a + x == a[..i] + ['\n'] + (rest + x);
      SplitCons(a[..i], '\n', rest);
      SplitCons(a[..i], '\n', rest + x);
    }
  }

  // ---- Taking apart again ----

  /** A line that ends as every part does: a colon and sixteen hex digits. */
  predicate PartLike(line: string) {
    |line| >= 17 && line[|line| - 17] == ':' && HexDigits(line[|line| - 16..])
  }

  /** No line of the name but its last ends as a part does. */
  ghost predicate Unambiguous(name: string) {
    var lines := Split(name, '\n');
    forall i | 0 <= i < |lines| - 1 :: !PartLike(lines[i])
  }

  /** Lines of which the last ends as a part does, and none before it. */
  ghost predicate Frame(lines: seq<string>) {
    lines != [] && PartLike(lines[|lines| - 1]) && forall i | 0 <= i < |lines| - 1 :: !PartLike(lines[i])
  }

  ghost predicate Framed(parts: seq<string>) {
    forall i | 0 <= i < |parts| :: Frame(Split(parts[i], '\n'))
  }

  function AllLines(parts: seq<string>): seq<string> {
    if parts == [] then [] else Split(parts[0], '\n') + AllLines(parts[1..])
  }

  lemma {:induction false} SplitJoin(parts: seq<string>)
    requires parts != []
    ensures Split(Join(parts), '\n') == AllLines(parts)
  {
    hide Split;
    if |parts| == 1 {
      assert parts[1..] == [];
    } else {
      SplitJoin(parts[1..]);
      SplitConcat(parts[0], Join(parts[1..]));
    }
  }

  /** Of two beginnings of the same lines, each a frame, neither is longer. */
  lemma FramesAgree(p: seq<string>, q: seq<string>, rest: seq<string>, more: seq<string>)
    requires Frame(p) && Frame(q) && p + rest == q + more
    ensures p == q && rest == more
  {
    hide PartLike;
    var all := p + rest;
    assert all[|p| - 1] == p[|p| - 1] && all[|q| - 1] == q[|q| - 1];
    assert forall i | 0 <= i < |p| - 1 :: !PartLike(all[i]) && all[i] == p[i];
    assert forall i | 0 <= i < |q| - 1 :: !PartLike(all[i]) && all[i] == q[i];
    assert all[..|p|] == p && all[..|q|] == q && all[|p|..] == rest && all[|q|..] == more;
  }

  lemma {:induction false} LinesInjective(a: seq<string>, b: seq<string>)
    requires Framed(a) && Framed(b) && AllLines(a) == AllLines(b)
    ensures a == b
  {
    hide Split, Frame;
    if a == [] || b == [] {
      assert a == [] && b == [] by { NoLines(a); NoLines(b); }
    } else {
      FramesAgree(Split(a[0], '\n'), Split(b[0], '\n'), AllLines(a[1..]), AllLines(b[1..]));
      JoinSplit(a[0]);
      JoinSplit(b[0]);
      LinesInjective(a[1..], b[1..]);
      assert a == [a[0]] + a[1..] && b == [b[0]] + b[1..];
    }
  }

  lemma NoLines(parts: seq<string>)
    ensures AllLines(parts) == [] ==> parts == []
  {
  }

  lemma EmptyIsNoFrame(parts: seq<string>)
    requires Framed(parts) && parts != []
    ensures Join(parts) != ""
  {
    assert Split("", '\n') == [""] && !PartLike("");
    assert Frame(Split(parts[0], '\n'));
  }

  lemma JoinInjective(a: seq<string>, b: seq<string>)
    requires Framed(a) && Framed(b) && Join(a) == Join(b)
    ensures a == b
  {
    hide Split, Framed;
    if a != [] && b != [] {
      SplitJoin(a);
      SplitJoin(b);
      LinesInjective(a, b);
    } else if a != [] {
      EmptyIsNoFrame(a);
    } else if b != [] {
      EmptyIsNoFrame(b);
    }
  }

  // ---- The versions ----

  datatype Entry = Entry(name: string, content: string)

  datatype NodeState = NodeState(id: string, version: string, server: string)

  /** The nodes that encode, in order. */
  function Entries(names: seq<string>, nodes: Nodes): seq<Entry> {
    if names == [] then []
    else
      var name := names[|names| - 1];
      Entries(names[..|names| - 1], nodes)
      + match nodes(name).raw
        case Some(raw) => [Entry(name, raw)]
        case None => []
  }

  function NodeVersion(e: Entry, device: string, hash: Hash): string {
    hash(device + e.content)
  }

  function Part(e: Entry, device: string, hash: Hash): string {
    e.name + ":" + NodeVersion(e, device, hash)
  }

  function Parts(entries: seq<Entry>, device: string, hash: Hash): seq<string> {
    if entries == [] then []
    else Parts(entries[..|entries| - 1], device, hash) + [Part(entries[|entries| - 1], device, hash)]
  }

  function States(names: seq<string>, nodes: Nodes, device: string, hash: Hash): seq<NodeState> {
    if names == [] then []
    else
      var name := names[|names| - 1];
      States(names[..|names| - 1], nodes, device, hash)
      + match nodes(name).raw
        case Some(raw) => [NodeState(name, NodeVersion(Entry(name, raw), device, hash), nodes(name).tag)]
        case None => []
  }

  function Version(names: seq<string>, nodes: Nodes, device: string, hash: Hash): string {
    hash(Join(Sort(Parts(Entries(names, nodes), device, hash))))
  }

  method ServeState(names: seq<string>, nodes: Nodes, device: string, hash: Hash)
    returns (version: string, states: seq<NodeState>)
    ensures version == Version(names, nodes, device, hash)
    ensures states == States(names, nodes, device, hash)
  {
    states := [];
    var parts := [];
    ghost var entries: seq<Entry> := [];
    for i := 0 to |names|
      invariant entries == Entries(names[..i], nodes)
      invariant parts == Parts(entries, device, hash) && states == States(names[..i], nodes, device, hash)
    {
      assert names[..i + 1][..i] == names[..i];
      var node := nodes(names[i]);
      if node.raw.None? {
        continue;
      }
      ghost var e := Entry(names[i], node.raw.value);
      assert (entries + [e])[..|entries|] == entries;
      var one := hash(device + node.raw.value);
      states := states + [NodeState(names[i], one, node.tag)];
      parts := parts + [names[i] + ":" + one];
      entries := entries + [e];
    }
    assert names[..|names|] == names;
    version := hash(Join(Sort(parts)));
  }

  /** What is hashed for the nodes. */
  ghost function Hashed(entries: seq<Entry>, device: string): set<string> {
    set e | e in entries :: device + e.content
  }

  /** A part gives its name and its version back: the version is its last sixteen characters. */
  lemma PartInjective(d: Entry, e: Entry, device: string, hash: Hash)
    requires IsHash(hash) && Part(d, device, hash) == Part(e, device, hash)
    requires NodeVersion(d, device, hash) == NodeVersion(e, device, hash) ==> device + d.content == device + e.content
    ensures d == e
  {
    var p := Part(d, device, hash);
    var n := |p| - 16;
    assert p[n..] == NodeVersion(d, device, hash) && p[n..] == NodeVersion(e, device, hash);
    assert p[..n - 1] == d.name && p[..n - 1] == e.name;
    assert (device + d.content)[|device|..] == d.content && (device + e.content)[|device|..] == e.content;
  }

  lemma CountLast<T>(s: seq<T>, x: T)
    requires s != []
    ensures multiset(s)[x] == multiset(s[..|s| - 1])[x] + if s[|s| - 1] == x then 1 else 0
  {
    assert s == s[..|s| - 1] + [s[|s| - 1]];
  }

  lemma {:induction false} PartsCount(entries: seq<Entry>, e: Entry, device: string, hash: Hash)
    requires IsHash(hash) && NoCollision(hash, Hashed(entries + [e], device))
    ensures multiset(Parts(entries, device, hash))[Part(e, device, hash)] == multiset(entries)[e]
  {
    hide Part, IsHash;
    if entries != [] {
      var n := |entries| - 1;
      var d := entries[n];
      assert forall x | x in entries[..n] + [e] :: x in entries + [e];
      PartsCount(entries[..n], e, device, hash);
      CountLast(entries, e);
      CountLast(Parts(entries, device, hash), Part(e, device, hash));
      if Part(d, device, hash) == Part(e, device, hash) {
        assert d in entries + [e] && e in entries + [e];
        assert device + d.content in Hashed(entries + [e], device);
        assert device + e.content in Hashed(entries + [e], device);
        PartInjective(d, e, device, hash);
      }
    }
  }

  lemma {:induction false} PartsAre(entries: seq<Entry>, device: string, hash: Hash)
    ensures |Parts(entries, device, hash)| == |entries|
    ensures forall i | 0 <= i < |entries| :: Parts(entries, device, hash)[i] == Part(entries[i], device, hash)
  {
    if entries != [] {
      PartsAre(entries[..|entries| - 1], device, hash);
    }
  }

  lemma PartsForgetNothing(a: seq<Entry>, b: seq<Entry>, device: string, hash: Hash)
    requires IsHash(hash) && NoCollision(hash, Hashed(a + b, device))
    ensures multiset(Parts(a, device, hash)) == multiset(Parts(b, device, hash)) <==> multiset(a) == multiset(b)
  {
    hide Parts, Part, IsHash;
    if multiset(Parts(a, device, hash)) == multiset(Parts(b, device, hash)) {
      forall e
        ensures multiset(a)[e] == multiset(b)[e]
      {
        if e in a || e in b {
          assert forall x | x in a + [e] || x in b + [e] :: x in a + b;
          assert Hashed(a + [e], device) <= Hashed(a + b, device) && Hashed(b + [e], device) <= Hashed(a + b, device);
          PartsCount(a, e, device, hash);
          PartsCount(b, e, device, hash);
        }
      }
    }
    if multiset(a) == multiset(b) {
      PartsOfSameEntries(a, b, device, hash);
    }
  }

  lemma SortedPartsFramed(entries: seq<Entry>, device: string, hash: Hash)
    requires IsHash(hash) && forall e | e in entries :: Unambiguous(e.name)
    ensures Framed(Sort(Parts(entries, device, hash)))
  {
    hide Sort, Sorted, Part, Parts, Unambiguous, Frame, Split;
    var parts := Parts(entries, device, hash);
    PartsAre(entries, device, hash);
    SortSorts(parts);
    forall i | 0 <= i < |Sort(parts)|
      ensures Frame(Split(Sort(parts)[i], '\n'))
    {
      assert Sort(parts)[i] in multiset(parts);
      var j :| 0 <= j < |parts| && parts[j] == Sort(parts)[i];
      assert entries[j] in entries;
      PartIsAFrame(entries[j], device, hash);
    }
  }

  lemma PartIsAFrame(e: Entry, device: string, hash: Hash)
    requires IsHash(hash) && Unambiguous(e.name)
    ensures Frame(Split(Part(e, device, hash), '\n'))
  {
    hide Split;
    var h := NodeVersion(e, device, hash);
    assert HexDigits(h);
    assert OneLine(":" + h) by { HexIsOneLine(h); }
    var lines, n := Split(e.name, '\n'), |Split(e.name, '\n')| - 1;
    SplitAppend(e.name, ":" + h);
    assert Part(e, device, hash) == e.name + (":" + h);
    var last := lines[n] + (":" + h);
    assert last[|last| - 17] == ':' && last[|last| - 16..] == h;
  }

  lemma HexIsOneLine(h: string)
    requires HexDigits(h)
    ensures OneLine(":" + h)
  {
    assert forall i | 0 <= i < 16 :: h[i] != '\n';
  }

  /** The order of the list is not part of its version, whatever the hash. */
  lemma VersionForgetsOrder(a: seq<string>, b: seq<string>, nodes: Nodes, device: string, hash: Hash)
    requires multiset(a) == multiset(b)
    ensures Version(a, nodes, device, hash) == Version(b, nodes, device, hash)
  {
    EntriesForgetOrder(a, b, nodes);
    PartsOfSameEntries(Entries(a, nodes), Entries(b, nodes), device, hash);
    SortForgetsOrder(Parts(Entries(a, nodes), device, hash), Parts(Entries(b, nodes), device, hash));
  }

  /** Everything that is hashed for two lists. */
  ghost function AllHashed(a: seq<Entry>, b: seq<Entry>, device: string, hash: Hash): set<string> {
    Hashed(a + b, device) + {Join(Sort(Parts(a, device, hash))), Join(Sort(Parts(b, device, hash)))}
  }

  /** Two lists get the same version exactly when they hold the same nodes with the same content, each as
      often, as long as the hash does not collide on what is hashed for them and no name holds a line, other than
      its last, that ends as a part does: nothing that changes a node, adds one or takes one away leaves the
      version as it was. */
  lemma VersionsAgreeExactly(a: seq<string>, am: Nodes, b: seq<string>, bm: Nodes, device: string, hash: Hash)
    requires IsHash(hash) && NoCollision(hash, AllHashed(Entries(a, am), Entries(b, bm), device, hash))
    requires forall n | n in a || n in b :: Unambiguous(n)
    ensures Version(a, am, device, hash) == Version(b, bm, device, hash)
       <==> multiset(Entries(a, am)) == multiset(Entries(b, bm))
  {
    hide Parts, Sort, Join, Unambiguous, Framed, IsHash, Entries;
    var ea, eb := Entries(a, am), Entries(b, bm);
    EntriesAreNodes(a, am);
    EntriesAreNodes(b, bm);
    SortedPartsFramed(ea, device, hash);
    SortedPartsFramed(eb, device, hash);
    SortForgetsOrder(Parts(ea, device, hash), Parts(eb, device, hash));
    PartsForgetNothing(ea, eb, device, hash);
    if Version(a, am, device, hash) == Version(b, bm, device, hash) {
      JoinInjective(Sort(Parts(ea, device, hash)), Sort(Parts(eb, device, hash)));
    }
  }

  /** Without that condition two lists can share a version, whatever the hash: two nodes, and one whose name holds
      the part of the first on a line of its own. */
  lemma LineEndSharesVersion(x: string, cx: string, y: string, cy: string, device: string, hash: Hash)
    returns (two: Nodes, one: Nodes, name: string)
    requires x != "" && y != "" && x[0] < y[0]
    ensures name == x + ":" + hash(device + cx) + ['\n'] + y
    ensures Entries([x, y], two) == [Entry(x, cx), Entry(y, cy)] && Entries([name], one) == [Entry(name, cy)]
    ensures Version([x, y], two, device, hash) == Version([name], one, device, hash)
  {
    name := x + ":" + hash(device + cx) + ['\n'] + y;
    two := n => Node("", Some(if n == x then cx else cy));
    one := n => Node("", Some(cy));
    OneEntry(name, one, cy);
    TwoEntries(x, cx, y, cy, two);
    var ex, ey, e := Entry(x, cx), Entry(y, cy), Entry(name, cy);
    var px, py := Part(ex, device, hash), Part(ey, device, hash);
    TwoParts(ex, ey, device, hash);
    OnePart(e, device, hash);
    assert Leq(px, py);
    TwoSorted(px, py);
    OneSorted(Part(e, device, hash));
    assert Part(e, device, hash) == px + ['\n'] + py;
  }

  lemma OneEntry(name: string, nodes: Nodes, content: string)
    requires nodes(name).raw == Some(content)
    ensures Entries([name], nodes) == [Entry(name, content)]
  {
    assert [name][..0] == [] && Entries([], nodes) == [];
  }

  lemma TwoEntries(x: string, cx: string, y: string, cy: string, nodes: Nodes)
    requires nodes(x).raw == Some(cx) && nodes(y).raw == Some(cy)
    ensures Entries([x, y], nodes) == [Entry(x, cx), Entry(y, cy)]
  {
    OneEntry(x, nodes, cx);
    assert [x, y][..1] == [x];
  }

  lemma OnePart(e: Entry, device: string, hash: Hash)
    ensures Parts([e], device, hash) == [Part(e, device, hash)]
  {
    hide Part;
    assert [e][..0] == [] && Parts([], device, hash) == [];
  }

  lemma TwoParts(d: Entry, e: Entry, device: string, hash: Hash)
    ensures Parts([d, e], device, hash) == [Part(d, device, hash), Part(e, device, hash)]
  {
    hide Part;
    OnePart(d, device, hash);
    assert [d, e][..1] == [d];
  }

  lemma OneSorted(p: string)
    ensures Join(Sort([p])) == p
  {
    assert [p][1..] == [] && Sort([]) == [];
  }

  lemma TwoSorted(p: string, q: string)
    requires Leq(p, q)
    ensures Join(Sort([p, q])) == p + ['\n'] + q
  {
    assert [p, q][1..] == [q] && [q][1..] == [] && Sort([]) == [];
    assert Sort([q]) == [q] && Sort([p, q]) == [p, q];
  }

  lemma {:induction false} EntriesAreNodes(names: seq<string>, nodes: Nodes)
    ensures forall e | e in Entries(names, nodes) :: e.name in names
  {
    if names != [] {
      EntriesAreNodes(names[..|names| - 1], nodes);
    }
  }

  /** Taking one node off a list takes one entry off, if it encodes. */
  lemma {:induction false} EntriesCount(names: seq<string>, nodes: Nodes, e: Entry)
    ensures multiset(Entries(names, nodes))[e] ==
      if nodes(e.name).raw == Some(e.content) then multiset(names)[e.name] else 0
  {
    if names != [] {
      var n := |names| - 1;
      EntriesCount(names[..n], nodes, e);
      CountLast(names, e.name);
    }
  }

  lemma EntriesForgetOrder(a: seq<string>, b: seq<string>, nodes: Nodes)
    requires multiset(a) == multiset(b)
    ensures multiset(Entries(a, nodes)) == multiset(Entries(b, nodes))
  {
    forall e
      ensures multiset(Entries(a, nodes))[e] == multiset(Entries(b, nodes))[e]
    {
      EntriesCount(a, nodes, e);
      EntriesCount(b, nodes, e);
    }
  }

  function Rest<T>(s: seq<T>, j: nat): seq<T>
    requires j < |s|
  {
    s[..j] + s[j + 1..]
  }

  lemma RestCounts<T>(s: seq<T>, j: nat)
    requires j < |s|
    ensures multiset(s) == multiset(Rest(s, j)) + multiset{s[j]}
  {
    assert s == s[..j] + ([s[j]] + s[j + 1..]);
  }

  lemma PartsOfSameEntries(a: seq<Entry>, b: seq<Entry>, device: string, hash: Hash)
    requires multiset(a) == multiset(b)
    ensures multiset(Parts(a, device, hash)) == multiset(Parts(b, device, hash))
    decreases |a|
  {
    hide Parts, Part, Rest;
    assert |a| == |multiset(a)| && |b| == |multiset(b)|;
    if a != [] {
      assert a[0] in multiset(b);
      var j :| 0 <= j < |b| && b[j] == a[0];
      RestCounts(a, 0);
      RestCounts(b, j);
      assert |Rest(a, 0)| == |multiset(Rest(a, 0))|;
      assert multiset(Rest(a, 0)) == multiset(a) - multiset{a[0]};
      assert multiset(Rest(b, j)) == multiset(b) - multiset{a[0]};
      PartsOfSameEntries(Rest(a, 0), Rest(b, j), device, hash);
      PartsRemove(b, j, device, hash);
      PartsRemove(a, 0, device, hash);
    } else {
      assert b == [];
    }
  }

  lemma PartsRemove(b: seq<Entry>, j: nat, device: string, hash: Hash)
    requires j < |b|
    ensures multiset(Parts(b, device, hash)) == multiset(Parts(Rest(b, j), device, hash))
      + multiset{Part(b[j], device, hash)}
  {
    hide Part, Parts;
    var p := Parts(b, device, hash);
    PartsAre(b, device, hash);
    PartsAre(Rest(b, j), device, hash);
    assert Parts(Rest(b, j), device, hash) == Rest(p, j);
    RestCounts(p, j);
  }

  // ---- The Caelo answer ----

  const ENDPOINT_TYPE: string := "amneziawg"

  /** What the answer says of a node, of its endpoint the type and the tag. */
  datatype CaeloNode = CaeloNode(
    id: string,
    country: string,
    description: string,
    maintenance: bool,
    kind: string,
    tag: string
  )

  function CaeloOf(name: string, nodes: Nodes, meta: Meta): CaeloNode {
    var about := meta(name);
    CaeloNode(name, about.country, about.description, about.maintenance, ENDPOINT_TYPE, nodes(name).tag)
  }

  function CaeloNodes(names: seq<string>, nodes: Nodes, meta: Meta): seq<CaeloNode> {
    if names == [] then []
    else CaeloNodes(names[..|names| - 1], nodes, meta) + [CaeloOf(names[|names| - 1], nodes, meta)]
  }

  method CaeloAnswer(names: seq<string>, nodes: Nodes, meta: Meta) returns (answer: seq<CaeloNode>)
    ensures answer == CaeloNodes(names, nodes, meta)
  {
    answer := [];
    for i := 0 to |names|
      invariant answer == CaeloNodes(names[..i], nodes, meta)
    {
      assert names[..i + 1][..i] == names[..i];
      var name := names[i];
      var node, about := nodes(name), meta(name);
      answer := answer
        + [CaeloNode(name, about.country, about.description, about.maintenance, ENDPOINT_TYPE, node.tag)];
    }
    assert names[..|names|] == names;
  }

  function StateIds(states: seq<NodeState>): seq<string> {
    seq(|states|, i requires 0 <= i < |states| => states[i].id)
  }

  function CaeloIds(answer: seq<CaeloNode>): seq<string> {
    seq(|answer|, i requires 0 <= i < |answer| => answer[i].id)
  }

  ghost predicate AllEncode(names: seq<string>, nodes: Nodes) {
    forall i | 0 <= i < |names| :: nodes(names[i]).raw.Some?
  }

  lemma {:induction false} CaeloNodesAre(names: seq<string>, nodes: Nodes, meta: Meta)
    ensures |CaeloNodes(names, nodes, meta)| == |names|
    ensures forall i | 0 <= i < |names| :: CaeloNodes(names, nodes, meta)[i] == CaeloOf(names[i], nodes, meta)
  {
    hide CaeloOf;
    if names != [] {
      CaeloNodesAre(names[..|names| - 1], nodes, meta);
    }
  }

  lemma {:induction false} StatesAre(names: seq<string>, nodes: Nodes, device: string, hash: Hash)
    ensures |States(names, nodes, device, hash)| <= |names|
    ensures |States(names, nodes, device, hash)| == |names| <==> AllEncode(names, nodes)
    ensures AllEncode(names, nodes) ==> forall i | 0 <= i < |names| ::
      States(names, nodes, device, hash)[i]
        == NodeState(names[i], hash(device + nodes(names[i]).raw.value), nodes(names[i]).tag)
  {
    if names != [] {
      var n := |names| - 1;
      StatesAre(names[..n], nodes, device, hash);
      assert AllEncode(names, nodes) <==> AllEncode(names[..n], nodes) && nodes(names[n]).raw.Some?;
    }
  }

  /** The answer gives each name, in order, its node under the type, and what the file says about it. */
  lemma AnswerSays(names: seq<string>, nodes: Nodes, meta: Meta)
    ensures var answer := CaeloNodes(names, nodes, meta);
      |answer| == |names| && forall i | 0 <= i < |names| ::
        && answer[i].id == names[i] && answer[i].kind == "amneziawg" && answer[i].tag == nodes(names[i]).tag
        && About(answer[i].country, answer[i].description, answer[i].maintenance) == meta(names[i])
  {
    hide CaeloNodes;
    CaeloNodesAre(names, nodes, meta);
  }

  /** The ids of the summary are the very ids of the Caelo answer, in order, exactly when every node encodes. Then
      each entry has the tag that the answer gives the node, and the version of what the node encodes to. */
  lemma SummaryMatchesAnswer(names: seq<string>, nodes: Nodes, meta: Meta, device: string, hash: Hash)
    ensures StateIds(States(names, nodes, device, hash)) == CaeloIds(CaeloNodes(names, nodes, meta))
       <==> AllEncode(names, nodes)
    ensures AllEncode(names, nodes) ==>
      var states, answer := States(names, nodes, device, hash), CaeloNodes(names, nodes, meta);
      |states| == |answer| && forall i | 0 <= i < |answer| ::
        && states[i].id == answer[i].id && states[i].server == answer[i].tag
        && nodes(answer[i].id).raw.Some? && states[i].version == hash(device + nodes(answer[i].id).raw.value)
  {
    hide States, CaeloNodes;
    StatesAre(names, nodes, device, hash);
    CaeloNodesAre(names, nodes, meta);
    var ids, theirs := StateIds(States(names, nodes, device, hash)), CaeloIds(CaeloNodes(names, nodes, meta));
    assert |ids| != |names| ==> |ids| != |theirs|;
  }
}
