/** The string operations the readers and writers use. A string is its characters. */
module Strings {
  import opened Wrappers

  // ---- Spaces ----

  /** The characters strings.TrimSpace trims. */
  predicate IsSpace(c: char) {
    var n := c as int;
    9 <= n <= 13 || n == 0x20 || n == 0x85 || n == 0xa0 || n == 0x1680 || 0x2000 <= n <= 0x200a
    || n == 0x2028 || n == 0x2029 || n == 0x202f || n == 0x205f || n == 0x3000
  }

  /** They are those of Unicode's White_Space property. */
  lemma SpacesAre(c: char)
    ensures IsSpace(c) <==> c in [
      '\t', '\n', '\U{000B}', '\U{000C}', '\r', ' ', '\U{0085}', '\U{00A0}', '\U{1680}',
      '\U{2000}', '\U{2001}', '\U{2002}', '\U{2003}', '\U{2004}', '\U{2005}', '\U{2006}', '\U{2007}', '\U{2008}',
      '\U{2009}', '\U{200A}', '\U{2028}', '\U{2029}', '\U{202F}', '\U{205F}', '\U{3000}']
  {
  }

  function TrimLeft(s: string): string {
    if s != "" && IsSpace(s[0]) then TrimLeft(s[1..]) else s
  }

  function TrimRight(s: string): string {
    if s != "" && IsSpace(s[|s| - 1]) then TrimRight(s[..|s| - 1]) else s
  }

  function Trim(s: string): string {
    TrimRight(TrimLeft(s))
  }

  predicate Trimmed(s: string) {
    s == "" || (!IsSpace(s[0]) && !IsSpace(s[|s| - 1]))
  }

  ghost predicate Spaces(s: string) {
    forall i | 0 <= i < |s| :: IsSpace(s[i])
  }

  lemma SpacesConcat(a: string, b: string)
    requires Spaces(a) && Spaces(b)
    ensures Spaces(a + b)
  {
  }

  lemma TrimTrimmed(s: string)
    requires Trimmed(s)
    ensures Trim(s) == s
  {
  }

  lemma {:induction false} TrimLeftIs(s: string) returns (k: nat)
    ensures k <= |s| && TrimLeft(s) == s[k..] && Spaces(s[..k])
    ensures k < |s| ==> !IsSpace(s[k])
  {
    if s != "" && IsSpace(s[0]) {
      k := TrimLeftIs(s[1..]);
      SpacesConcat([s[0]], s[1..][..k]);
      k := k + 1;
      assert s[..k] == [s[0]] + s[1..][..k - 1];
    } else {
      k := 0;
    }
  }

  lemma {:induction false} TrimRightIs(s: string) returns (k: nat)
    ensures k <= |s| && TrimRight(s) == s[..k] && Spaces(s[k..])
    ensures k > 0 ==> !IsSpace(s[k - 1])
  {
    if s != "" && IsSpace(s[|s| - 1]) {
      var n := |s| - 1;
      k := TrimRightIs(s[..n]);
      SpacesConcat(s[..n][k..], [s[n]]);
      assert s[k..] == s[..n][k..] + [s[n]];
    } else {
      k := |s|;
    }
  }

  /** Trimming gives a piece of the string with no space at either end. */
  lemma TrimIs(s: string)
    ensures Trimmed(Trim(s)) && forall c | c in Trim(s) :: c in s
  {
    var i := TrimLeftIs(s);
    var j := TrimRightIs(s[i..]);
  }

  lemma {:induction false} TrimRightConcat(a: string, b: string)
    ensures TrimRight(a + b) == if TrimRight(b) != "" then a + TrimRight(b) else TrimRight(a)
    decreases |b|
  {
    if b == "" {
      assert a + b == a;
    } else {
      var n := |b| - 1;
      assert (a + b)[..|a + b| - 1] == a + b[..n] && (a + b)[|a + b| - 1] == b[n];
      if IsSpace(b[n]) {
        TrimRightConcat(a, b[..n]);
      }
    }
  }

  /** It does not matter which end is trimmed first. */
  lemma {:induction false} TrimEitherEnd(s: string)
    ensures Trim(s) == TrimLeft(TrimRight(s))
  {
    if s != "" && IsSpace(s[0]) {
      TrimEitherEnd(s[1..]);
      assert s == [s[0]] + s[1..];
      TrimRightConcat([s[0]], s[1..]);
      assert [s[0]][..0] == "";
      var r := TrimRight(s[1..]);
      if r != "" {
        assert ([s[0]] + r)[1..] == r;
      }
    } else if s != "" {
      TrimRightConcat([s[0]], s[1..]);
      assert s == [s[0]] + s[1..];
      assert [s[0]][..0] == "";
    }
  }

  /** A string already trimmed at its end, and one with one more space in front, trim to the same. */
  lemma TrimRightFirst(s: string)
    ensures Trim(TrimRight(s)) == Trim(s) && Trim(" " + TrimRight(s)) == Trim(s)
  {
    TrimEitherEnd(s);
    var r := TrimRight(s);
    var k := TrimRightIs(s);
    assert TrimRight(r) == r;
    TrimEitherEnd(r);
    assert (" " + r)[1..] == r;
  }

  lemma {:induction false} TrimLeftPad(a: string, s: string)
    requires Spaces(a)
    ensures TrimLeft(a + s) == TrimLeft(s)
  {
    if a == "" {
      assert a + s == s;
    } else {
      assert (a + s)[1..] == a[1..] + s;
      TrimLeftPad(a[1..], s);
    }
  }

  lemma {:induction false} TrimRightSpaces(a: string)
    requires Spaces(a)
    ensures TrimRight(a) == ""
  {
    if a != "" {
      TrimRightSpaces(a[..|a| - 1]);
    }
  }

  lemma TrimPads(a: string, t: string, b: string)
    requires Spaces(a) && Spaces(b) && Trimmed(t)
    ensures Trim(a + t + b) == t
  {
    hide IsSpace;
    TrimEitherEnd(a + t + b);
    TrimRightConcat(a + t, b);
    TrimRightSpaces(b);
    TrimRightConcat(a, t);
    TrimRightSpaces(a);
    TrimLeftPad(a, t);
  }

  /** Trimming takes the spaces off both ends, and nothing else. */
  lemma TrimExactly(s: string, t: string)
    ensures Trim(s) == t <==> Trimmed(t) && exists a, b :: Spaces(a) && Spaces(b) && s == a + t + b
  {
    TrimIs(s);
    var i := TrimLeftIs(s);
    var j := TrimRightIs(s[i..]);
    assert Spaces(s[..i]) && Spaces(s[i..][j..]) && s == s[..i] + Trim(s) + s[i..][j..];
    forall a, b | Spaces(a) && Spaces(b) && s == a + t + b && Trimmed(t)
      ensures Trim(s) == t
    {
      TrimPads(a, t, b);
    }
  }

  /** Only a trimmed string is its own trimming. */
  lemma TrimmedExactly(s: string)
    ensures Trim(s) == s <==> Trimmed(s)
  {
    TrimIs(s);
    if Trimmed(s) {
      TrimTrimmed(s);
    }
  }

  // ---- Cutting and splitting ----

  /** Where the character first is, or the length of the string. */
  function Index(s: string, c: char): (i: nat)
    ensures i <= |s| && c !in s[..i] && (i < |s| ==> s[i] == c)
  {
    if s == "" || s[0] == c then 0
    else
      assert s[..1 + Index(s[1..], c)] == [s[0]] + s[1..][..Index(s[1..], c)];
      1 + Index(s[1..], c)
  }

  lemma IndexIs(a: string, c: char, b: string)
    requires c !in a
    ensures Index(a + [c] + b, c) == |a|
  {
    assert (a + [c] + b)[|a|] == c;
  }

  lemma IndexNone(a: string, c: char)
    requires c !in a
    ensures Index(a, c) == |a|
  {
  }

  /** strings.Cut at a character; None when it is not there. */
  function Cut(s: string, c: char): Option<(string, string)> {
    var i := Index(s, c);
    if i == |s| then None else Some((s[..i], s[i + 1..]))
  }

  lemma CutIs(a: string, c: char, b: string)
    requires c !in a
    ensures Cut(a + [c] + b, c) == Some((a, b))
  {
    IndexIs(a, c, b);
    var s := a + [c] + b;
    assert s[..|a|] == a && s[|a| + 1..] == b;
  }

  /** strings.Split at a character. */
  function Split(s: string, c: char): (parts: seq<string>)
    ensures parts != []
    decreases |s|
  {
    var i := Index(s, c);
    if i == |s| then [s] else [s[..i]] + Split(s[i + 1..], c)
  }

  lemma SplitCons(a: string, c: char, b: string)
    requires c !in a
    ensures Split(a + [c] + b, c) == [a] + Split(b, c)
  {
    IndexIs(a, c, b);
    var s := a + [c] + b;
    assert s[..|a|] == a && s[|a| + 1..] == b;
  }

  lemma SplitNone(s: string, c: char)
    requires c !in s
    ensures Split(s, c) == [s]
  {
    IndexNone(s, c);
  }

  lemma {:induction false} SplitParts(s: string, c: char)
    ensures forall p, x | p in Split(s, c) && x in p :: x in s && x != c
    decreases |s|
  {
    var i := Index(s, c);
    if i < |s| {
      SplitParts(s[i + 1..], c);
    }
  }

  // ---- Splitting what is trimmed ----

  predicate SameTrims(a: seq<string>, b: seq<string>) {
    |a| == |b| && forall i | 0 <= i < |a| :: Trim(a[i]) == Trim(b[i])
  }

  lemma TrimDropFirst(s: string)
    requires s != "" && IsSpace(s[0])
    ensures Trim(s[1..]) == Trim(s)
  {
  }

  lemma SplitDropFirst(s: string, c: char)
    requires s != "" && IsSpace(s[0]) && !IsSpace(c)
    ensures SameTrims(Split(s[1..], c), Split(s, c))
  {
    hide Trim, Split, Index, IsSpace;
    var i, t := Index(s, c), s[1..];
    if i == |s| {
      SplitNone(s, c);
      SplitNone(t, c);
      TrimDropFirst(s);
    } else {
      var before, rest := s[..i], s[i + 1..];
      assert s == before + [c] + rest;
      SplitCons(before, c, rest);
      assert t == before[1..] + [c] + rest;
      SplitCons(before[1..], c, rest);
      TrimDropFirst(before);
    }
  }

  lemma TrimDropLast(s: string)
    requires s != "" && IsSpace(s[|s| - 1])
    ensures Trim(s[..|s| - 1]) == Trim(s)
  {
    TrimEitherEnd(s);
    TrimEitherEnd(s[..|s| - 1]);
  }

  lemma {:induction false} SplitDropLast(s: string, c: char)
    requires s != "" && IsSpace(s[|s| - 1]) && !IsSpace(c)
    ensures SameTrims(Split(s[..|s| - 1], c), Split(s, c))
    decreases |s|
  {
    hide Trim, Split, Index, IsSpace;
    var i, t := Index(s, c), s[..|s| - 1];
    if i == |s| {
      SplitNone(t, c);
      SplitNone(s, c);
      TrimDropLast(s);
    } else {
      var rest := s[i + 1..];
      assert s == s[..i] + [c] + rest;
      SplitCons(s[..i], c, rest);
      assert t == s[..i] + [c] + rest[..|rest| - 1];
      SplitCons(s[..i], c, rest[..|rest| - 1]);
      SplitDropLast(rest, c);
    }
  }

  lemma {:induction false} SplitTrimLeft(s: string, c: char)
    requires !IsSpace(c)
    ensures SameTrims(Split(TrimLeft(s), c), Split(s, c))
  {
    hide Trim, Split;
    if s != "" && IsSpace(s[0]) {
      SplitTrimLeft(s[1..], c);
      SplitDropFirst(s, c);
    }
  }

  lemma {:induction false} SplitTrimRight(s: string, c: char)
    requires !IsSpace(c)
    ensures SameTrims(Split(TrimRight(s), c), Split(s, c))
  {
    hide Trim, Split;
    if s != "" && IsSpace(s[|s| - 1]) {
      SplitTrimRight(s[..|s| - 1], c);
      SplitDropLast(s, c);
    }
  }

  /** A list trimmed as a whole has the same parts, once each is trimmed. */
  lemma SplitTrim(s: string, c: char)
    requires !IsSpace(c)
    ensures SameTrims(Split(Trim(s), c), Split(s, c))
  {
    hide TrimLeft, TrimRight, Split;
    SplitTrimLeft(s, c);
    SplitTrimRight(TrimLeft(s), c);
  }

  /** Lines, each with its end. */
  function Text(lines: seq<string>): string {
    if lines == [] then "" else lines[0] + "\n" + Text(lines[1..])
  }

  predicate OneLine(s: string) {
    '\n' !in s
  }

  lemma {:induction false} SplitText(lines: seq<string>)
    requires forall l | l in lines :: OneLine(l)
    ensures Split(Text(lines), '\n') == lines + [""]
  {
    if lines != [] {
      SplitText(lines[1..]);
      assert OneLine(lines[0]);
      SplitCons(lines[0], '\n', Text(lines[1..]));
    }
  }

  lemma {:induction false} TextConcat(a: seq<string>, b: seq<string>)
    ensures Text(a + b) == Text(a) + Text(b)
  {
    if a == [] {
      assert a + b == b;
    } else {
      assert (a + b)[1..] == a[1..] + b;
      TextConcat(a[1..], b);
    }
  }

  lemma TextSnoc(a: seq<string>, l: string)
    ensures Text(a + [l]) == Text(a) + l + "\n"
  {
    TextConcat(a, [l]);
    assert [l][1..] == [];
  }

  // ---- Case ----

  /** The two letters outside ASCII that lower to ASCII ones are the Kelvin sign and the dotted capital I.
      No other matters where the result is only compared with ASCII words. */
  function LowerChar(c: char): char {
    if 'A' <= c <= 'Z' then (c as int + 32) as char
    else if c == '\U{212A}' then 'k'
    else if c == '\U{130}' then 'i'
    else c
  }

  lemma LowerExactly(c: char)
    ensures var upper, lower := "ABCDEFGHIJKLMNOPQRSTUVWXYZ", "abcdefghijklmnopqrstuvwxyz";
      && (forall i | 0 <= i < 26 :: LowerChar(upper[i]) == lower[i])
      && (c !in upper && c != '\U{212A}' && c != '\U{130}' ==> LowerChar(c) == c)
    ensures LowerChar('\U{212A}') == 'k' && LowerChar('\U{130}') == 'i'
  {
    var upper := "ABCDEFGHIJKLMNOPQRSTUVWXYZ";
    if 'A' <= c <= 'Z' {
      assert upper[c as int - 'A' as int] == c;
    }
  }

  function Lower(s: string): string {
    seq(|s|, i requires 0 <= i < |s| => LowerChar(s[i]))
  }

  // ---- Numbers ----

  const MAX_INT: int := 0x7fff_ffff_ffff_ffff

  predicate IsDigit(c: char) {
    '0' <= c <= '9'
  }

  function Digit(n: nat): char
    requires n < 10
  {
    (n + '0' as int) as char
  }

  function DigitsOf(n: nat): (s: string)
    ensures s != "" && forall c | c in s :: IsDigit(c)
  {
    if n < 10 then [Digit(n)] else DigitsOf(n / 10) + [Digit(n % 10)]
  }

  /** strconv.Itoa */
  function Itoa(n: int): string {
    if n < 0 then "-" + DigitsOf(-n) else DigitsOf(n)
  }

  function Value(s: string): int {
    if s == "" then 0 else 10 * Value(s[..|s| - 1]) + (s[|s| - 1] as int - '0' as int)
  }

  predicate AllDigits(s: string) {
    forall i | 0 <= i < |s| :: IsDigit(s[i])
  }

  /** strconv.Atoi: an optional sign, at least one digit, and a value of 64 bits. */
  function Atoi(s: string): Option<int> {
    var digits := if s != "" && (s[0] == '-' || s[0] == '+') then s[1..] else s;
    if digits == "" || !AllDigits(digits) then None
    else
      var v := if s[0] == '-' then -Value(digits) else Value(digits);
      if -MAX_INT - 1 <= v <= MAX_INT then Some(v) else None
  }

  lemma {:induction false} ValueOfDigits(n: nat)
    ensures Value(DigitsOf(n)) == n
  {
    if n >= 10 {
      ValueOfDigits(n / 10);
      assert DigitsOf(n)[..|DigitsOf(n)| - 1] == DigitsOf(n / 10);
    } else {
      assert DigitsOf(n)[..0] == "";
    }
  }

  lemma AtoiItoa(n: int)
    requires -MAX_INT - 1 <= n <= MAX_INT
    ensures Atoi(Itoa(n)) == Some(n)
  {
    if n < 0 {
      ValueOfDigits(-n);
      assert Itoa(n)[1..] == DigitsOf(-n);
    } else {
      ValueOfDigits(n);
      assert IsDigit(DigitsOf(n)[0]);
    }
  }

  /** An optional sign and digits. */
  ghost predicate Written(s: string, negative: bool, digits: string) {
    && digits != "" && (forall i | 0 <= i < |digits| :: '0' <= digits[i] <= '9')
    && (if negative then s == "-" + digits else s == digits || s == "+" + digits)
  }

  function Signed(negative: bool, digits: string): int {
    if negative then -Value(digits) else Value(digits)
  }

  lemma WrittenReads(s: string, negative: bool, digits: string)
    requires Written(s, negative, digits)
    ensures Atoi(s) ==
      if -0x8000_0000_0000_0000 <= Signed(negative, digits) <= 0x7fff_ffff_ffff_ffff
      then Some(Signed(negative, digits)) else None
  {
    hide Value;
    assert digits[0] != '-' && digits[0] != '+';
    assert ("-" + digits)[1..] == digits && ("+" + digits)[1..] == digits;
    assert AllDigits(digits);
  }

  lemma ReadIsWritten(s: string) returns (negative: bool, digits: string)
    requires Atoi(s).Some?
    ensures Written(s, negative, digits)
  {
    hide Value;
    var signed := s != "" && (s[0] == '-' || s[0] == '+');
    digits := if signed then s[1..] else s;
    negative := s[0] == '-';
    assert signed ==> s == [s[0]] + digits;
    assert AllDigits(digits);
  }

  /** What reads as a number is an optional sign and at least one digit, nothing else, and its value fits 64 bits; and
      the value of digits grows tenfold with each. */
  lemma AtoiExactly(s: string, n: int)
    ensures Atoi(s) == Some(n) <==>
      && -0x8000_0000_0000_0000 <= n <= 0x7fff_ffff_ffff_ffff
      && exists negative, digits :: Written(s, negative, digits) && n == Signed(negative, digits)
    ensures Value("") == 0
    ensures forall digits: string, d: nat | d < 10 :: Value(digits + [Digit(d)]) == 10 * Value(digits) + d
  {
    hide Value, Atoi, Written, Signed;
    ValueSteps();
    if Atoi(s).Some? {
      var negative, digits := ReadIsWritten(s);
      WrittenReads(s, negative, digits);
    }
    forall negative, digits | Written(s, negative, digits)
      ensures Atoi(s) == if -0x8000_0000_0000_0000 <= Signed(negative, digits) <= 0x7fff_ffff_ffff_ffff
                         then Some(Signed(negative, digits)) else None
    {
      WrittenReads(s, negative, digits);
    }
  }

  lemma ValueSteps()
    ensures Value("") == 0
    ensures forall digits: string, d: nat | d < 10 :: Value(digits + [Digit(d)]) == 10 * Value(digits) + d
  {
    forall digits: string, d: nat | d < 10
      ensures Value(digits + [Digit(d)]) == 10 * Value(digits) + d
    {
      assert (digits + [Digit(d)])[..|digits|] == digits;
    }
  }

  lemma {:induction false} NoLeadingZero(n: nat)
    ensures DigitsOf(n)[0] == '0' ==> n == 0 && DigitsOf(n) == "0"
  {
    if n >= 10 {
      NoLeadingZero(n / 10);
    }
  }

  /** A printed number has a sign only where it is negative, and no zero in front. */
  lemma ItoaExactly(n: int)
    ensures n < 0 ==> Itoa(n) == "-" + Itoa(-n)
    ensures n >= 0 ==> AllDigits(Itoa(n)) && Itoa(n) != "" && (Itoa(n)[0] == '0' ==> Itoa(n) == "0")
    ensures n >= 0 ==> Value(Itoa(n)) == n
  {
    if n >= 0 {
      NoLeadingZero(n);
      ValueOfDigits(n);
      assert forall i | 0 <= i < |Itoa(n)| :: Itoa(n)[i] in Itoa(n);
    }
  }

  lemma ItoaPlain(n: int)
    ensures Itoa(n) != "" && forall c | c in Itoa(n) :: IsDigit(c) || c == '-'
    ensures Trimmed(Itoa(n)) && OneLine(Itoa(n))
  {
    if n < 0 {
      assert Itoa(n)[|Itoa(n)| - 1] == DigitsOf(-n)[|DigitsOf(-n)| - 1];
      assert IsDigit(DigitsOf(-n)[|DigitsOf(-n)| - 1]);
    } else {
      assert IsDigit(DigitsOf(n)[0]) && IsDigit(DigitsOf(n)[|DigitsOf(n)| - 1]);
    }
  }
}
