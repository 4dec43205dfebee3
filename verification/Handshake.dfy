/** Two readings of a handshake: its round trip, timed from the device's own log lines; and whether there
    was one yet, read from the device's state and polled for. */
module Handshake {
  import opened Wrappers
  import opened Strings

  // ---- The clock ----

  /** The zero instant is what an unset time is. */
  const ZERO: int := 0

  /** The device layer's own words, before anything is filled in. */
  const SENDING_INITIATION: string := "%v - Sending handshake initiation"
  const RECEIVED_RESPONSE: string := "%v - Received handshake response"

  /** What the device logs, with the clock reading its handler takes. */
  datatype Event = Event(format: string, now: int)

  datatype Clock = Clock(sent: int, rtt: int, done: bool)

  const FRESH: Clock := Clock(ZERO, 0, false)

  function Observe(c: Clock, e: Event): Clock {
    if e.format == SENDING_INITIATION then c.(sent := e.now)
    else if e.format == RECEIVED_RESPONSE && c.sent != ZERO then Clock(ZERO, e.now - c.sent, true)
    else c
  }

  function Run(tr: seq<Event>): Clock {
    if tr == [] then FRESH else Observe(Run(tr[..|tr| - 1]), tr[|tr| - 1])
  }

  predicate Initiates(e: Event) {
    e.format == "%v - Sending handshake initiation"
  }

  predicate Responds(e: Event) {
    e.format == "%v - Received handshake response"
  }

  /** Anything else the device logs. */
  predicate Passes(e: Event) {
    !Initiates(e) && !Responds(e)
  }

  lemma EventKinds(c: Clock, e: Event)
    ensures !(Initiates(e) && Responds(e))
    ensures Initiates(e) ==> Observe(c, e) == c.(sent := e.now)
    ensures Responds(e) ==> Observe(c, e) == if c.sent == 0 then c else Clock(0, e.now - c.sent, true)
    ensures Passes(e) ==> Observe(c, e) == c
  {
    assert "%v - Sending handshake initiation"[5] != "%v - Received handshake response"[5];
  }

  /** The initiation at i is the one outstanding after the trace: no other went out since, and no response
      came. */
  ghost predicate Outstanding(tr: seq<Event>, i: int) {
    0 <= i < |tr| && Initiates(tr[i]) && tr[i].now != ZERO && forall k | i < k < |tr| :: Passes(tr[k])
  }

  /** The response at j answers the initiation at i. */
  ghost predicate Answers(tr: seq<Event>, i: int, j: int) {
    0 <= j < |tr| && Responds(tr[j]) && Outstanding(tr[..j], i)
  }

  lemma OutstandingLast(tr: seq<Event>, i: int)
    requires tr != []
    ensures var n := |tr| - 1;
      Outstanding(tr, i) <==>
        (Passes(tr[n]) && Outstanding(tr[..n], i)) || (i == n && Initiates(tr[n]) && tr[n].now != ZERO)
  {
    hide Passes, Initiates;
    var n := |tr| - 1;
    assert forall k | 0 <= k < n :: tr[..n][k] == tr[k];
    if Outstanding(tr, i) && i < n {
      assert Passes(tr[n]);
      assert forall k | i < k < n :: Passes(tr[..n][k]);
    }
  }

  lemma {:induction false} SentIsOutstanding(tr: seq<Event>)
    ensures Run(tr).sent != ZERO <==> exists i :: Outstanding(tr, i)
    ensures forall i | Outstanding(tr, i) :: Run(tr).sent == tr[i].now
  {
    hide Passes, Initiates, Responds, Observe;
    if tr != [] {
      var n := |tr| - 1;
      SentIsOutstanding(tr[..n]);
      EventKinds(Run(tr[..n]), tr[n]);
      PassesIs(tr[n]);
      forall i
        ensures Outstanding(tr, i) <==>
          (Passes(tr[n]) && Outstanding(tr[..n], i)) || (i == n && Initiates(tr[n]) && tr[n].now != ZERO)
      {
        OutstandingLast(tr, i);
      }
      if Passes(tr[n]) && Run(tr[..n]).sent != ZERO {
        var i :| Outstanding(tr[..n], i);
        assert Outstanding(tr, i);
      } else if Initiates(tr[n]) && tr[n].now != ZERO {
        assert Outstanding(tr, n);
      }
    }
  }

  lemma PassesIs(e: Event)
    ensures Passes(e) <==> !Initiates(e) && !Responds(e)
  {
  }

  /** The response at j is the last that answered anything. */
  ghost predicate Latest(tr: seq<Event>, i: int, j: int) {
    Answers(tr, i, j) && forall i', j' | Answers(tr, i', j') :: j' <= j
  }

  /** The round trip is that of the last response that answered anything: from the latest initiation before
      it to the response itself. A response that answers nothing changes nothing. */
  lemma {:induction false} RoundTripIsTheLatest(tr: seq<Event>)
    ensures Run(tr).done <==> exists i, j :: Answers(tr, i, j)
    ensures forall i, j | Latest(tr, i, j) :: Run(tr).rtt == tr[j].now - tr[i].now
    ensures !Run(tr).done ==> Run(tr).rtt == 0
  {
    if tr != [] {
      var n := |tr| - 1;
      RoundTripIsTheLatest(tr[..n]);
      SentIsOutstanding(tr[..n]);
      EventKinds(Run(tr[..n]), tr[n]);
      forall i, j
        ensures Answers(tr, i, j) <==> Answers(tr[..n], i, j) || (j == n && Responds(tr[n]) && Outstanding(tr[..n], i))
      {
        AnswersBefore(tr, i, j);
      }
      if Responds(tr[n]) && Run(tr[..n]).sent != ZERO {
        var i :| Outstanding(tr[..n], i);
        assert Answers(tr, i, n);
      } else {
        forall i, j | Latest(tr, i, j)
          ensures Latest(tr[..n], i, j)
        {
        }
      }
    }
  }

  lemma AnswersBefore(tr: seq<Event>, i: int, j: int)
    requires tr != []
    ensures var n := |tr| - 1;
      Answers(tr, i, j) <==> Answers(tr[..n], i, j) || (j == n && Responds(tr[n]) && Outstanding(tr[..n], i))
  {
    var n := |tr| - 1;
    if 0 <= j < n {
      assert tr[..n][..j] == tr[..j];
    }
  }

  class HandshakeClock {
    var sent: int
    var rtt: int
    var done: bool
    ghost var history: seq<Event>

    ghost predicate Valid()
      reads this
    {
      Clock(sent, rtt, done) == Run(history)
    }

    constructor ()
      ensures Valid() && history == []
    {
      sent, rtt, done, history := ZERO, 0, false, [];
    }

    method ObserveLine(e: Event)
      requires Valid()
      modifies this
      ensures Valid() && history == old(history) + [e]
    {
      assert (history + [e])[..|history|] == history;
      history := history + [e];
      if e.format == SENDING_INITIATION {
        sent := e.now;
      } else if e.format == RECEIVED_RESPONSE {
        if sent != ZERO {
          rtt := e.now - sent;
          done := true;
          sent := ZERO;
        }
      }
    }

    method RoundTrip() returns (trip: int, ok: bool)
      requires Valid()
      ensures (trip, ok) == (Run(history).rtt, Run(history).done)
    {
      return rtt, done;
    }
  }

  // ---- The state ----

  /** strconv.ParseInt of a whole field, in base ten and 64 bits, is what Atoi is. */
  const KEY: string := "last_handshake_time_sec="

  /** The seconds between year 1 and 1970: past this, an instant wraps and is before every other. */
  const UNIX_TO_INTERNAL: int := 62135596800

  /** What one line says of a handshake: its time in seconds, or nothing. */
  function SecondsOf(line: string): int {
    if |line| < |KEY| || line[..|KEY|] != KEY then 0
    else
      match Atoi(Trim(line[|KEY|..]))
      case Some(seconds) => if 0 < seconds <= MAX_INT - UNIX_TO_INTERNAL then seconds else 0
      case None => 0
  }

  /** The line tells a handshake at this many seconds: under that name a number, spaces around it or not, that is more
      than none and not beyond what an instant holds. */
  ghost predicate Tells(line: string, seconds: int) {
    && "last_handshake_time_sec=" <= line
    && Atoi(Trim(line[|"last_handshake_time_sec="|..])) == Some(seconds)
    && 0 < seconds <= 0x7fff_ffff_ffff_ffff - 62_135_596_800
  }

  lemma SecondsExactly(line: string)
    ensures SecondsOf(line) > 0 ==> Tells(line, SecondsOf(line))
    ensures forall seconds | Tells(line, seconds) :: SecondsOf(line) == seconds
    ensures SecondsOf(line) >= 0
  {
    hide Atoi, Trim;
    assert KEY == "last_handshake_time_sec=" && |KEY| == 24;
    assert KEY <= line <==> |line| >= |KEY| && line[..|KEY|] == KEY;
  }

  /** Every line the device writes of a handshake tells it, with any spaces around the number. */
  lemma WrittenTimeIsTold(seconds: int, before: string, behind: string)
    requires 0 < seconds <= 0x7fff_ffff_ffff_ffff - 62_135_596_800 && Spaces(before) && Spaces(behind)
    ensures Tells("last_handshake_time_sec=" + (before + Itoa(seconds) + behind), seconds)
  {
    hide Atoi, Trim, Itoa;
    ItoaPlain(seconds);
    AtoiItoa(seconds);
    TrimPads(before, Itoa(seconds), behind);
    var name, rest := "last_handshake_time_sec=", before + Itoa(seconds) + behind;
    assert (name + rest)[|name|..] == rest;
  }

  /** The most recent handshake in a dump; 0 is none. */
  method ParseDump(uapi: string) returns (latest: int)
    ensures latest >= 0
    ensures forall line, seconds | line in Split(uapi, '\n') && Tells(line, seconds) :: seconds <= latest
    ensures latest > 0 ==> exists line :: line in Split(uapi, '\n') && Tells(line, latest)
  {
    hide SecondsOf, Split, Tells;
    var lines := Split(uapi, '\n');
    latest := 0;
    for i := 0 to |lines|
      invariant latest >= 0
      invariant forall j, seconds | 0 <= j < i && Tells(lines[j], seconds) :: seconds <= latest
      invariant latest > 0 ==> exists j :: 0 <= j < i && Tells(lines[j], latest)
    {
      SecondsExactly(lines[i]);
      var seconds := SecondsOf(lines[i]);
      if seconds > latest {
        latest := seconds;
      }
    }
  }

  /** Whether a dump has a handshake in it. */
  ghost predicate Shook(read: Option<string>) {
    read.Some? && exists line, seconds :: line in Split(read.value, '\n') && Tells(line, seconds)
  }

  const POLL: int := 200_000_000

  /** Wait polls. `answers` gives what each read of the device's state answers, None being an error; `times` gives each
      reading of the clock, the first of them before the first read. Each sleep moves the clock on by at
      least its own length, and reading never moves it back. */
  method Wait(answers: nat -> Option<string>, times: nat -> int, timeout: nat) returns (shook: bool, polls: nat)
    requires forall k: nat :: times(k + 1) >= times(k) + if k == 0 then 0 else 200_000_000
    ensures polls >= 1
    ensures shook ==> Shook(answers(polls - 1)) && forall k | 0 <= k < polls - 1 :: !Shook(answers(k))
    ensures !shook ==> times(polls) > times(0) + timeout && forall k | 0 <= k < polls :: !Shook(answers(k))
    ensures polls <= timeout / 200_000_000 + 2
  {
    var deadline := times(0) + timeout;
    polls := 0;
    while true
      invariant forall k | 0 <= k < polls :: !Shook(answers(k))
      invariant polls > 0 ==> times(polls) <= deadline
      invariant polls > 0 ==> times(polls) >= times(0) + (polls - 1) * POLL
      decreases timeout / POLL + 2 - polls
    {
      assert polls <= timeout / POLL + 1;
      var uapi := answers(polls);
      polls := polls + 1;
      if uapi.Some? {
        var latest := ParseDump(uapi.value);
        if latest > 0 {
          return true, polls;
        }
      }
      assert !Shook(uapi);
      assert times(polls) >= times(0) + (polls - 1) * POLL by {
        if polls > 1 {
          assert times(polls - 1 + 1) >= times(polls - 1) + POLL;
        }
      }
      if times(polls) > deadline {
        return false, polls;
      }
    }
  }
}
