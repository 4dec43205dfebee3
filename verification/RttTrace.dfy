/** The meter as a function of what it was shown, and what that function means over whole runs.
    An event carries the clock reading its call took; the readings are taken before the lock, so
    nothing here assumes they grow unless a lemma says `Monotone`. */
module RttTrace {
  import opened Wrappers
  import opened Slices
  import opened RttPacket

  // Durations and instants are whole nanoseconds.
  const SECOND: int := 1_000_000_000
  const WINDOW: int := 10 * SECOND
  const PENDING_FOR: int := 5 * SECOND
  const MAX_PENDING: nat := 512
  const MAX_SAMPLES: nat := 256
  const MAX_DURATION: int := 0x7fff_ffff_ffff_ffff

  datatype Syn = Syn(at: int, seqNo: Uint32, again: bool)

  datatype Sample = Sample(at: int, rtt: int)

  /** What one call does to the meter, once its packet is read. */
  datatype Event =
    | SynOut(now: int, flow: Flow, seqNo: Uint32)
    | SynAckIn(now: int, flow: Flow, ackNo: Uint32)
    | Look(now: int)
    | Forgot
    | Ignored

  datatype State = State(pending: map<Flow, Syn>, samples: seq<Sample>, last: int, seen: bool)

  const INIT: State := State(map[], [], 0, false)

  function OutEvent(now: int, packet: seq<Byte>): Event {
    match ParseTCP(packet)
    case Some(s) => if IsSyn(s.flags) then SynOut(now, s.flow, s.seqNo) else Ignored
    case None => Ignored
  }

  function Mirror(f: Flow): Flow {
    Flow(f.remote, f.local, f.remotePort, f.localPort)
  }

  function InEvent(now: int, packet: seq<Byte>): Event {
    match ParseTCP(packet)
    case Some(s) => if IsSynAck(s.flags) then SynAckIn(now, Mirror(s.flow), s.ackNo) else Ignored
    case None => Ignored
  }

  /** The difference of two instants, held inside 64 bits. */
  function Sub(t: int, u: int): int {
    if t - u > MAX_DURATION then MAX_DURATION
    else if t - u < -MAX_DURATION - 1 then -MAX_DURATION - 1
    else t - u
  }

  function Fresh(samples: seq<Sample>, now: int): seq<Sample> {
    if samples == [] then []
    else
      var n := |samples| - 1;
      Fresh(samples[..n], now) + if Sub(now, samples[n].at) <= WINDOW then [samples[n]] else []
  }

  function Min(x: int, y: int): int {
    if x < y then x else y
  }

  function Least(samples: seq<Sample>): int
    requires samples != []
  {
    var n := |samples| - 1;
    if n == 0 then samples[0].rtt else Min(Least(samples[..n]), samples[n].rtt)
  }

  function Waiting(pending: map<Flow, Syn>, now: int): map<Flow, Syn> {
    map f | f in pending && Sub(now, pending[f].at) <= PENDING_FOR :: pending[f]
  }

  function Expire(st: State, now: int): State {
    var keep := Fresh(st.samples, now);
    State(Waiting(st.pending, now), keep,
          if keep == [] && st.samples != [] then Least(st.samples) else st.last, st.seen)
  }

  function DropOldest(samples: seq<Sample>): seq<Sample> {
    if |samples| == MAX_SAMPLES then samples[1..] else samples
  }

  predicate Counts(sent: Syn, now: int, ackNo: Uint32) {
    !sent.again && ackNo == (sent.seqNo + 1) % 0x1_0000_0000 && 0 < Sub(now, sent.at) <= PENDING_FOR
  }

  function Record(st: State, e: Event): State
    requires e.SynOut?
  {
    st.(pending := st.pending[e.flow := Syn(e.now, e.seqNo, false)])
  }

  function Step(st: State, e: Event): State {
    match e
    case SynOut(now, f, _) =>
      if f in st.pending then st.(pending := st.pending[f := st.pending[f].(again := true)])
      else if |st.pending| < MAX_PENDING then Record(st, e)
      else
        var after := Expire(st, now);
        if |after.pending| < MAX_PENDING then Record(after, e) else after
    case SynAckIn(now, f, ackNo) =>
      if f !in st.pending then st
      else
        var after := st.(pending := st.pending - {f});
        if Counts(st.pending[f], now, ackNo)
        then after.(samples := DropOldest(st.samples) + [Sample(now, Sub(now, st.pending[f].at))], seen := true)
        else after
    case Look(now) =>
      if !st.seen then st
      else
        var after := Expire(st, now);
        if after.samples == [] then after else after.(last := Least(after.samples))
    case Forgot => st.(samples := [], seen := false, last := 0)
    case Ignored => st
  }

  function Run(tr: seq<Event>): State {
    if tr == [] then INIT else Step(Run(tr[..|tr| - 1]), tr[|tr| - 1])
  }

  /** What Latency answers, given the state it left behind. */
  function Figure(after: State): Option<int> {
    if !after.seen then None
    else if after.samples == [] then Some(after.last)
    else Some(Least(after.samples))
  }

  // ---- Reading a trace ----

  predicate Accepts(st: State, e: Event) {
    e.SynAckIn? && e.flow in st.pending && Counts(st.pending[e.flow], e.now, e.ackNo)
  }

  function Collect(accepted: seq<Sample>, st: State, e: Event): seq<Sample> {
    if e.Forgot? then []
    else if Accepts(st, e) then accepted + [Sample(e.now, e.now - st.pending[e.flow].at)]
    else accepted
  }

  /** The round trips accepted since the last Forget, oldest first. */
  function Accepted(tr: seq<Event>): seq<Sample> {
    if tr == [] then []
    else Collect(Accepted(tr[..|tr| - 1]), Run(tr[..|tr| - 1]), tr[|tr| - 1])
  }

  predicate Timed(e: Event) {
    e.SynOut? || e.SynAckIn? || e.Look?
  }

  ghost predicate Monotone(tr: seq<Event>) {
    forall i, j | 0 <= i <= j < |tr| && Timed(tr[i]) && Timed(tr[j]) :: tr[i].now <= tr[j].now
  }

  /** No clock reading of the trace is later than this one. */
  ghost predicate UpTo(tr: seq<Event>, now: int) {
    forall i | 0 <= i < |tr| && Timed(tr[i]) :: tr[i].now <= now
  }

  predicate SynOf(e: Event, f: Flow) {
    e.SynOut? && e.flow == f
  }

  predicate AckOf(e: Event, f: Flow) {
    e.SynAckIn? && e.flow == f
  }

  ghost predicate Quiet(tr: seq<Event>, from: nat, f: Flow) {
    forall j | from <= j < |tr| :: !SynOf(tr[j], f) && !AckOf(tr[j], f)
  }

  /** The SYN at i found its flow unknown and room in the table. */
  predicate Recorded(tr: seq<Event>, i: nat)
    requires i < |tr|
  {
    tr[i].SynOut? && tr[i].flow !in Run(tr[..i]).pending && tr[i].flow in Run(tr[..i + 1]).pending
  }

  /** The SYN at i and this SYN-ACK are one round trip: the answer acknowledges that SYN, arrives in
      time, and nothing else of the flow lies between them. */
  ghost predicate Pairs(tr: seq<Event>, i: nat, e: Event)
    requires i < |tr| && e.SynAckIn?
  {
    && SynOf(tr[i], e.flow)
    && e.ackNo == (tr[i].seqNo + 1) % 0x1_0000_0000
    && 0 < e.now - tr[i].now <= 5_000_000_000
    && Quiet(tr, i + 1, e.flow)
  }

  lemma RunSnoc(tr: seq<Event>, e: Event)
    ensures Run(tr + [e]) == Step(Run(tr), e)
  {
    assert (tr + [e])[..|tr|] == tr;
  }

  /** A difference of instants is what it is, as far as 64 bits hold it, and the nearer bound beyond. */
  lemma SubExactly(t: int, u: int)
    ensures -0x8000_0000_0000_0000 <= Sub(t, u) <= 0x7fff_ffff_ffff_ffff
    ensures -0x8000_0000_0000_0000 <= t - u <= 0x7fff_ffff_ffff_ffff ==> Sub(t, u) == t - u
    ensures t - u > 0x7fff_ffff_ffff_ffff ==> Sub(t, u) == 0x7fff_ffff_ffff_ffff
    ensures t - u < -0x8000_0000_0000_0000 ==> Sub(t, u) == -0x8000_0000_0000_0000
  {
  }

  /** Forget leaves the SYNs that wait and nothing else. */
  lemma ForgetLeavesPending(tr: seq<Event>)
    ensures Run(tr + [Forgot]) == State(Run(tr).pending, [], 0, false)
  {
    RunSnoc(tr, Forgot);
  }

  lemma AcceptedSnoc(tr: seq<Event>, e: Event)
    ensures Accepted(tr + [e]) == Collect(Accepted(tr), Run(tr), e)
  {
    assert (tr + [e])[..|tr|] == tr;
  }

  // ---- For arbitrary clock readings: bounds ----

  lemma {:induction false} FreshIsPart(samples: seq<Sample>, now: int)
    ensures |Fresh(samples, now)| <= |samples|
    ensures forall s :: s in Fresh(samples, now) <==> s in samples && now - s.at <= WINDOW
  {
    if samples != [] {
      var n := |samples| - 1;
      FreshIsPart(samples[..n], now);
      assert samples == samples[..n] + [samples[n]];
    }
  }

  lemma {:induction false} FreshNone(samples: seq<Sample>, now: int)
    requires forall s | s in samples :: now - s.at > WINDOW
    ensures Fresh(samples, now) == []
  {
    if samples != [] {
      FreshNone(samples[..|samples| - 1], now);
    }
  }

  lemma {:induction false} LeastIsMinimum(samples: seq<Sample>)
    requires samples != []
    ensures exists s :: s in samples && s.rtt == Least(samples)
    ensures forall s | s in samples :: Least(samples) <= s.rtt
  {
    var n := |samples| - 1;
    assert samples == samples[..n] + [samples[n]];
    if n > 0 {
      LeastIsMinimum(samples[..n]);
      var s :| s in samples[..n] && s.rtt == Least(samples[..n]);
      assert s in samples && samples[n] in samples;
    } else {
      assert samples[0] in samples;
    }
  }

  lemma WaitingIsPart(pending: map<Flow, Syn>, now: int)
    ensures |Waiting(pending, now)| <= |pending|
    ensures forall f :: f in Waiting(pending, now) <==> f in pending && now - pending[f].at <= PENDING_FOR
    ensures forall f | f in Waiting(pending, now) :: Waiting(pending, now)[f] == pending[f]
  {
    SubsetIsSmaller(Waiting(pending, now).Keys, pending.Keys);
  }

  lemma {:induction false} SubsetIsSmaller<T>(a: set<T>, b: set<T>)
    requires a <= b
    ensures |a| <= |b|
  {
    assert b == a + (b - a);
  }

  /** At most 512 flows wait and at most 256 samples are kept. */
  lemma {:induction false} Bounded(tr: seq<Event>)
    ensures |Run(tr).pending| <= 512 && |Run(tr).samples| <= 256
  {
    if tr != [] {
      var n := |tr| - 1;
      Bounded(tr[..n]);
      var st, e := Run(tr[..n]), tr[n];
      if e.SynOut? || e.Look? {
        WaitingIsPart(st.pending, e.now);
        FreshIsPart(st.samples, e.now);
      }
      if e.SynOut? && e.flow in st.pending {
        assert st.pending[e.flow := st.pending[e.flow].(again := true)].Keys == st.pending.Keys;
      }
      if e.SynAckIn? {
        SubsetIsSmaller((st.pending - {e.flow}).Keys, st.pending.Keys);
      }
    }
  }

  /** Every figure the meter holds is the time of a round trip it accepted. */
  ghost predicate Witnessed(st: State, accepted: seq<Sample>) {
    && (st.seen <==> accepted != [])
    && (forall s | s in st.samples :: s in accepted)
    && (st.seen && st.samples == [] ==> exists a :: a in accepted && a.rtt == st.last)
  }

  lemma ExpireWitnessed(st: State, accepted: seq<Sample>, now: int)
    requires Witnessed(st, accepted)
    ensures Witnessed(Expire(st, now), accepted)
  {
    FreshIsPart(st.samples, now);
    if st.samples != [] {
      LeastIsMinimum(st.samples);
    }
  }

  lemma {:induction false} AlwaysWitnessed(tr: seq<Event>)
    ensures Witnessed(Run(tr), Accepted(tr))
  {
    if tr != [] {
      var n := |tr| - 1;
      AlwaysWitnessed(tr[..n]);
      var st, e := Run(tr[..n]), tr[n];
      if e.SynOut? || e.Look? {
        ExpireWitnessed(st, Accepted(tr[..n]), e.now);
      }
    }
  }

  lemma {:induction false} AcceptedInRange(tr: seq<Event>)
    ensures forall a | a in Accepted(tr) :: 0 < a.rtt <= 5_000_000_000
  {
    if tr != [] {
      AcceptedInRange(tr[..|tr| - 1]);
    }
  }

  /** Whatever the clock did, Latency reports a figure exactly when a round trip was accepted since the
      last Forget, and the figure is the time of one of those: more than nothing, at most five seconds. */
  lemma FigureIsAccepted(tr: seq<Event>, now: int)
    ensures var figure := Figure(Run(tr + [Look(now)]));
      && (figure.Some? <==> Accepted(tr) != [])
      && (figure.Some? ==> (exists a :: a in Accepted(tr) && a.rtt == figure.value))
      && (figure.Some? ==> 0 < figure.value <= 5_000_000_000)
  {
    AcceptedSnoc(tr, Look(now));
    AlwaysWitnessed(tr + [Look(now)]);
    AcceptedInRange(tr);
    var after := Run(tr + [Look(now)]);
    if after.samples != [] {
      LeastIsMinimum(after.samples);
    }
  }

  // ---- For arbitrary clock readings: the held figure ----

  ghost predicate AtLeast(st: State, figure: int) {
    st.seen && if st.samples == [] then figure <= st.last else forall s | s in st.samples :: figure <= s.rtt
  }

  ghost predicate Holds(st: State, figure: int) {
    st.seen && st.samples == [] && st.last == figure
  }

  lemma QuietStep(st: State, e: Event, figure: int)
    requires AtLeast(st, figure) && !e.Forgot? && !Accepts(st, e)
    ensures AtLeast(Step(st, e), figure)
    ensures Holds(st, figure) ==> Holds(Step(st, e), figure)
  {
    if e.SynOut? || e.Look? {
      FreshIsPart(st.samples, e.now);
      if st.samples != [] {
        LeastIsMinimum(st.samples);
      }
    }
  }

  lemma {:induction false} QuietRun(tr: seq<Event>, mid: seq<Event>, figure: int)
    requires AtLeast(Run(tr), figure)
    requires forall e | e in mid :: !e.Forgot?
    requires |Accepted(tr + mid)| <= |Accepted(tr)|
    ensures AtLeast(Run(tr + mid), figure)
    ensures Holds(Run(tr), figure) ==> Holds(Run(tr + mid), figure)
    ensures |Accepted(tr + mid)| == |Accepted(tr)|
    decreases |mid|
  {
    if mid == [] {
      assert tr + mid == tr;
    } else {
      var m := |mid| - 1;
      var first, e := mid[..m], mid[m];
      assert e in mid && tr + mid == tr + first + [e];
      RunSnoc(tr + first, e);
      AcceptedSnoc(tr + first, e);
      AcceptedGrows(tr, first);
      QuietRun(tr, first, figure);
      QuietStep(Run(tr + first), e, figure);
    }
  }

  lemma {:induction false} AcceptedGrows(tr: seq<Event>, mid: seq<Event>)
    requires forall e | e in mid :: !e.Forgot?
    ensures |Accepted(tr)| <= |Accepted(tr + mid)|
    decreases |mid|
  {
    if mid == [] {
      assert tr + mid == tr;
    } else {
      var m := |mid| - 1;
      assert mid[m] in mid && tr + mid == tr + mid[..m] + [mid[m]];
      AcceptedSnoc(tr + mid[..m], mid[m]);
      AcceptedGrows(tr, mid[..m]);
    }
  }

  /** Between two looks with no round trip accepted and no Forget, the figure never goes down; and once
      the first look found the window empty, it does not move, whatever else expires in between. */
  lemma FigureHeldThroughSilence(tr: seq<Event>, t1: int, mid: seq<Event>, t2: int)
    requires Accepted(tr) != []
    requires forall e | e in mid :: !e.Forgot?
    requires Accepted(tr + [Look(t1)] + mid) == Accepted(tr)
    ensures var first := Run(tr + [Look(t1)]);
      var second := Run(tr + [Look(t1)] + mid + [Look(t2)]);
      && Figure(first).Some? && Figure(second).Some?
      && Figure(first).value <= Figure(second).value
      && (first.samples == [] ==> Figure(second) == Figure(first))
  {
    var one := tr + [Look(t1)];
    FigureIsAccepted(tr, t1);
    AcceptedSnoc(tr, Look(t1));
    var figure := Figure(Run(one)).value;
    if Run(one).samples != [] {
      LeastIsMinimum(Run(one).samples);
    }
    var rest := mid + [Look(t2)];
    assert one + rest == one + mid + [Look(t2)];
    AcceptedSnoc(one + mid, Look(t2));
    QuietRun(one, rest, figure);
    if Run(one + rest).samples != [] {
      LeastIsMinimum(Run(one + rest).samples);
    }
  }

  /** The samples there last were since the last Forget: those kept now or, in an empty window, those kept
      when its last ones expired. */
  function LastKept(tr: seq<Event>): seq<Sample> {
    if tr == [] || tr[|tr| - 1].Forgot? then []
    else if Run(tr).samples != [] then Run(tr).samples
    else LastKept(tr[..|tr| - 1])
  }

  lemma HeldStep(st: State, e: Event)
    ensures e.Forgot? || Step(st, e).samples != [] ||
      (Step(st, e).seen == st.seen && Step(st, e).last == if st.samples != [] then Least(st.samples) else st.last)
    ensures Step(st, e).seen && !st.seen ==> Step(st, e).samples != []
  {
    hide Fresh, Least, Waiting;
  }

  /** Whatever the clock did, what the meter remembers for an empty window is the least of the samples it
      last had. */
  lemma {:induction false} HeldIsLeastOfLastKept(tr: seq<Event>)
    ensures Run(tr).seen ==> LastKept(tr) != []
    ensures Run(tr).seen && Run(tr).samples == [] ==> Run(tr).last == Least(LastKept(tr))
    ensures Run(tr).samples != [] ==> Run(tr).seen
  {
    hide Step, Least;
    if tr != [] {
      var n := |tr| - 1;
      HeldIsLeastOfLastKept(tr[..n]);
      HeldStep(Run(tr[..n]), tr[n]);
      SeenStep(Run(tr[..n]), tr[n]);
    }
  }

  lemma SeenStep(st: State, e: Event)
    requires st.samples != [] ==> st.seen
    ensures Step(st, e).samples != [] ==> Step(st, e).seen
    ensures e.Forgot? ==> !Step(st, e).seen
  {
    hide Least, Waiting;
  }

  /** So the figure is always the least of the samples there last were, and none is reported before the
      first. */
  lemma FigureIsLeastOfLastKept(tr: seq<Event>, now: int)
    ensures var all := tr + [Look(now)];
      Figure(Run(all)) == if LastKept(all) == [] then None else Some(Least(LastKept(all)))
  {
    hide Step, Least;
    var all := tr + [Look(now)];
    HeldIsLeastOfLastKept(all);
    UnseenKeepsNone(all);
  }

  lemma {:induction false} UnseenKeepsNone(tr: seq<Event>)
    ensures !Run(tr).seen ==> LastKept(tr) == []
  {
    hide Step, Least;
    if tr != [] {
      var n := |tr| - 1;
      UnseenKeepsNone(tr[..n]);
      HeldIsLeastOfLastKept(tr);
      SeenLasts(Run(tr[..n]), tr[n]);
    }
  }

  lemma SeenLasts(st: State, e: Event)
    ensures st.seen && !e.Forgot? ==> Step(st, e).seen
  {
    hide Fresh, Least, Waiting;
  }

  // ---- For arbitrary clock readings: Karn's rule ----

  /** What one event does to the entry of one flow. */
  lemma EntryStep(st: State, e: Event, f: Flow)
    ensures AckOf(e, f) ==> f !in Step(st, e).pending
    ensures f in Step(st, e).pending ==>
      Step(st, e).pending[f] == if f !in st.pending then Syn(e.now, e.seqNo, false)
                                else if SynOf(e, f) then st.pending[f].(again := true) else st.pending[f]
    ensures f in Step(st, e).pending && f !in st.pending ==> SynOf(e, f)
    ensures SynOf(e, f) && f in st.pending ==> f in Step(st, e).pending
    ensures f in st.pending && !AckOf(e, f) && (Timed(e) ==> e.now - st.pending[f].at <= PENDING_FOR)
      ==> f in Step(st, e).pending
  {
    if e.SynOut? || e.Look? {
      WaitingIsPart(st.pending, e.now);
    }
  }

  /** An entry of the table is the SYN that made it: nothing answered the flow since, and it is marked
      exactly when the SYN was seen again. */
  lemma {:induction false} EntryOrigin(tr: seq<Event>, f: Flow) returns (i: nat)
    requires f in Run(tr).pending
    ensures i < |tr| && SynOf(tr[i], f) && Recorded(tr, i)
    ensures var s := Run(tr).pending[f]; s.at == tr[i].now && s.seqNo == tr[i].seqNo
    ensures forall j | i < j < |tr| :: !AckOf(tr[j], f)
    ensures !Run(tr).pending[f].again ==> Quiet(tr, i + 1, f)
    ensures Run(tr).pending[f].again ==> exists j :: i < j < |tr| && SynOf(tr[j], f)
  {
    hide Step;
    var n := |tr| - 1;
    var before, e := Run(tr[..n]), tr[n];
    EntryStep(before, e, f);
    if f in before.pending {
      i := EntryOrigin(tr[..n], f);
      assert tr[..n][..i] == tr[..i] && tr[..n][..i + 1] == tr[..i + 1];
      if before.pending[f].again {
        var j :| i < j < n && SynOf(tr[..n][j], f);
        assert SynOf(tr[j], f);
      }
    } else {
      i := n;
      assert tr[..n + 1] == tr;
    }
  }

  /** Karn's rule, whatever the clock did: an accepted round trip is one SYN the meter recorded and one
      SYN-ACK that acknowledges it, timed from one to the other, with nothing of the flow between. */
  lemma AcceptedPairs(tr: seq<Event>, e: Event) returns (i: nat)
    requires Accepts(Run(tr), e)
    ensures i < |tr| && Recorded(tr, i) && Pairs(tr, i, e)
    ensures Accepted(tr + [e]) == Accepted(tr) + [Sample(e.now, e.now - tr[i].now)]
  {
    i := EntryOrigin(tr, e.flow);
    AcceptedSnoc(tr, e);
  }

  /** The same for everything the meter has accepted since the last Forget: an event of the trace and a
      recorded SYN before it. */
  lemma {:induction false} EverySampleIsARoundTrip(tr: seq<Event>, k: nat) returns (i: nat, j: nat)
    requires k < |Accepted(tr)|
    ensures i < j < |tr| && tr[j].SynAckIn? && Recorded(tr[..j], i) && Pairs(tr[..j], i, tr[j])
    ensures Accepted(tr)[k] == Sample(tr[j].now, tr[j].now - tr[i].now)
  {
    hide Run, Step, Counts, Recorded, Pairs;
    var n := |tr| - 1;
    assert tr[..n] + [tr[n]] == tr;
    AcceptedSnoc(tr[..n], tr[n]);
    if k < |Accepted(tr[..n])| {
      i, j := EverySampleIsARoundTrip(tr[..n], k);
      assert tr[..n][..j] == tr[..j];
    } else {
      j := n;
      i := AcceptedPairs(tr[..n], tr[n]);
      assert tr[..j][i] == tr[i];
    }
  }

  // ---- How far Karn's rule reaches: a resend of a SYN the table has lost ----

  /** How many SYNs of the flow went out since its last SYN-ACK. */
  function Unanswered(tr: seq<Event>, f: Flow): nat {
    if tr == [] then 0
    else
      var n := |tr| - 1;
      if AckOf(tr[n], f) then 0 else Unanswered(tr[..n], f) + if SynOf(tr[n], f) then 1 else 0
  }

  /** Since the flow's last SYN-ACK the table turned one of its SYNs away for want of room, or expired
      its entry. */
  predicate Lost(tr: seq<Event>, f: Flow) {
    tr != [] &&
    var n := |tr| - 1;
    !AckOf(tr[n], f) &&
    (Lost(tr[..n], f) || (f !in Run(tr).pending && (SynOf(tr[n], f) || f in Run(tr[..n]).pending)))
  }

  lemma {:induction false} LostMeaning(tr: seq<Event>, f: Flow)
    ensures Lost(tr, f) ==> Unanswered(tr, f) >= if f in Run(tr).pending then 2 else 1
    ensures !Lost(tr, f) ==> (f in Run(tr).pending <==> Unanswered(tr, f) >= 1)
    ensures !Lost(tr, f) && f in Run(tr).pending ==> (Run(tr).pending[f].again <==> Unanswered(tr, f) >= 2)
  {
    hide Step;
    if tr != [] {
      var n := |tr| - 1;
      LostMeaning(tr[..n], f);
      EntryStep(Run(tr[..n]), tr[n], f);
    }
  }

  /** The meter means to count only connections whose SYN went out once. It does so exactly when the
      table lost nothing of the flow since its last answer. */
  lemma CountedSynWentOutOnce(tr: seq<Event>, e: Event)
    requires Accepts(Run(tr), e)
    ensures Unanswered(tr, e.flow) == 1 <==> !Lost(tr, e.flow)
  {
    LostMeaning(tr, e.flow);
  }

  /** Five seconds after its first SYN a flow's entry expires at the next look; its resend is then
      recorded as if it were the first, and the answer to it is counted. */
  lemma ResendAfterExpiryIsCounted(f: Flow, g: Flow)
    requires f != g
    ensures var tr := [SynOut(0, g, 1), SynAckIn(1, g, 2), SynOut(2, f, 7), Look(5_000_000_003),
      SynOut(5_000_000_004, f, 7)];
      && Monotone(tr) && Unanswered(tr, f) == 2
      && Accepts(Run(tr), SynAckIn(5_000_000_005, f, 8))
  {
    hide Step, Run, Unanswered, Counts;
    var t0: seq<Event> := [];
    var t1 := t0 + [SynOut(0, g, 1)];
    var t2 := t1 + [SynAckIn(1, g, 2)];
    var t3 := t2 + [SynOut(2, f, 7)];
    var t4 := t3 + [Look(3 + PENDING_FOR)];
    var t5 := t4 + [SynOut(4 + PENDING_FOR, f, 7)];
    NothingRun(f);
    OneMore(t0, SynOut(0, g, 1), f);
    OneMore(t1, SynAckIn(1, g, 2), f);
    OneMore(t2, SynOut(2, f, 7), f);
    OneMore(t3, Look(3 + PENDING_FOR), f);
    OneMore(t4, SynOut(4 + PENDING_FOR, f, 7), f);
    FirstRoundTrip(g);
    EntryExpires(Run(t2), f, 2, 7);
    ResendCounts(4 + PENDING_FOR);
    assert t5 == [SynOut(0, g, 1), SynAckIn(1, g, 2), SynOut(2, f, 7), Look(3 + PENDING_FOR),
      SynOut(4 + PENDING_FOR, f, 7)];
  }

  lemma NothingRun(f: Flow)
    ensures Run([]) == INIT && Unanswered([], f) == 0
  {
  }

  lemma ResendCounts(at: int)
    ensures Counts(Syn(at, 7, false), at + 1, 8)
  {
  }

  lemma OneMore(tr: seq<Event>, e: Event, f: Flow)
    ensures Run(tr + [e]) == Step(Run(tr), e)
    ensures Unanswered(tr + [e], f) ==
      if AckOf(e, f) then 0 else Unanswered(tr, f) + if SynOf(e, f) then 1 else 0
  {
    hide Step;
    RunSnoc(tr, e);
    UnansweredSnoc(tr, e, f);
  }

  lemma UnansweredSnoc(tr: seq<Event>, e: Event, f: Flow)
    ensures Unanswered(tr + [e], f) ==
      if AckOf(e, f) then 0 else Unanswered(tr, f) + if SynOf(e, f) then 1 else 0
  {
    assert (tr + [e])[..|tr|] == tr;
  }

  lemma FirstRoundTrip(g: Flow)
    ensures Step(Step(INIT, SynOut(0, g, 1)), SynAckIn(1, g, 2)) == State(map[], [Sample(1, 1)], 0, true)
  {
    var st := Step(INIT, SynOut(0, g, 1));
    assert st == State(map[g := Syn(0, 1, false)], [], 0, false);
    assert st.pending - {g} == map[];
  }

  lemma EntryExpires(st: State, f: Flow, now: int, seqNo: Uint32)
    requires st.pending == map[] && st.seen
    ensures var expired := Step(Step(st, SynOut(now, f, seqNo)), Look(now + 1 + PENDING_FOR));
      var again := Step(expired, SynOut(now + 2 + PENDING_FOR, f, seqNo));
      f in again.pending && again.pending[f] == Syn(now + 2 + PENDING_FOR, seqNo, false)
  {
    var once := Step(st, SynOut(now, f, seqNo));
    assert once.pending == map[f := Syn(now, seqNo, false)];
    WaitingIsPart(once.pending, now + 1 + PENDING_FOR);
    assert Step(once, Look(now + 1 + PENDING_FOR)).pending == map[];
  }

  // ---- For arbitrary clock readings: which SYNs are recorded ----

  ghost function StillWaiting(pending: map<Flow, Syn>, now: int): set<Flow> {
    set f | f in pending && now - pending[f].at <= 5_000_000_000
  }

  /** A SYN of a flow that is not waiting is recorded exactly when fewer than 512 flows wait whose own SYN
      is at most five seconds old; expired entries never keep it out. */
  lemma RecordedExactly(tr: seq<Event>, i: nat)
    requires i < |tr| && tr[i].SynOut? && tr[i].flow !in Run(tr[..i]).pending
    ensures Recorded(tr, i) <==> |StillWaiting(Run(tr[..i]).pending, tr[i].now)| < 512
  {
    hide Waiting, Fresh, Least, Run;
    var st := Run(tr[..i]);
    assert tr[..i + 1] == tr[..i] + [tr[i]];
    RunSnoc(tr[..i], tr[i]);
    WaitingIsPart(st.pending, tr[i].now);
    assert Waiting(st.pending, tr[i].now).Keys == StillWaiting(st.pending, tr[i].now);
  }

  // ---- For a clock that does not go back: nothing countable is lost ----

  lemma {:induction false} EntrySurvives(tr: seq<Event>, i: nat, now: int)
    requires i < |tr| && Recorded(tr, i)
    requires UpTo(tr, now) && now - tr[i].now <= PENDING_FOR
    requires Quiet(tr, i + 1, tr[i].flow)
    ensures tr[i].flow in Run(tr).pending && Run(tr).pending[tr[i].flow] == Syn(tr[i].now, tr[i].seqNo, false)
    decreases |tr|
  {
    hide Step;
    var n := |tr| - 1;
    EntryStep(Run(tr[..n]), tr[n], tr[i].flow);
    if i == n {
      assert tr[..i + 1] == tr;
    } else {
      assert tr[..n][..i] == tr[..i] && tr[..n][..i + 1] == tr[..i + 1];
      EntrySurvives(tr[..n], i, now);
      assert !SynOf(tr[n], tr[i].flow) && !AckOf(tr[n], tr[i].flow);
    }
  }

  /** With a clock that does not go back, a SYN-ACK is counted exactly when it pairs with a recorded SYN,
      whatever other flows, looks or pending expiry happened in between. */
  lemma CountedExactly(tr: seq<Event>, e: Event)
    requires e.SynAckIn? && Monotone(tr + [e])
    ensures Accepts(Run(tr), e) <==> exists i | 0 <= i < |tr| :: Recorded(tr, i) && Pairs(tr, i, e)
  {
    hide Step, Run, Recorded;
    MonotoneSnoc(tr, e);
    if Accepts(Run(tr), e) {
      var i := AcceptedPairs(tr, e);
    }
    if i :| 0 <= i < |tr| && Recorded(tr, i) && Pairs(tr, i, e) {
      EntrySurvives(tr, i, e.now);
    }
  }

  // ---- For a clock that does not go back: the window ----

  ghost predicate Sorted(samples: seq<Sample>) {
    forall i, j | 0 <= i <= j < |samples| :: samples[i].at <= samples[j].at
  }

  lemma {:induction false} AcceptedSorted(tr: seq<Event>, now: int)
    requires Monotone(tr) && UpTo(tr, now)
    ensures Sorted(Accepted(tr))
    ensures forall a | a in Accepted(tr) :: a.at <= now
  {
    if tr != [] {
      var n := |tr| - 1;
      AcceptedSorted(tr[..n], if Timed(tr[n]) then tr[n].now else now);
    }
  }

  /** Of samples in time order, expiry drops a prefix. */
  lemma {:induction false} FreshIsSuffix(samples: seq<Sample>, now: int) returns (k: nat)
    requires Sorted(samples)
    ensures k <= |samples| && Fresh(samples, now) == samples[k..]
    ensures forall i | 0 <= i < k :: now - samples[i].at > WINDOW
  {
    hide Fresh, Sorted;
    if samples == [] {
      k := 0;
      FreshNone(samples, now);
    } else if now - samples[|samples| - 1].at > WINDOW {
      k := |samples|;
      NoneFresh(samples, now);
    } else {
      var before := samples[..|samples| - 1];
      PrefixSorted(samples);
      k := FreshIsSuffix(before, now);
      assert before + [samples[|samples| - 1]] == samples;
      OneMoreFresh(before, samples[|samples| - 1], now, k);
      assert forall i | 0 <= i < k :: before[i] == samples[i];
    }
  }

  lemma NoneFresh(samples: seq<Sample>, now: int)
    requires Sorted(samples) && samples != [] && now - samples[|samples| - 1].at > WINDOW
    ensures Fresh(samples, now) == []
    ensures forall i | 0 <= i < |samples| :: now - samples[i].at > WINDOW
  {
    hide Fresh, Sorted;
    AllOlder(samples, now);
    FreshNone(samples, now);
  }

  lemma OneMoreFresh(before: seq<Sample>, s: Sample, now: int, k: nat)
    requires now - s.at <= WINDOW && k <= |before| && Fresh(before, now) == before[k..]
    ensures Fresh(before + [s], now) == (before + [s])[k..]
  {
    assert (before + [s])[..|before|] == before;
  }

  lemma PrefixSorted(samples: seq<Sample>)
    requires Sorted(samples) && samples != []
    ensures Sorted(samples[..|samples| - 1])
  {
  }

  lemma AllOlder(samples: seq<Sample>, now: int)
    requires Sorted(samples) && samples != [] && now - samples[|samples| - 1].at > WINDOW
    ensures forall s | s in samples :: now - s.at > WINDOW
  {
  }

  lemma {:induction false} FreshConcat(a: seq<Sample>, b: seq<Sample>, now: int)
    ensures Fresh(a + b, now) == Fresh(a, now) + Fresh(b, now)
  {
    if b == [] {
      assert a + b == a;
    } else {
      var n := |b| - 1;
      assert (a + b)[..|a| + n] == a + b[..n];
      FreshConcat(a, b[..n], now);
    }
  }

  function OldestKept(accepted: seq<Sample>): nat {
    if |accepted| <= MAX_SAMPLES then 0 else |accepted| - MAX_SAMPLES
  }

  /** The samples are a suffix of what was accepted, and what is missing from the last 256 is too old
      for any later look. */
  ghost predicate Suffix(samples: seq<Sample>, accepted: seq<Sample>, k: nat, now: int) {
    && k <= |accepted| && samples == accepted[k..] && |accepted| - k <= MAX_SAMPLES
    && forall i | OldestKept(accepted) <= i < k :: now - accepted[i].at > WINDOW
  }

  lemma SuffixExpire(samples: seq<Sample>, accepted: seq<Sample>, k: nat, now: int, later: int) returns (k': nat)
    requires Suffix(samples, accepted, k, later) && Sorted(accepted) && now <= later
    ensures Suffix(Fresh(samples, now), accepted, k', later)
  {
    var d := FreshIsSuffix(accepted[k..], now);
    k' := k + d;
    forall i | OldestKept(accepted) <= i < k'
      ensures later - accepted[i].at > WINDOW
    {
      if k <= i {
        assert accepted[k..][i - k] == accepted[i];
      }
    }
  }

  lemma SuffixPush(samples: seq<Sample>, accepted: seq<Sample>, k: nat, x: Sample, later: int) returns (k': nat)
    requires Suffix(samples, accepted, k, later)
    ensures Suffix(DropOldest(samples) + [x], accepted + [x], k', later)
  {
    k' := if |samples| == MAX_SAMPLES then k + 1 else k;
    assert DropOldest(samples) == accepted[k'..];
    assert (accepted + [x])[k'..] == accepted[k'..] + [x];
  }

  predicate Expires(st: State, e: Event) {
    (e.Look? && st.seen) || (e.SynOut? && e.flow !in st.pending && |st.pending| >= MAX_PENDING)
  }

  lemma SamplesStep(st: State, e: Event)
    ensures Step(st, e).samples ==
      if e.Forgot? then []
      else if Accepts(st, e) then DropOldest(st.samples) + [Sample(e.now, e.now - st.pending[e.flow].at)]
      else if Expires(st, e) then Fresh(st.samples, e.now)
      else st.samples
  {
  }

  lemma SuffixStep(st: State, accepted: seq<Sample>, e: Event, k: nat, later: int) returns (k': nat)
    requires Suffix(st.samples, accepted, k, later) && Sorted(accepted) && (Timed(e) ==> e.now <= later)
    ensures Suffix(Step(st, e).samples, Collect(accepted, st, e), k', later)
  {
    hide Step, Suffix, Fresh, Counts, Sorted, DropOldest;
    SamplesStep(st, e);
    if e.Forgot? {
      k' := SuffixOfNone(later);
    } else if Accepts(st, e) {
      k' := SuffixPush(st.samples, accepted, k, Sample(e.now, e.now - st.pending[e.flow].at), later);
    } else if Expires(st, e) {
      k' := SuffixExpire(st.samples, accepted, k, e.now, later);
    } else {
      k' := k;
    }
  }

  lemma SuffixOfNone(later: int) returns (k: nat)
    ensures Suffix([], [], k, later)
  {
    k := 0;
  }

  lemma {:induction false} WindowInvariant(tr: seq<Event>, now: int) returns (k: nat)
    requires Monotone(tr) && UpTo(tr, now)
    ensures Suffix(Run(tr).samples, Accepted(tr), k, now)
  {
    hide Step, Collect;
    if tr == [] {
      k := 0;
    } else {
      var n := |tr| - 1;
      k := WindowInvariant(tr[..n], now);
      AcceptedSorted(tr[..n], now);
      k := SuffixStep(Run(tr[..n]), Accepted(tr[..n]), tr[n], k, now);
    }
  }

  lemma LookExpires(st: State, now: int)
    ensures var after := Step(st, Look(now));
      && after.samples == (if st.seen then Fresh(st.samples, now) else st.samples)
      && after.seen == st.seen
      && (after.seen && after.samples != [] ==> Figure(after) == Some(Least(after.samples)))
  {
  }

  lemma LeftInWindow(tr: seq<Event>, now: int)
    requires Monotone(tr + [Look(now)])
    ensures var after := Run(tr + [Look(now)]);
      && after.samples == Fresh(LastOf(Accepted(tr), 256), now)
      && (after.samples != [] ==> Figure(after) == Some(Least(after.samples)))
  {
    hide Step, Run, Accepted, Figure;
    MonotoneSnoc(tr, Look(now));
    var k := WindowInvariant(tr, now);
    AlwaysWitnessed(tr);
    RunSnoc(tr, Look(now));
    LookExpires(Run(tr), now);
    SuffixIsEnough(Run(tr).samples, Accepted(tr), k, now);
  }

  lemma SuffixSorted(a: seq<Sample>, m: nat)
    requires Sorted(a) && m <= |a|
    ensures Sorted(a[m..])
  {
  }

  /** With a clock that does not go back, the samples left when Latency has expired the rest are exactly those of the
      last 256 accepted since the last Forget that are at most ten seconds old, from the k-th on; and when there is
      any, the figure is the least of them. */
  lemma WindowIsExact(tr: seq<Event>, now: int) returns (k: nat)
    requires Monotone(tr + [Look(now)])
    ensures k <= |Accepted(tr)| <= k + 256 && Run(tr + [Look(now)]).samples == Accepted(tr)[k..]
    ensures forall i | 0 <= i < k && |Accepted(tr)| - 256 <= i :: now - Accepted(tr)[i].at > 10_000_000_000
    ensures forall i | k <= i < |Accepted(tr)| :: now - Accepted(tr)[i].at <= 10_000_000_000
    ensures k < |Accepted(tr)| ==>
      && (exists i :: k <= i < |Accepted(tr)| && Figure(Run(tr + [Look(now)])) == Some(Accepted(tr)[i].rtt))
      && (forall i | k <= i < |Accepted(tr)| :: Figure(Run(tr + [Look(now)])).value <= Accepted(tr)[i].rtt)
  {
    hide Step, Run, Accepted, Figure, Fresh, Least, Monotone;
    LeftInWindow(tr, now);
    MonotoneSnoc(tr, Look(now));
    AcceptedSorted(tr, now);
    var a := Accepted(tr);
    assert LastOf(a, 256) == a[OldestKept(a)..];
    k := FreshFrom(a, OldestKept(a), now);
    if k < |a| {
      var _ := LeastAt(a, k);
    }
  }

  /** Of samples in time order, expiry leaves those from one of them on. */
  lemma FreshFrom(a: seq<Sample>, m: nat, now: int) returns (k: nat)
    requires Sorted(a) && m <= |a|
    ensures m <= k <= |a| && Fresh(a[m..], now) == a[k..]
    ensures forall i | m <= i < k :: now - a[i].at > WINDOW
    ensures forall i | k <= i < |a| :: now - a[i].at <= WINDOW
  {
    hide Fresh, Sorted;
    SuffixSorted(a, m);
    var j := FreshIsSuffix(a[m..], now);
    FreshIsPart(a[m..], now);
    k := m + j;
    assert a[m..][j..] == a[k..];
    forall i | m <= i < k
      ensures now - a[i].at > WINDOW
    {
      assert a[i] == a[m..][i - m];
    }
    forall i | k <= i < |a|
      ensures now - a[i].at <= WINDOW
    {
      assert a[i] == a[k..][i - k];
    }
  }

  lemma LeastAt(a: seq<Sample>, k: nat) returns (i: nat)
    requires k < |a|
    ensures k <= i < |a| && Least(a[k..]) == a[i].rtt
    ensures forall j | k <= j < |a| :: Least(a[k..]) <= a[j].rtt
  {
    hide Least;
    LeastIsMinimum(a[k..]);
    var s :| s in a[k..] && s.rtt == Least(a[k..]);
    var n :| 0 <= n < |a[k..]| && a[k..][n] == s;
    i := k + n;
    assert forall j | k <= j < |a| :: a[k..][j - k] == a[j];
  }

  lemma MonotoneSnoc(tr: seq<Event>, e: Event)
    requires Monotone(tr + [e]) && Timed(e)
    ensures Monotone(tr) && UpTo(tr, e.now)
  {
    var all := tr + [e];
    assert all[|tr|] == e;
    assert forall i | 0 <= i < |tr| :: all[i] == tr[i];
  }

  /** What a suffix leaves out of the last 256, expiry would leave out too. */
  lemma SuffixIsEnough(samples: seq<Sample>, a: seq<Sample>, k: nat, now: int)
    requires Suffix(samples, a, k, now)
    ensures Fresh(samples, now) == Fresh(LastOf(a, 256), now)
  {
    var m := OldestKept(a);
    assert LastOf(a, 256) == a[m..] == a[m..k] + a[k..];
    FreshConcat(a[m..k], a[k..], now);
    FreshNone(a[m..k], now);
  }

  // ---- From packets to samples ----

  lemma AskAndAnswer(tr: seq<Event>, flow: Flow, seqNo: Uint32, t1: int, t2: int)
    requires flow !in Run(tr).pending && |Run(tr).pending| < 512
    requires 0 < t2 - t1 <= 5_000_000_000
    ensures Accepted(tr + [SynOut(t1, flow, seqNo)] + [SynAckIn(t2, flow, (seqNo + 1) % 0x1_0000_0000)])
         == Accepted(tr) + [Sample(t2, t2 - t1)]
  {
    hide Run, Accepted;
    var syn, ack := SynOut(t1, flow, seqNo), SynAckIn(t2, flow, (seqNo + 1) % 0x1_0000_0000);
    AcceptedSnoc(tr, syn);
    RunSnoc(tr, syn);
    AcceptedSnoc(tr + [syn], ack);
  }

  /** A connection is timed: of a flow that is not waiting, with room in the table, a TCP packet out with SYN and
      without ACK, and one back with both, its addresses and ports exchanged and acknowledging the first, within
      five seconds, are one sample, from the one clock reading to the other. */
  lemma ConnectionIsTimed(tr: seq<Event>, out: seq<Byte>, back: seq<Byte>, asked: Segment, answer: Segment,
                          ask: bv8, reply: bv8, t1: int, t2: int)
    requires IsTcp(out, asked) && IsTcp(back, answer)
    requires asked.flags == ask as int && answer.flags == reply as int && ask & 0x12 == 0x02 && reply & 0x12 == 0x12
    requires answer.flow.local == asked.flow.remote && answer.flow.remote == asked.flow.local
    requires answer.flow.localPort == asked.flow.remotePort && answer.flow.remotePort == asked.flow.localPort
    requires answer.ackNo == (asked.seqNo + 1) % 0x1_0000_0000
    requires asked.flow !in Run(tr).pending && |Run(tr).pending| < 512
    requires 0 < t2 - t1 <= 5_000_000_000
    ensures Accepted(tr + [OutEvent(t1, out)] + [InEvent(t2, back)]) == Accepted(tr) + [Sample(t2, t2 - t1)]
  {
    hide ParseTCP, IsTcp, Accepted, Run;
    ReadExactly(out, asked);
    ReadExactly(back, answer);
    FlagMasks(ask);
    FlagMasks(reply);
    AskAndAnswer(tr, asked.flow, asked.seqNo, t1, t2);
  }

  /** The same of the printed packets of either version. */
  lemma PrintedConnectionIsTimed(tr: seq<Event>, flow: Flow, seqNo: Uint32, a: Uint32, b: Uint32, t1: int, t2: int)
    requires (|flow.local| == 4 && |flow.remote| == 4) || (|flow.local| == 16 && |flow.remote| == 16)
    requires flow !in Run(tr).pending && |Run(tr).pending| < 512
    requires 0 < t2 - t1 <= 5_000_000_000
    ensures var there := Flow(flow.remote, flow.local, flow.remotePort, flow.localPort);
      var out := if |flow.local| == 4
                 then PacketBytes(flow, 0x02, seqNo, a, [])
                 else Packet6Bytes(flow, 0x02, seqNo, a);
      var back := if |flow.local| == 4
                  then PacketBytes(there, 0x12, b, (seqNo + 1) % 0x1_0000_0000, [])
                  else Packet6Bytes(there, 0x12, b, (seqNo + 1) % 0x1_0000_0000);
      Accepted(tr + [OutEvent(t1, out)] + [InEvent(t2, back)]) == Accepted(tr) + [Sample(t2, t2 - t1)]
  {
    hide ParseTCP, PacketBytes, Packet6Bytes, Accepted, Run;
    var there := Flow(flow.remote, flow.local, flow.remotePort, flow.localPort);
    var ackNo := (seqNo + 1) % 0x1_0000_0000;
    if |flow.local| == 4 {
      PrintedReads(flow, 0x02, seqNo, a);
      PrintedReads(there, 0x12, b, ackNo);
    } else {
      Packet6RoundTrip(flow, 0x02, seqNo, a);
      Packet6RoundTrip(there, 0x12, b, ackNo);
    }
    AskAndAnswer(tr, flow, seqNo, t1, t2);
  }

  lemma PrintedReads(flow: Flow, flags: Byte, seqNo: Uint32, ackNo: Uint32)
    requires |flow.local| == 4 && |flow.remote| == 4
    ensures ParseTCP(PacketBytes(flow, flags, seqNo, ackNo, [])) == Some(Segment(flow, flags, seqNo, ackNo))
  {
    hide ParseTCP, PacketBytes;
    PacketRoundTrip(flow, flags, seqNo, ackNo, [], []);
    assert PacketBytes(flow, flags, seqNo, ackNo, []) + [] == PacketBytes(flow, flags, seqNo, ackNo, []);
  }

  /** Every other packet leaves the meter as it was: one that is not TCP, */
  lemma OtherProtocolsAreIgnored(st: State, now: int, p: seq<Byte>)
    requires forall s :: !IsTcp(p, s)
    ensures Step(st, OutEvent(now, p)) == st && Step(st, InEvent(now, p)) == st
  {
    hide ParseTCP, IsTcp;
    if ParseTCP(p).Some? {
      ReadExactly(p, ParseTCP(p).value);
    }
  }

  /** one out that is no first SYN, and one in that is no SYN-ACK. */
  lemma OtherFlagsAreIgnored(st: State, now: int, p: seq<Byte>, s: Segment, flags: bv8)
    requires IsTcp(p, s) && s.flags == flags as int
    ensures flags & 0x12 != 0x02 ==> Step(st, OutEvent(now, p)) == st
    ensures flags & 0x12 != 0x12 ==> Step(st, InEvent(now, p)) == st
  {
    hide ParseTCP, IsTcp, IsSyn, IsSynAck;
    ReadExactly(p, s);
    FlagMasks(flags);
  }
}
