/** The recent history kept in memory: a slice shifted, appended to and truncated in place under a lock.
    Each method is one hold of the lock; a line is what was formatted before it. */
module DiagLog {
  import opened Slices

  const CAPACITY: nat := 400

  type Line = string

  datatype Event =
    | Logged(line: Line)
    | Switched(line: Line)
    | Cleared

  /** The slice after one call. Logf makes room only when the slice is exactly full; SetVerbose never does. */
  function Step(lines: seq<Line>, e: Event): seq<Line> {
    match e
    case Logged(line) => (if |lines| == CAPACITY then lines[1..] else lines) + [line]
    case Switched(line) => lines + [line]
    case Cleared => []
  }

  function Run(tr: seq<Event>): seq<Line> {
    if tr == [] then [] else Step(Run(tr[..|tr| - 1]), tr[|tr| - 1])
  }

  lemma RunSnoc(tr: seq<Event>, e: Event)
    ensures Run(tr + [e]) == Step(Run(tr), e)
  {
    assert (tr + [e])[..|tr|] == tr;
  }

  // ---- Reading a trace ----

  /** Every line recorded since the last Clear. */
  function Recorded(tr: seq<Event>): seq<Line> {
    if tr == [] then []
    else
      match tr[|tr| - 1]
      case Logged(line) => Recorded(tr[..|tr| - 1]) + [line]
      case Switched(line) => Recorded(tr[..|tr| - 1]) + [line]
      case Cleared => []
  }

  /** Since the last Clear, verbose logging was switched with at least 400 lines already recorded. */
  predicate Overran(tr: seq<Event>) {
    tr != [] &&
    var n := |tr| - 1;
    !tr[n].Cleared? && (Overran(tr[..n]) || (tr[n].Switched? && |Recorded(tr[..n])| >= 400))
  }

  ghost predicate Suffix(a: seq<Line>, b: seq<Line>) {
    |a| <= |b| && a == b[|b| - |a|..]
  }

  /** Whatever was called, the log is the end of what was recorded since the last Clear, with nothing
      missing in between; and while nothing overran, it is the last 400 lines of it. */
  lemma {:induction false} LogIsASuffix(tr: seq<Event>)
    ensures Suffix(Run(tr), Recorded(tr))
    ensures !Overran(tr) ==> Run(tr) == LastOf(Recorded(tr), 400)
    ensures Overran(tr) ==> |Run(tr)| > 400
  {
    if tr != [] {
      LogIsASuffix(tr[..|tr| - 1]);
      StepKeepsSuffix(Run(tr[..|tr| - 1]), Recorded(tr[..|tr| - 1]), tr[|tr| - 1]);
    }
  }

  lemma StepKeepsSuffix(lines: seq<Line>, recorded: seq<Line>, e: Event)
    requires Suffix(lines, recorded)
    ensures !e.Cleared? ==> Suffix(Step(lines, e), recorded + [e.line])
    ensures e.Logged? && lines == LastOf(recorded, CAPACITY) ==> Step(lines, e) == LastOf(recorded + [e.line], CAPACITY)
  {
    if !e.Cleared? {
      var longer := recorded + [e.line];
      var k := |longer| - |Step(lines, e)|;
      assert longer[k..] == recorded[k..] + [e.line];
    }
  }

  /** The bound holds exactly as long as verbose logging was not switched on a full log since the last
      Clear: from then until the next Clear, the log only grows. */
  lemma ExactlyTheLastFourHundred(tr: seq<Event>)
    ensures Run(tr) == LastOf(Recorded(tr), 400) <==> !Overran(tr)
  {
    LogIsASuffix(tr);
  }

  lemma OverrunGrows(tr: seq<Event>, e: Event)
    requires Overran(tr) && !e.Cleared?
    ensures |Run(tr + [e])| == |Run(tr)| + 1 && Overran(tr + [e])
  {
    LogIsASuffix(tr);
    assert (tr + [e])[..|tr|] == tr;
  }

  lemma {:induction false} Filled(n: nat) returns (tr: seq<Event>)
    ensures |Recorded(tr)| == n && !Overran(tr)
  {
    tr := [];
    if n > 0 {
      var before := Filled(n - 1);
      tr := before + [Logged("a line")];
      assert tr[..|tr| - 1] == before;
    }
  }

  lemma SwitchedWhenFull(full: seq<Event>, line: Line)
    requires |Recorded(full)| == 400 && !Overran(full)
    ensures var tr := full + [Switched(line)]; Overran(tr) && |Run(tr)| == 401 && |Recorded(tr)| == 401
  {
    var tr := full + [Switched(line)];
    assert tr[..|tr| - 1] == full;
    LogIsASuffix(full);
  }

  /** It comes to that: 400 lines, and verbose logging switched on. */
  lemma OverrunHappens() returns (tr: seq<Event>)
    ensures Overran(tr) && |Run(tr)| == 401 && |Recorded(tr)| == 401
  {
    var full := Filled(400);
    SwitchedWhenFull(full, "verbose logging on");
    tr := full + [Switched("verbose logging on")];
  }

  // ---- As the program runs it ----

  class Log {
    // The lines are the first `len` of the slice's storage.
    var store: array<Line>
    var len: nat
    var verbose: bool
    ghost var history: seq<Event>

    ghost predicate Valid()
      reads this, store
    {
      len <= store.Length && store[..len] == Run(history)
    }

    constructor ()
      ensures Valid() && fresh(store) && history == []
    {
      store := new Line[CAPACITY](_ => "");
      len, verbose, history := 0, false, [];
    }

    method Logf(line: Line)
      requires Valid()
      modifies this, store
      ensures Valid() && (store == old(store) || fresh(store)) && verbose == old(verbose)
      ensures history == old(history) + [Logged(line)]
    {
      hide Run;
      RunSnoc(history, Logged(line));
      if len == CAPACITY {
        DropFirst(store, len);
        len := len - 1;
      }
      store := Append(store, len, line);
      len := len + 1;
      history := history + [Logged(line)];
    }

    method Verbosef(line: Line)
      requires Valid()
      modifies this, store
      ensures Valid() && (store == old(store) || fresh(store)) && verbose == old(verbose)
      ensures history == old(history) + if verbose then [Logged(line)] else []
    {
      if verbose {
        Logf(line);
      }
    }

    method SetVerbose(on: bool, line: Line)
      requires Valid()
      modifies this, store
      ensures Valid() && (store == old(store) || fresh(store)) && verbose == on
      ensures history == old(history) + [Switched(line)]
    {
      hide Run;
      RunSnoc(history, Switched(line));
      verbose := on;
      store := Append(store, len, line);
      len := len + 1;
      history := history + [Switched(line)];
    }

    method Lines() returns (copy: seq<Line>)
      requires Valid()
      ensures copy == Run(history)
    {
      copy := store[..len];
    }

    method Clear()
      requires Valid()
      modifies this
      ensures Valid() && store == old(store) && verbose == old(verbose)
      ensures history == old(history) + [Cleared]
    {
      hide Run;
      RunSnoc(history, Cleared);
      len := 0;
      history := history + [Cleared];
    }
  }
}
