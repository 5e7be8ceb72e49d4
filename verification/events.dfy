/** The observable lifecycle of one upload: resources acquired and released,
    and messages delivered to the log listener, in the order they happen. */
module Events {

  /** The `java.util.logging.Level` the transfer logs at (it never uses
      the FINE default of the one-argument `log`). */
  datatype Level = Info

  /** The log listener a message holds: the silent default, or one the
      caller configured (identified by name). */
  datatype Listener = NoOpListener | UserListener(name: string)

  datatype Event =
    | SessionOpened
    | ChannelOpened(command: string)
    | ChannelConnected
    | FileOpened
    | Logged(listener: Listener, level: Level, message: string)
    | StatsLogged(listener: Listener, totalLength: nat)
    | FileClosed
    | ChannelDisconnected
    | SessionDisconnected

  /** How many times `e` occurs in `trace`. */
  function Occurrences(trace: seq<Event>, e: Event): nat {
    if |trace| == 0 then 0
    else (if trace[0] == e then 1 else 0) + Occurrences(trace[1..], e)
  }

  /** Counting is additive over concatenation. */
  lemma {:induction false} OccurrencesConcat(a: seq<Event>, b: seq<Event>, e: Event)
    ensures Occurrences(a + b, e) == Occurrences(a, e) + Occurrences(b, e)
  {
    if |a| > 0 {
      assert (a + b)[1..] == a[1..] + b;
      OccurrencesConcat(a[1..], b, e);
    } else {
      assert a + b == b;
    }
  }

  /** Counting over three consecutive parts. */
  lemma OccurrencesOfThree(a: seq<Event>, b: seq<Event>, c: seq<Event>, e: Event)
    ensures Occurrences(a + b + c, e) == Occurrences(a, e) + Occurrences(b, e) + Occurrences(c, e)
  {
    OccurrencesConcat(a + b, c, e);
    OccurrencesConcat(a, b, e);
  }

  lemma OccurrencesSingleton(x: Event, e: Event)
    ensures Occurrences([x], e) == if x == e then 1 else 0
  {
    assert [x][1..] == [];
  }

  /** An event that does not occur is counted zero times (and conversely). */
  lemma {:induction false} OccurrencesAbsent(t: seq<Event>, e: Event)
    ensures Occurrences(t, e) == 0 <==> e !in t
  {
    if |t| > 0 {
      OccurrencesAbsent(t[1..], e);
      assert t == [t[0]] + t[1..];
    }
  }

  /** Some occurrence of `a` precedes some occurrence of `b`. */
  predicate Before(trace: seq<Event>, a: Event, b: Event) {
    exists i, j :: 0 <= i < j < |trace| && trace[i] == a && trace[j] == b
  }

  /** The listener a log event was delivered to, if it is one. */
  predicate DeliveredTo(e: Event, l: Listener) {
    match e
    case Logged(to, _, _) => to == l
    case StatsLogged(to, _) => to == l
    case _ => true
  }

  /** Every log event of `trace` went to `l`. */
  predicate AllLogsTo(trace: seq<Event>, l: Listener) {
    |trace| == 0 || (DeliveredTo(trace[0], l) && AllLogsTo(trace[1..], l))
  }

  /** `e` is no log output. */
  predicate Quiet(e: Event) {
    !e.Logged? && !e.StatsLogged?
  }

  /** `trace` holds no log output at all. */
  predicate Silent(trace: seq<Event>) {
    |trace| == 0 || (Quiet(trace[0]) && Silent(trace[1..]))
  }

  /** The two log properties say the same of every position of the trace. */
  lemma {:induction false} LogsAtEachPosition(trace: seq<Event>, l: Listener)
    ensures AllLogsTo(trace, l) <==> forall i :: 0 <= i < |trace| ==> DeliveredTo(trace[i], l)
    ensures Silent(trace) <==> forall i :: 0 <= i < |trace| ==> Quiet(trace[i])
  {
    if |trace| > 0 {
      LogsAtEachPosition(trace[1..], l);
      assert forall i :: 1 <= i < |trace| ==> trace[i] == trace[1..][i - 1];
    }
  }

  /** Both log properties hold of a concatenation exactly when they hold of
      its parts. */
  lemma {:induction false} LogsConcat(a: seq<Event>, b: seq<Event>, l: Listener)
    ensures AllLogsTo(a + b, l) <==> AllLogsTo(a, l) && AllLogsTo(b, l)
    ensures Silent(a + b) <==> Silent(a) && Silent(b)
  {
    if |a| > 0 {
      assert (a + b)[1..] == a[1..] + b;
      LogsConcat(a[1..], b, l);
    } else {
      assert a + b == b;
    }
  }
}
