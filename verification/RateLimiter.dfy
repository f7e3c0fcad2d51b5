/** The file server's per-address sliding-window rate limiter. */
module RateLimiting {
  import opened Types

  type Ip = nat

  /** Instant subtraction saturates at zero. */
  function DurationSince(now: Time, earlier: Time): nat {
    if now >= earlier then now - earlier else 0
  }

  /** Vec::retain: the stamps still inside the window. */
  function Live(stamps: seq<Time>, now: Time, window: nat): seq<Time> {
    if stamps == [] then []
    else
      var last := stamps[|stamps| - 1];
      Live(stamps[..|stamps| - 1], now, window) + if DurationSince(now, last) < window then [last] else []
  }

  lemma LiveSnoc(stamps: seq<Time>, t: Time, now: Time, window: nat)
    ensures Live(stamps + [t], now, window) ==
            Live(stamps, now, window) + if DurationSince(now, t) < window then [t] else []
  {
    assert (stamps + [t])[..|stamps|] == stamps;
  }

  /** A stamp is kept while less than the window has passed, and the clock may seem to run back. */
  lemma {:induction false} LiveKeeps(stamps: seq<Time>, now: Time, window: nat, t: Time)
    ensures t in Live(stamps, now, window) <==> t in stamps && window > 0 && now - t < window
  {
    if stamps != [] {
      LiveKeeps(stamps[..|stamps| - 1], now, window, t);
    }
  }

  /** What has expired once stays expired. */
  lemma {:induction false} LiveOfLive(stamps: seq<Time>, before: Time, now: Time, window: nat)
    requires before <= now
    ensures Live(Live(stamps, before, window), now, window) == Live(stamps, now, window)
  {
    if stamps != [] {
      var front := stamps[..|stamps| - 1];
      var last := stamps[|stamps| - 1];
      LiveOfLive(front, before, now, window);
      if DurationSince(before, last) < window {
        LiveSnoc(Live(front, before, window), last, now, window);
      } else {
        assert Live(stamps, before, window) == Live(front, before, window);
      }
    }
  }

  type Requests = map<Ip, seq<Time>>

  function StampsOf(requests: Requests, ip: Ip): seq<Time> {
    if ip in requests then requests[ip] else []
  }

  /** Drops expired stamps, then addresses with none left. */
  function Cleaned(requests: Requests, now: Time, window: nat): Requests {
    map ip | ip in requests && Live(requests[ip], now, window) != [] :: Live(requests[ip], now, window)
  }

  function Ask(requests: Requests, ip: Ip, now: Time, window: nat, max: nat): (Requests, bool) {
    var stamps := Live(StampsOf(requests, ip), now, window);
    if |stamps| >= max then (requests[ip := stamps], false) else (requests[ip := stamps + [now]], true)
  }

  /** HashMap::retain, under way: the addresses still to be visited are as they were. */
  predicate Retained(before: Requests, after: Requests, rest: set<Ip>, now: Time, window: nat) {
    && (forall ip <- before :: ip in after <==> ip in rest || Live(before[ip], now, window) != [])
    && (forall ip <- after ::
          ip in before && after[ip] == if ip in rest then before[ip] else Live(before[ip], now, window))
  }

  /** An address survives with the stamps that are live, if there are any. */
  lemma CleanedHolds(requests: Requests, ip: Ip, now: Time, window: nat, t: Time)
    ensures t in StampsOf(Cleaned(requests, now, window), ip) <==>
            t in StampsOf(requests, ip) && window > 0 && now - t < window
    ensures ip in Cleaned(requests, now, window) ==> StampsOf(Cleaned(requests, now, window), ip) != []
  {
    LiveKeeps(StampsOf(requests, ip), now, window, t);
  }

  lemma CleanedAnswersAlike(requests: Requests, ip: Ip, now: Time, later: Time, window: nat, max: nat)
    requires now <= later
    ensures Ask(Cleaned(requests, now, window), ip, later, window, max).1 == Ask(requests, ip, later, window, max).1
  {
    LiveOfLive(StampsOf(requests, ip), now, later, window);
    assert StampsOf(Cleaned(requests, now, window), ip) == Live(StampsOf(requests, ip), now, window);
  }

  class RateLimiter {
    const windowSecs: nat
    const maxRequests: nat
    var requests: Requests

    constructor (windowSecs: nat, maxRequests: nat)
      ensures this.windowSecs == windowSecs && this.maxRequests == maxRequests && requests == map[]
    {
      this.windowSecs, this.maxRequests := windowSecs, maxRequests;
      requests := map[];
    }

    method IsAllowed(ip: Ip, now: Time) returns (allowed: bool)
      modifies this
      ensures (requests, allowed) == Ask(old(requests), ip, now, windowSecs * NANOS_PER_SECOND, maxRequests)
    {
      var window := windowSecs * NANOS_PER_SECOND;
      var stamps := Live(StampsOf(requests, ip), now, window);
      requests := requests[ip := stamps];
      if |stamps| >= maxRequests {
        return false;
      }
      requests := requests[ip := stamps + [now]];
      assert requests == old(requests)[ip := stamps + [now]];
      allowed := true;
    }

    /** Leaves the addresses with live stamps, and every later answer as it would have been. */
    method Cleanup(now: Time)
      modifies this
      ensures requests == Cleaned(old(requests), now, windowSecs * NANOS_PER_SECOND)
      ensures forall ip: Ip, later: Time | now <= later ::
                Ask(requests, ip, later, windowSecs * NANOS_PER_SECOND, maxRequests).1 ==
                Ask(old(requests), ip, later, windowSecs * NANOS_PER_SECOND, maxRequests).1
    {
      var window := windowSecs * NANOS_PER_SECOND;
      ghost var before := requests;
      var rest := requests.Keys;
      while rest != {}
        invariant rest <= requests.Keys
        invariant Retained(before, requests, rest, now, window)
        decreases |rest|
      {
        var ip :| ip in rest;
        rest := rest - {ip};
        var stamps := Live(requests[ip], now, window);
        requests := if stamps == [] then requests - {ip} else requests[ip := stamps];
      }
      forall ip: Ip, later: Time | now <= later
        ensures Ask(requests, ip, later, window, maxRequests).1 == Ask(before, ip, later, window, maxRequests).1
      {
        CleanedAnswersAlike(before, ip, now, later, window, maxRequests);
      }
    }
  }

  // ---------- runs ----------

  datatype Event =
    | Request(ip: Ip, at: Time)
    | Clean(at: Time)

  /** The clock never goes back. */
  predicate Ordered(es: seq<Event>) {
    forall i, j | 0 <= i <= j < |es| :: es[i].at <= es[j].at
  }

  datatype Answer = Answer(ip: Ip, at: Time, allowed: bool)

  /** The limiter's table and its answers so far. */
  datatype Limiter = Limiter(requests: Requests, answers: seq<Answer>)

  function Step(s: Limiter, e: Event, window: nat, max: nat): Limiter {
    match e
    case Request(ip, at) =>
      var (requests, allowed) := Ask(s.requests, ip, at, window, max);
      Limiter(requests, s.answers + [Answer(ip, at, allowed)])
    case Clean(at) => s.(requests := Cleaned(s.requests, at, window))
  }

  function Run(es: seq<Event>, window: nat, max: nat): Limiter {
    if es == [] then Limiter(map[], [])
    else Step(Run(es[..|es| - 1], window, max), es[|es| - 1], window, max)
  }

  // ---------- what is wanted ----------

  /** The full admission history of an address: nothing is ever dropped from it. */
  function Admitted(answers: seq<Answer>, ip: Ip): seq<Time> {
    if answers == [] then []
    else
      var last := answers[|answers| - 1];
      Admitted(answers[..|answers| - 1], ip) + if last.ip == ip && last.allowed then [last.at] else []
  }

  predicate Full(admitted: seq<Time>, now: Time, window: nat, max: nat) {
    |Live(admitted, now, window)| >= max
  }

  /** Each request was allowed exactly when the full history of its address left room. */
  predicate Justified(answers: seq<Answer>, window: nat, max: nat) {
    answers != [] ==>
      var before := answers[..|answers| - 1];
      var last := answers[|answers| - 1];
      && Justified(before, window, max)
      && (last.allowed <==> !Full(Admitted(before, last.ip), last.at, window, max))
  }

  lemma AdmittedSnoc(answers: seq<Answer>, last: Answer, ip: Ip)
    ensures Admitted(answers + [last], ip) ==
            Admitted(answers, ip) + if last.ip == ip && last.allowed then [last.at] else []
  {
    assert (answers + [last])[..|answers|] == answers;
  }

  /** From now on the pruned table reads as the full history does. */
  ghost predicate Prunes(s: Limiter, since: Time, window: nat) {
    forall ip: Ip, now: Time | since <= now ::
      Live(StampsOf(s.requests, ip), now, window) == Live(Admitted(s.answers, ip), now, window)
  }

  /** Pruning before a stamp is added makes no later difference. */
  lemma PrunedThenStamped(stamps: seq<Time>, history: seq<Time>, at: Time, now: Time, window: nat)
    requires at <= now && Live(stamps, now, window) == Live(history, now, window)
    ensures Live(Live(stamps, at, window), now, window) == Live(history, now, window)
    ensures Live(Live(stamps, at, window) + [at], now, window) == Live(history + [at], now, window)
  {
    LiveOfLive(stamps, at, now, window);
    LiveSnoc(Live(stamps, at, window), at, now, window);
    LiveSnoc(history, at, now, window);
  }

  lemma RequestPrunesOn(s: Limiter, e: Event, window: nat, max: nat, ip: Ip, now: Time)
    requires e.Request? && e.at <= now
    requires Live(StampsOf(s.requests, ip), now, window) == Live(Admitted(s.answers, ip), now, window)
    ensures var s' := Step(s, e, window, max);
            Live(StampsOf(s'.requests, ip), now, window) == Live(Admitted(s'.answers, ip), now, window)
  {
    var allowed := |Live(StampsOf(s.requests, e.ip), e.at, window)| < max;
    AdmittedSnoc(s.answers, Answer(e.ip, e.at, allowed), ip);
    assert Admitted(s.answers, ip) + [] == Admitted(s.answers, ip);
    if e.ip == ip {
      PrunedThenStamped(StampsOf(s.requests, ip), Admitted(s.answers, ip), e.at, now, window);
    }
  }

  lemma StepPrunes(s: Limiter, since: Time, e: Event, window: nat, max: nat)
    requires Prunes(s, since, window) && Justified(s.answers, window, max) && since <= e.at
    ensures Prunes(Step(s, e, window, max), e.at, window)
    ensures Justified(Step(s, e, window, max).answers, window, max)
  {
    var s' := Step(s, e, window, max);
    forall ip: Ip, now: Time | e.at <= now
      ensures Live(StampsOf(s'.requests, ip), now, window) == Live(Admitted(s'.answers, ip), now, window)
    {
      if e.Request? {
        RequestPrunesOn(s, e, window, max, ip, now);
      } else {
        LiveOfLive(StampsOf(s.requests, ip), e.at, now, window);
      }
    }
    if e.Request? {
      assert s'.answers[..|s.answers|] == s.answers;
    }
  }

  lemma {:induction false} RunPrunes(es: seq<Event>, window: nat, max: nat)
    requires Ordered(es)
    ensures Justified(Run(es, window, max).answers, window, max)
    ensures forall since: Time | es != [] ==> es[|es| - 1].at <= since :: Prunes(Run(es, window, max), since, window)
  {
    if es != [] {
      var front := es[..|es| - 1];
      RunPrunes(front, window, max);
      StepPrunes(Run(front, window, max), es[|es| - 1].at, es[|es| - 1], window, max);
    }
  }

  lemma {:induction false} JustifiedPrefix(answers: seq<Answer>, window: nat, max: nat, n: nat)
    requires Justified(answers, window, max) && n <= |answers|
    ensures Justified(answers[..n], window, max)
    decreases |answers|
  {
    if n == |answers| {
      assert answers[..n] == answers;
    } else {
      JustifiedPrefix(answers[..|answers| - 1], window, max, n);
      assert answers[..|answers| - 1][..n] == answers[..n];
    }
  }

  /**
   * Whatever the pruning and cleanup, a request is refused exactly when the requests of its
   * address admitted so far already number max within the window.
   */
  lemma RefusedIffHistoryIsFull(es: seq<Event>, window: nat, max: nat, k: nat)
    requires Ordered(es) && k < |Run(es, window, max).answers|
    ensures var answers := Run(es, window, max).answers;
            !answers[k].allowed <==> |Live(Admitted(answers[..k], answers[k].ip), answers[k].at, window)| >= max
  {
    var answers := Run(es, window, max).answers;
    RunPrunes(es, window, max);
    JustifiedPrefix(answers, window, max, k + 1);
    assert answers[..k + 1][..k] == answers[..k];
  }

  // ---------- the bound ----------

  /** How many stamps fall in the half-open interval [from, from + window). */
  function CountIn(stamps: seq<Time>, from: Time, window: nat): nat {
    if stamps == [] then 0
    else CountIn(stamps[..|stamps| - 1], from, window)
         + if from <= stamps[|stamps| - 1] < from + window then 1 else 0
  }

  lemma {:induction false} LiveCountsInterval(stamps: seq<Time>, from: Time, now: Time, window: nat)
    requires from <= now < from + window
    ensures CountIn(stamps, from, window) <= |Live(stamps, now, window)|
  {
    if stamps != [] {
      LiveCountsInterval(stamps[..|stamps| - 1], from, now, window);
    }
  }

  /** Of stamps that are not in the future, those are live that lie within the last window. */
  lemma {:induction false} LiveIsLastWindow(stamps: seq<Time>, now: Time, window: nat)
    requires forall i | 0 <= i < |stamps| :: stamps[i] <= now
    ensures |Live(stamps, now, window)| == CountIn(stamps, now - window + 1, window)
  {
    if stamps != [] {
      LiveIsLastWindow(stamps[..|stamps| - 1], now, window);
    }
  }

  predicate Past(answers: seq<Answer>, now: Time) {
    forall i | 0 <= i < |answers| :: answers[i].at <= now
  }

  lemma {:induction false} RunIsPast(es: seq<Event>, window: nat, max: nat, now: Time)
    requires Ordered(es) && (es != [] ==> es[|es| - 1].at <= now)
    ensures Past(Run(es, window, max).answers, now)
  {
    if es != [] {
      RunIsPast(es[..|es| - 1], window, max, now);
    }
  }

  /** No answer was given after a later one. */
  lemma {:induction false} EarlierIsPast(es: seq<Event>, window: nat, max: nat, k: nat)
    requires Ordered(es) && k < |Run(es, window, max).answers|
    ensures var answers := Run(es, window, max).answers; Past(answers[..k], answers[k].at)
  {
    var front, last := es[..|es| - 1], es[|es| - 1];
    var answers, before := Run(es, window, max).answers, Run(front, window, max).answers;
    if k < |before| {
      EarlierIsPast(front, window, max, k);
      assert answers[..k] == before[..k] && answers[k] == before[k];
    } else {
      RunIsPast(front, window, max, last.at);
      assert answers[..k] == before;
    }
  }

  lemma {:induction false} AdmittedArePast(answers: seq<Answer>, ip: Ip, now: Time)
    requires Past(answers, now)
    ensures forall i | 0 <= i < |Admitted(answers, ip)| :: Admitted(answers, ip)[i] <= now
  {
    if answers != [] {
      AdmittedArePast(answers[..|answers| - 1], ip, now);
    }
  }

  lemma HistoryIsLastWindow(answers: seq<Answer>, ip: Ip, now: Time, window: nat)
    requires Past(answers, now)
    ensures |Live(Admitted(answers, ip), now, window)| == CountIn(Admitted(answers, ip), now - window + 1, window)
  {
    AdmittedArePast(answers, ip, now);
    LiveIsLastWindow(Admitted(answers, ip), now, window);
  }

  /**
   * In times alone: a request is refused exactly when its address already has max admissions
   * later than one window ago and not later than now.
   */
  lemma RefusedIffLastWindowIsFull(es: seq<Event>, window: nat, max: nat, k: nat)
    requires Ordered(es) && k < |Run(es, window, max).answers|
    ensures var answers := Run(es, window, max).answers;
            var (ip, at) := (answers[k].ip, answers[k].at);
            !answers[k].allowed <==> CountIn(Admitted(answers[..k], ip), at - window + 1, window) >= max
  {
    var answers := Run(es, window, max).answers;
    RefusedIffHistoryIsFull(es, window, max, k);
    EarlierIsPast(es, window, max, k);
    HistoryIsLastWindow(answers[..k], answers[k].ip, answers[k].at, window);
  }

  lemma {:induction false} JustifiedIsBounded(answers: seq<Answer>, window: nat, max: nat, ip: Ip, from: Time)
    requires Justified(answers, window, max)
    ensures CountIn(Admitted(answers, ip), from, window) <= max
    decreases |answers|
  {
    if answers != [] {
      var before := answers[..|answers| - 1];
      var last := answers[|answers| - 1];
      JustifiedIsBounded(before, window, max, ip, from);
      if last.ip == ip && last.allowed {
        var history := Admitted(before, ip);
        assert (history + [last.at])[..|history|] == history;
        if from <= last.at < from + window {
          LiveCountsInterval(history, from, last.at, window);
        }
      } else {
        assert Admitted(answers, ip) == Admitted(before, ip);
      }
    }
  }

  /** Any half-open interval one window long holds at most max admissions of an address. */
  lemma AdmissionsAreBounded(es: seq<Event>, window: nat, max: nat, ip: Ip, from: Time)
    requires Ordered(es)
    ensures CountIn(Admitted(Run(es, window, max).answers, ip), from, window) <= max
  {
    RunPrunes(es, window, max);
    JustifiedIsBounded(Run(es, window, max).answers, window, max, ip, from);
  }

  // ---------- cleanup ----------

  /** The requests of a run, without the cleanups between them. */
  function Asked(es: seq<Event>): seq<(Ip, Time)> {
    if es == [] then []
    else
      var last := es[|es| - 1];
      Asked(es[..|es| - 1]) + if last.Request? then [(last.ip, last.at)] else []
  }

  function Questions(answers: seq<Answer>): seq<(Ip, Time)> {
    seq(|answers|, i requires 0 <= i < |answers| => (answers[i].ip, answers[i].at))
  }

  lemma {:induction false} AllAreAnswered(es: seq<Event>, window: nat, max: nat)
    ensures Questions(Run(es, window, max).answers) == Asked(es)
  {
    if es != [] {
      AllAreAnswered(es[..|es| - 1], window, max);
    }
  }

  /** The questions and the rule leave only one list of answers. */
  lemma {:induction false} JustifiedIsUnique(a: seq<Answer>, b: seq<Answer>, window: nat, max: nat)
    requires Justified(a, window, max) && Justified(b, window, max) && Questions(a) == Questions(b)
    ensures a == b
    decreases |a|
  {
    assert |a| == |Questions(a)| == |Questions(b)| == |b|;
    if a != [] {
      var n := |a| - 1;
      assert Questions(a)[n] == Questions(b)[n];
      assert Questions(a[..n]) == Questions(a)[..n] == Questions(b)[..n] == Questions(b[..n]);
      JustifiedIsUnique(a[..n], b[..n], window, max);
      assert a == a[..n] + [a[n]] && b == b[..n] + [b[n]];
    }
  }

  /** Runs with the same requests get the same answers, however many cleanups each has where. */
  lemma CleanupIsInvisible(es: seq<Event>, others: seq<Event>, window: nat, max: nat)
    requires Ordered(es) && Ordered(others) && Asked(es) == Asked(others)
    ensures Run(es, window, max).answers == Run(others, window, max).answers
  {
    RunPrunes(es, window, max);
    RunPrunes(others, window, max);
    AllAreAnswered(es, window, max);
    AllAreAnswered(others, window, max);
    JustifiedIsUnique(Run(es, window, max).answers, Run(others, window, max).answers, window, max);
  }
}
