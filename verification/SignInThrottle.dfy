// The sign-in throttle of manager/auth.py: a dictionary of recent failures per
// address, against everything that happened to the address.
module SignInThrottle {
  import opened Text

  const MAX_FAILURES := 5
  const LOCK_SECONDS := 60.0

  // --------------------------------------------------------------- histories

  // Times are seconds of a clock that never goes back.
  datatype Event =
    | Failed(ip: string, at: real)
    | SignedIn(ip: string)
    | Asked(ip: string, at: real)

  // When the address failed since it last signed in.
  function Failures(h: seq<Event>, ip: string): seq<real> {
    if h == [] then []
    else
      var before, e := Failures(h[..|h| - 1], ip), h[|h| - 1];
      if e.ip != ip then before
      else match e
        case Failed(_, at) => before + [at]
        case SignedIn(_) => []
        case Asked(_, _) => before
  }

  // How many failures at the end follow one another by less than the lock time.
  function RunLength(times: seq<real>): nat {
    if |times| < 2 then |times|
    else if times[|times| - 1] - times[|times| - 2] < LOCK_SECONDS then RunLength(times[..|times| - 1]) + 1
    else 1
  }

  // The address is locked out.
  ghost predicate LockedOut(h: seq<Event>, ip: string, now: real) {
    var times := Failures(h, ip);
    RunLength(times) >= MAX_FAILURES && now - times[|times| - 1] < LOCK_SECONDS
  }

  // Five failures, each within a minute of the one before, lock an address out
  // for a minute after the last one; four do not.
  lemma {:induction false} LocksForAMinute(h: seq<Event>, ip: string, times: seq<real>, now: real)
    requires times == Failures(h, ip) && |times| >= 5
    requires forall i :: |times| - 4 <= i < |times| ==> times[i] - times[i - 1] < 60.0
    ensures LockedOut(h, ip, now) <==> now < times[|times| - 1] + 60.0
  {
    var n := |times|;
    assert times[..n - 1][..n - 2] == times[..n - 2];
    assert times[..n - 2][..n - 3] == times[..n - 3];
    assert times[..n - 3][..n - 4] == times[..n - 4];
    assert RunLength(times[..n - 3]) == RunLength(times[..n - 4]) + 1;
    assert RunLength(times[..n - 2]) == RunLength(times[..n - 3]) + 1;
    assert RunLength(times[..n - 1]) == RunLength(times[..n - 2]) + 1;
    RunPositive(times[..n - 4]);
  }

  lemma FourAreNotEnough(h: seq<Event>, ip: string, times: seq<real>, now: real)
    requires times == Failures(h, ip)
    requires |times| <= 4 || exists i :: |times| - 4 <= i < |times| && times[i] - times[i - 1] >= 60.0
    ensures !LockedOut(h, ip, now)
  {
    if i :| |times| - 4 <= i < |times| && |times| > 4 && times[i] - times[i - 1] >= 60.0 {
      RunStops(times, i);
    } else {
      RunAtMost(times);
    }
  }

  lemma {:induction false} RunAtMost(times: seq<real>)
    ensures RunLength(times) <= |times|
  {
    if |times| >= 2 {
      RunAtMost(times[..|times| - 1]);
    }
  }

  // A pause of a minute begins a new run.
  lemma {:induction false} RunStops(times: seq<real>, i: nat)
    requires 0 < i < |times| && times[i] - times[i - 1] >= 60.0
    ensures RunLength(times) <= |times| - i
  {
    if i < |times| - 1 {
      RunStops(times[..|times| - 1], i);
    }
  }

  lemma FailuresAppend(h: seq<Event>, e: Event, ip: string)
    ensures Failures(h + [e], ip) ==
            if e.ip != ip || e.Asked? then Failures(h, ip)
            else if e.Failed? then Failures(h, ip) + [e.at] else []
  {
    assert (h + [e])[..|h|] == h;
  }

  lemma RunAppend(times: seq<real>, at: real)
    ensures RunLength(times + [at]) ==
            if times != [] && at - times[|times| - 1] < LOCK_SECONDS then RunLength(times) + 1 else 1
  {
    assert (times + [at])[..|times|] == times;
  }

  // Only what an address does itself decides whether it is locked out.
  function Own(h: seq<Event>, ip: string): seq<Event> {
    if h == [] then []
    else Own(h[..|h| - 1], ip) + if h[|h| - 1].ip == ip then [h[|h| - 1]] else []
  }

  lemma {:induction false} OthersDoNotMatter(h: seq<Event>, ip: string)
    ensures Failures(h, ip) == Failures(Own(h, ip), ip)
    decreases |h|
  {
    if h != [] {
      var init, e := h[..|h| - 1], h[|h| - 1];
      OthersDoNotMatter(init, ip);
      FailuresAppend(init, e, ip);
      assert init + [e] == h;
      if e.ip == ip {
        FailuresAppend(Own(init, ip), e, ip);
      } else {
        assert Own(h, ip) == Own(init, ip);
      }
    }
  }

  // -------------------------------------------------------------- the table

  datatype Entry = Entry(count: nat, unlockAt: real)

  type Table = map<string, Entry>

  // The table says of the address what its history says, as long as it matters.
  ghost predicate Tells(t: Table, h: seq<Event>, ip: string, now: real) {
    var times := Failures(h, ip);
    if ip in t then
      times != [] && t[ip] == Entry(RunLength(times), times[|times| - 1] + LOCK_SECONDS)
    else
      times == [] || times[|times| - 1] + LOCK_SECONDS <= now
  }

  function LiveCount(t: Table, ip: string, now: real): nat {
    if ip in t && t[ip].unlockAt > now then t[ip].count else 0
  }

  // One address, from the table before a failure to the table after it.
  lemma FailureTells(t: Table, u: Table, h: seq<Event>, ip: string, other: string, clock: real, now: real)
    requires Tells(t, h, other, clock) && clock <= now
    requires other != ip ==> (other in u <==> other in t && t[other].unlockAt > now)
    requires other != ip && other in u ==> u[other] == t[other]
    requires ip in u && u[ip] == Entry(LiveCount(t, ip, now) + 1, now + LOCK_SECONDS)
    ensures Tells(u, h + [Failed(ip, now)], other, now)
  {
    FailuresAppend(h, Failed(ip, now), other);
    if other == ip {
      RunAppend(Failures(h, ip), now);
    }
  }

  class Throttle {
    var failures: Table
    ghost var history: seq<Event>
    ghost var clock: real

    ghost predicate Valid()
      reads this
    {
      forall ip :: Tells(failures, history, ip, clock)
    }

    constructor (now: real)
      ensures Valid() && history == [] && clock == now && failures == map[]
    {
      failures, history, clock := map[], [], now;
    }

    method LoginThrottled(ip: string, now: real) returns (throttled: bool)
      requires Valid() && clock <= now
      modifies this
      ensures Valid() && clock == now && history == old(history) + [Asked(ip, now)]
      ensures throttled <==> LockedOut(old(history), ip, now)
    {
      ghost var was := failures;
      assert Tells(was, history, ip, clock);
      RunPositive(Failures(history, ip));
      throttled := false;
      if ip in failures {
        var Entry(count, unlockAt) := failures[ip];
        if count >= MAX_FAILURES {
          if now >= unlockAt {
            failures := failures - {ip};
          } else {
            throttled := true;
          }
        }
      }
      forall other
        ensures Tells(failures, history + [Asked(ip, now)], other, now)
      {
        assert Tells(was, history, other, clock);
        FailuresAppend(history, Asked(ip, now), other);
      }
      history, clock := history + [Asked(ip, now)], now;
    }

    // After a failure every entry left is a live one.
    method RecordLoginFailure(ip: string, now: real)
      requires Valid() && clock <= now
      modifies this
      ensures Valid() && clock == now && history == old(history) + [Failed(ip, now)]
      ensures forall k | k in failures :: failures[k].unlockAt > now
      ensures ip in failures && failures[ip].unlockAt == now + LOCK_SECONDS
    {
      ghost var was := failures;
      failures := map k | k in failures && failures[k].unlockAt > now :: failures[k];
      var count := (if ip in failures then failures[ip].count else 0) + 1;
      failures := failures[ip := Entry(count, now + LOCK_SECONDS)];
      forall other
        ensures Tells(failures, history + [Failed(ip, now)], other, now)
      {
        assert Tells(was, history, other, clock);
        FailureTells(was, failures, history, ip, other, clock, now);
      }
      history, clock := history + [Failed(ip, now)], now;
    }

    method ClearLoginFailures(ip: string)
      requires Valid()
      modifies this
      ensures Valid() && clock == old(clock) && history == old(history) + [SignedIn(ip)]
      ensures ip !in failures
    {
      ghost var was := failures;
      failures := failures - {ip};
      forall other
        ensures Tells(failures, history + [SignedIn(ip)], other, clock)
      {
        assert Tells(was, history, other, clock);
        FailuresAppend(history, SignedIn(ip), other);
      }
      history := history + [SignedIn(ip)];
    }
  }

  lemma RunPositive(times: seq<real>)
    ensures times != [] ==> RunLength(times) > 0
  {
  }

  // ------------------------------------------------------------- the sign-in

  // The route asks the throttle, then reads the body and checks the password,
  // and only then records: other attempts come in between. Dropped is one that
  // passed and ends without a verdict (an unexpected content type).
  datatype Move =
    | Arrive(ip: string, at: real)
    | Wrong(ip: string, at: real)
    | Right(ip: string)
    | Dropped(ip: string)

  // What the throttle sees of it.
  function Trace(moves: seq<Move>): seq<Event> {
    if moves == [] then [] else Seen(Trace(moves[..|moves| - 1]), moves[|moves| - 1])
  }

  function Seen(before: seq<Event>, m: Move): seq<Event> {
    match m
    case Arrive(ip, at) => before + [Asked(ip, at)]
    case Wrong(ip, at) => before + [Failed(ip, at)]
    case Right(ip) => before + [SignedIn(ip)]
    case Dropped(_) => before
  }

  // The attempts of an address that passed the check and have no verdict yet.
  ghost function InFlight(moves: seq<Move>, ip: string): int {
    if moves == [] then 0
    else
      var init, m := moves[..|moves| - 1], moves[|moves| - 1];
      InFlight(init, ip) + Passing(Trace(init), m, ip)
  }

  ghost function Passing(seen: seq<Event>, m: Move, ip: string): int {
    if m.ip != ip then 0
    else if !m.Arrive? then -1
    else if LockedOut(seen, ip, m.at) then 0
    else 1
  }

  // The clock, from 0.
  function Now(moves: seq<Move>): real {
    if moves == [] then 0.0 else Clock(Now(moves[..|moves| - 1]), moves[|moves| - 1])
  }

  function Clock(now: real, m: Move): real {
    if m.Arrive? || m.Wrong? then m.at else now
  }

  // What can happen on the route: a verdict ends an attempt that passed, time
  // never goes back, and no address ever has more than c attempts in flight.
  ghost predicate Route(moves: seq<Move>, c: nat) {
    moves == [] ||
    (var init, m := moves[..|moves| - 1], moves[|moves| - 1];
     && Route(init, c) && Now(init) <= Now(moves)
     && (!m.Arrive? ==> InFlight(init, m.ip) > 0)
     && InFlight(moves, m.ip) <= c)
  }

  ghost function Run(moves: seq<Move>, ip: string): nat { RunLength(Failures(Trace(moves), ip)) }

  // The part of the run that still counts at an instant.
  function Live(times: seq<real>, now: real): nat {
    if times == [] || now - times[|times| - 1] >= LOCK_SECONDS then 0 else RunLength(times)
  }

  // The failures that still count and the attempts in flight share one bound.
  ghost predicate Bounded(times: seq<real>, flight: int, now: real, c: nat) {
    && 0 <= flight <= c
    && (times != [] ==> times[|times| - 1] <= now)
    && RunLength(times) <= MAX_FAILURES - 1 + c
    && Live(times, now) + flight <= MAX_FAILURES - 1 + c
  }

  lemma FailureKeepsBound(times: seq<real>, flight: int, now: real, at: real, c: nat)
    requires Bounded(times, flight, now, c) && flight > 0 && now <= at
    ensures Bounded(times + [at], flight - 1, at, c)
  {
    RunAppend(times, at);
  }

  lemma ArrivalKeepsBound(times: seq<real>, flight: int, now: real, at: real, c: nat, locked: bool)
    requires Bounded(times, flight, now, c) && now <= at
    requires locked <==> RunLength(times) >= MAX_FAILURES && at - times[|times| - 1] < LOCK_SECONDS
    requires !locked ==> flight + 1 <= c
    ensures Bounded(times, if locked then flight else flight + 1, at, c)
  {
  }

  lemma {:induction false} RunAndFlight(moves: seq<Move>, c: nat, ip: string)
    requires Route(moves, c)
    ensures Bounded(Failures(Trace(moves), ip), InFlight(moves, ip), Now(moves), c)
    decreases |moves|
  {
    if moves != [] {
      var init, m := moves[..|moves| - 1], moves[|moves| - 1];
      RunAndFlight(init, c, ip);
      MoveKeepsBound(Trace(init), InFlight(init, ip), Now(init), m, c, ip);
    }
  }

  lemma MoveKeepsBound(seen: seq<Event>, flight: int, now: real, m: Move, c: nat, ip: string)
    requires Bounded(Failures(seen, ip), flight, now, c) && now <= Clock(now, m)
    requires m.ip == ip ==> flight + Passing(seen, m, ip) <= c && (!m.Arrive? ==> flight > 0)
    ensures Bounded(Failures(Seen(seen, m), ip), flight + Passing(seen, m, ip), Clock(now, m), c)
  {
    var times := Failures(seen, ip);
    match m {
      case Arrive(_, at) =>
        FailuresAppend(seen, Asked(m.ip, at), ip);
        if m.ip == ip {
          ArrivalKeepsBound(times, flight, now, at, c, LockedOut(seen, ip, at));
        }
      case Wrong(_, at) =>
        FailuresAppend(seen, Failed(m.ip, at), ip);
        if m.ip == ip {
          FailureKeepsBound(times, flight, now, at, c);
        }
      case Right(_) =>
        FailuresAppend(seen, SignedIn(m.ip), ip);
      case Dropped(_) =>
    }
  }

  // The same move k times more.
  function Grown(moves: seq<Move>, m: Move, k: nat): seq<Move>
    decreases k
  {
    if k == 0 then moves else Grown(moves + [m], m, k - 1)
  }

  // n attempts more, one after the other, all failed.
  function GrownAlone(moves: seq<Move>, ip: string, n: nat): seq<Move>
    decreases n
  {
    if n == 0 then moves else GrownAlone(moves + [Arrive(ip, 0.0)] + [Wrong(ip, 0.0)], ip, n - 1)
  }

  // One address fails: `alone` times one attempt after the other, then c
  // attempts pass before the first of them fails, and all of them fail.
  function Storm(ip: string, alone: nat, c: nat): seq<Move> {
    Grown(Grown(GrownAlone([], ip, alone), Arrive(ip, 0.0), c), Wrong(ip, 0.0), c)
  }

  // A run of n failures, the last one at instant 0.
  predicate RunAt0(times: seq<real>, n: nat) {
    RunLength(times) == n && (times != [] ==> times[|times| - 1] == 0.0)
  }

  // After such a run of the address, f attempts of it being in flight.
  ghost predicate At0(moves: seq<Move>, ip: string, c: nat, n: nat, f: int) {
    && Route(moves, c) && Now(moves) == 0.0
    && RunAt0(Failures(Trace(moves), ip), n) && InFlight(moves, ip) == f
  }

  lemma {:induction false} OneArrives(moves: seq<Move>, ip: string, c: nat, n: nat, f: int) returns (more: seq<Move>)
    requires At0(moves, ip, c, n, f) && n < MAX_FAILURES && f < c
    ensures more == moves + [Arrive(ip, 0.0)] && Route(more, c) && Now(more) == 0.0
    ensures RunAt0(Failures(Trace(more), ip), n) && InFlight(more, ip) == f + 1
  {
    more := moves + [Arrive(ip, 0.0)];
    assert more[..|moves|] == moves;
    FailuresAppend(Trace(moves), Asked(ip, 0.0), ip);
  }

  lemma {:induction false} OneFails(moves: seq<Move>, ip: string, c: nat, n: nat, f: int) returns (more: seq<Move>)
    requires At0(moves, ip, c, n, f) && 0 < f <= c
    ensures more == moves + [Wrong(ip, 0.0)] && Route(more, c) && Now(more) == 0.0
    ensures RunAt0(Failures(Trace(more), ip), n + 1) && InFlight(more, ip) == f - 1
  {
    more := moves + [Wrong(ip, 0.0)];
    assert more[..|moves|] == moves;
    FailuresAppend(Trace(moves), Failed(ip, 0.0), ip);
    RunAppend(Failures(Trace(moves), ip), 0.0);
  }

  lemma {:induction false} AllArrive(moves: seq<Move>, ip: string, c: nat, n: nat, f: nat, k: nat)
    requires At0(moves, ip, c, n, f) && n < MAX_FAILURES && f + k <= c
    ensures At0(Grown(moves, Arrive(ip, 0.0), k), ip, c, n, f + k)
    decreases k
  {
    if k > 0 {
      var more := OneArrives(moves, ip, c, n, f);
      AllArrive(more, ip, c, n, f + 1, k - 1);
    }
  }

  lemma {:induction false} AllFail(moves: seq<Move>, ip: string, c: nat, n: nat, f: nat, k: nat)
    requires At0(moves, ip, c, n, f) && k <= f <= c
    ensures At0(Grown(moves, Wrong(ip, 0.0), k), ip, c, n + k, f - k)
    decreases k
  {
    if k > 0 {
      var more := OneFails(moves, ip, c, n, f);
      AllFail(more, ip, c, n + 1, f - 1, k - 1);
    }
  }

  lemma OneAlone(moves: seq<Move>, ip: string, c: nat, n: nat) returns (more: seq<Move>)
    requires At0(moves, ip, c, n, 0) && n < MAX_FAILURES && c > 0
    ensures more == moves + [Arrive(ip, 0.0)] + [Wrong(ip, 0.0)] && At0(more, ip, c, n + 1, 0)
  {
    more := OneArrives(moves, ip, c, n, 0);
    more := OneFails(more, ip, c, n, 1);
  }

  lemma {:induction false} OneByOne(moves: seq<Move>, ip: string, c: nat, n: nat, k: nat)
    requires At0(moves, ip, c, n, 0) && n + k < MAX_FAILURES && c > 0
    ensures At0(GrownAlone(moves, ip, k), ip, c, n + k, 0)
    decreases k
  {
    if k > 0 {
      var more := OneAlone(moves, ip, c, n);
      OneByOne(more, ip, c, n + 1, k - 1);
    }
  }

  lemma StormRuns(ip: string, alone: nat, c: nat)
    requires alone < MAX_FAILURES && c > 0
    ensures At0(Storm(ip, alone, c), ip, c, alone + c, 0)
  {
    OneByOne([], ip, c, 0, alone);
    AllArrive(GrownAlone([], ip, alone), ip, c, alone, 0, c);
    AllFail(Grown(GrownAlone([], ip, alone), Arrive(ip, 0.0), c), ip, c, alone, c, c);
  }

  function Repeated(m: Move, n: nat): seq<Move> { seq(n, _ => m) }

  lemma {:induction false} GrownIs(moves: seq<Move>, m: Move, k: nat)
    ensures Grown(moves, m, k) == moves + Repeated(m, k)
    decreases k
  {
    if k > 0 {
      GrownIs(moves + [m], m, k - 1);
      assert moves + [m] + Repeated(m, k - 1) == moves + Repeated(m, k);
    }
  }

  // With at most c attempts of an address in flight no run of failures exceeds
  // the limit by more than c - 1, and that bound is reached.
  lemma FailuresInFlight(c: nat)
    ensures forall moves, ip :: Route(moves, c) ==> Run(moves, ip) <= MAX_FAILURES - 1 + c
    ensures c > 0 ==> exists moves, ip :: Route(moves, c) && Run(moves, ip) == MAX_FAILURES - 1 + c
  {
    forall moves, ip | Route(moves, c)
      ensures Run(moves, ip) <= MAX_FAILURES - 1 + c
    {
      RunAndFlight(moves, c, ip);
    }
    if c > 0 {
      var ip := "";
      var moves := Storm(ip, MAX_FAILURES - 1, c);
      StormRuns(ip, MAX_FAILURES - 1, c);
      assert Route(moves, c) && Run(moves, ip) == MAX_FAILURES - 1 + c;
    }
  }

  // So the limit itself is kept by every run exactly when an address cannot
  // have two attempts in flight.
  lemma LimitKeptOneAtATime(c: nat)
    ensures (forall moves, ip :: Route(moves, c) ==> Run(moves, ip) <= MAX_FAILURES) <==> c <= 1
  {
    FailuresInFlight(c);
  }

  // Six wrong passwords sent at once: all pass the check, all are recorded.
  lemma SixAtOnce(ip: string)
    ensures var moves := Repeated(Arrive(ip, 0.0), 6) + Repeated(Wrong(ip, 0.0), 6);
            Route(moves, 6) && Run(moves, ip) == 6 > MAX_FAILURES
  {
    StormRuns(ip, 0, 6);
    GrownIs([], Arrive(ip, 0.0), 6);
    GrownIs(Repeated(Arrive(ip, 0.0), 6), Wrong(ip, 0.0), 6);
    assert [] + Repeated(Arrive(ip, 0.0), 6) == Repeated(Arrive(ip, 0.0), 6);
  }
}
