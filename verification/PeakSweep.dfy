// The most calls at once over a period: the sorted sweep of manager/api/usage.py
// `summary` against the calls in progress at each instant.
module PeakSweep {
  import opened Text

  // A call as the query reads it; instants in microseconds.
  datatype Row = Row(established: bool, start: Option<int>, end: Option<int>)

  datatype Call = Call(start: int, end: int)

  // The calls of the table with both ends known.
  function Calls(rows: seq<Row>): seq<Call> {
    if rows == [] then []
    else (if rows[0].established && rows[0].start.Some? && rows[0].end.Some?
          then [Call(rows[0].start.value, rows[0].end.value)] else []) + Calls(rows[1..])
  }

  // WHERE call_end > since AND call_start < until
  function Overlapping(calls: seq<Call>, since: int, until: int): seq<Call> {
    if calls == [] then []
    else (if calls[0].end > since && calls[0].start < until then [calls[0]] else [])
         + Overlapping(calls[1..], since, until)
  }

  datatype Event = Event(t: int, d: int)

  // UNION ALL of the starts and the ends.
  function Events(calls: seq<Call>): seq<Event> {
    if calls == [] then []
    else [Event(calls[0].start, 1), Event(calls[0].end, -1)] + Events(calls[1..])
  }

  // ORDER BY t, d: at equal times the ends come first.
  predicate InOrder(a: Event, b: Event) { a.t < b.t || (a.t == b.t && a.d <= b.d) }

  ghost predicate Sorted(ev: seq<Event>) {
    forall i, j :: 0 <= i < j < |ev| ==> InOrder(ev[i], ev[j])
  }

  // SUM(d) OVER (... ROWS UNBOUNDED PRECEDING)
  function Running(ev: seq<Event>): int {
    if ev == [] then 0 else Running(ev[..|ev| - 1]) + ev[|ev| - 1].d
  }

  // What the sweep computes from its events: COALESCE(MAX(running), 0).
  ghost predicate SweptTo(ev: seq<Event>, peak: int) {
    && (ev == [] ==> peak == 0)
    && (forall k :: 0 < k <= |ev| ==> Running(ev[..k]) <= peak)
    && (ev != [] ==> exists k :: 0 < k <= |ev| && Running(ev[..k]) == peak)
  }

  method Peak(ev: seq<Event>) returns (peak: int)
    ensures SweptTo(ev, peak)
  {
    if ev == [] {
      return 0;
    }
    var running := ev[0].d;
    peak := running;
    assert ev[..1][..0] == [] && Running(ev[..1][..0]) == 0;
    assert Running(ev[..1]) == running;
    for i := 1 to |ev|
      invariant running == Running(ev[..i])
      invariant forall k :: 0 < k <= i ==> Running(ev[..k]) <= peak
      invariant exists k :: 0 < k <= i && Running(ev[..k]) == peak
    {
      running := running + ev[i].d;
      assert ev[..i + 1][..i] == ev[..i];
      if running > peak {
        peak := running;
      }
    }
  }

  // ------------------------------------------------- the independent meaning

  // Calls in progress at an instant.
  function Active(calls: seq<Call>, t: int): nat {
    if calls == [] then 0
    else (if calls[0].start <= t < calls[0].end then 1 else 0) + Active(calls[1..], t)
  }

  // The rows of the table in progress at an instant: established, both ends known.
  predicate InProgress(r: Row, t: int) {
    r.established && match (r.start, r.end) case (Some(a), Some(b)) => a <= t < b case _ => false
  }

  // How many, as a set of rows.
  ghost function AtOnce(rows: seq<Row>, t: int): nat { |set i | 0 <= i < |rows| && InProgress(rows[i], t)| }

  // An established row recorded as ended at an instant it has not begun at, and
  // that the query reads for the period.
  predicate Hides(r: Row, since: int, until: int, t: int) {
    r.established && match (r.start, r.end) case (Some(a), Some(b)) => since < b <= t < a < until case _ => false
  }

  ghost function Hidden(rows: seq<Row>, since: int, until: int, t: int): nat {
    |set i | 0 <= i < |rows| && Hides(rows[i], since, until, t)|
  }

  // The maximum, reached, of the calls in progress at the instants of the period.
  ghost predicate IsPeak(peak: int, rows: seq<Row>, since: int, until: int) {
    && (forall t :: since <= t < until ==> AtOnce(rows, t) <= peak)
    && (exists t :: since <= t < until && AtOnce(rows, t) == peak)
  }

  // Calls recorded as ended at an instant they have not begun at.
  function Backward(calls: seq<Call>, t: int): nat {
    if calls == [] then 0
    else (if calls[0].end <= t < calls[0].start then 1 else 0) + Backward(calls[1..], t)
  }

  // What the sweep counts at an instant: each backward call hides another.
  function Net(calls: seq<Call>, t: int): int { Active(calls, t) - Backward(calls, t) }

  // --------------------------------------------------- sums over the events

  function Term(e: Event, t: int): int { if e.t <= t then e.d else 0 }

  // What the events up to an instant add up to, in whatever order they come.
  function UpTo(ev: seq<Event>, t: int): int {
    if ev == [] then 0 else UpTo(ev[..|ev| - 1], t) + Term(ev[|ev| - 1], t)
  }

  lemma {:induction false} UpToConcat(a: seq<Event>, b: seq<Event>, t: int)
    ensures UpTo(a + b, t) == UpTo(a, t) + UpTo(b, t)
    decreases |b|
  {
    if b == [] {
      assert a + b == a;
    } else {
      assert (a + b)[..|a + b| - 1] == a + b[..|b| - 1];
      UpToConcat(a, b[..|b| - 1], t);
    }
  }

  lemma UpToOne(e: Event, t: int)
    ensures UpTo([e], t) == Term(e, t)
  {
    assert [e][..0] == [];
  }

  function Without(s: seq<Event>, i: nat): seq<Event>
    requires i < |s|
  {
    s[..i] + s[i + 1..]
  }

  lemma WithoutOne(s: seq<Event>, i: nat, t: int)
    requires i < |s|
    ensures multiset(s) == multiset(Without(s, i)) + multiset{s[i]}
    ensures UpTo(s, t) == UpTo(Without(s, i), t) + Term(s[i], t)
  {
    assert s == s[..i] + [s[i]] + s[i + 1..];
    UpToConcat(s[..i] + [s[i]], s[i + 1..], t);
    UpToConcat(s[..i], [s[i]], t);
    UpToConcat(s[..i], s[i + 1..], t);
    UpToOne(s[i], t);
  }

  lemma {:induction false} UpToPermuted(a: seq<Event>, b: seq<Event>, t: int)
    requires multiset(a) == multiset(b)
    ensures UpTo(a, t) == UpTo(b, t)
    decreases |a|
  {
    if a == [] {
      assert |multiset(b)| == 0;
    } else {
      var e, rest := a[|a| - 1], a[..|a| - 1];
      assert a == rest + [e];
      assert e in multiset(b);
      var i :| 0 <= i < |b| && b[i] == e;
      WithoutOne(b, i, t);
      assert multiset(rest) == multiset(a) - multiset{e};
      UpToPermuted(rest, Without(b, i), t);
    }
  }

  // Each call in progress has begun and not ended.
  lemma {:induction false} UpToIsNet(calls: seq<Call>, t: int)
    ensures UpTo(Events(calls), t) == Net(calls, t)
  {
    if calls != [] {
      var c, rest := calls[0], calls[1..];
      UpToIsNet(rest, t);
      var pair := [Event(c.start, 1), Event(c.end, -1)];
      UpToConcat(pair, Events(rest), t);
      assert pair == [pair[0]] + [pair[1]];
      UpToConcat([pair[0]], [pair[1]], t);
      UpToOne(pair[0], t);
      UpToOne(pair[1], t);
    }
  }

  // In order, the events up to t are a prefix.
  lemma {:induction false} RunningIsUpTo(ev: seq<Event>, k: nat, t: int)
    requires k <= |ev|
    requires forall i :: 0 <= i < k ==> ev[i].t <= t
    requires forall i :: k <= i < |ev| ==> ev[i].t > t
    ensures UpTo(ev, t) == Running(ev[..k])
    decreases |ev|
  {
    if ev != [] {
      var init := ev[..|ev| - 1];
      if k == |ev| {
        assert ev[..k] == ev && init[..k - 1] == init;
        RunningIsUpTo(init, k - 1, t);
      } else {
        assert init[..k] == ev[..k];
        RunningIsUpTo(init, k, t);
      }
    } else {
      assert ev[..k] == [];
    }
  }

  // How many events come up to t.
  lemma {:induction false} PrefixUpTo(ev: seq<Event>, t: int) returns (k: nat)
    requires Sorted(ev)
    ensures k <= |ev|
    ensures forall i :: 0 <= i < k ==> ev[i].t <= t
    ensures forall i :: k <= i < |ev| ==> ev[i].t > t
    decreases |ev|
  {
    if ev == [] {
      k := 0;
    } else if ev[|ev| - 1].t <= t {
      k := |ev|;
      assert forall i :: 0 <= i < |ev| - 1 ==> InOrder(ev[i], ev[|ev| - 1]);
    } else {
      k := PrefixUpTo(ev[..|ev| - 1], t);
      assert forall i :: 0 <= i < |ev| - 1 ==> ev[..|ev| - 1][i] == ev[i];
    }
  }

  // No more at any point of the sweep than once all the starts of some call's
  // first instant are counted: an end only lowers the sum.
  lemma {:induction false} RunningBelowUpTo(ev: seq<Event>, k: nat) returns (i: nat)
    requires Sorted(ev) && k <= |ev|
    requires forall e | e in ev :: e.d == 1 || e.d == -1
    ensures Running(ev[..k]) <= 0 ||
            (i < |ev| && ev[i].d == 1 && Running(ev[..k]) <= UpTo(ev, ev[i].t))
    decreases k
  {
    i := 0;
    if k > 0 {
      assert ev[..k][..k - 1] == ev[..k - 1];
      var e := ev[k - 1];
      assert e in ev;
      if e.d == -1 {
        i := RunningBelowUpTo(ev, k - 1);
      } else {
        i := k - 1;
        var n := PrefixUpTo(ev, e.t);
        RunningIsUpTo(ev, n, e.t);
        assert n >= k;
        forall j | k <= j < n
          ensures ev[j].d == 1
        {
          assert InOrder(ev[k - 1], ev[j]) && ev[j] in ev;
        }
        RunningGrows(ev, k, n);
      }
    }
  }

  lemma {:induction false} RunningGrows(ev: seq<Event>, k: nat, n: nat)
    requires k <= n <= |ev| && forall j :: k <= j < n ==> ev[j].d == 1
    ensures Running(ev[..k]) <= Running(ev[..n])
    decreases n
  {
    if k < n {
      assert ev[..n][..n - 1] == ev[..n - 1];
      RunningGrows(ev, k, n - 1);
    }
  }

  // ------------------------------------------------------- the calls counted

  lemma {:induction false} OverlappingSound(calls: seq<Call>, since: int, until: int)
    ensures forall c | c in Overlapping(calls, since, until) ::
              c in calls && c.end > since && c.start < until
  {
    if calls != [] {
      OverlappingSound(calls[1..], since, until);
    }
  }

  // At an instant of the period only overlapping calls are in progress.
  lemma {:induction false} OverlappingActive(calls: seq<Call>, since: int, until: int, t: int)
    requires since <= t < until
    ensures Active(Overlapping(calls, since, until), t) == Active(calls, t)
  {
    if calls != [] {
      OverlappingActive(calls[1..], since, until, t);
      var head := if calls[0].end > since && calls[0].start < until then [calls[0]] else [];
      if head != [] {
        assert (head + Overlapping(calls[1..], since, until))[1..] == Overlapping(calls[1..], since, until);
      } else {
        assert head + Overlapping(calls[1..], since, until) == Overlapping(calls[1..], since, until);
      }
    }
  }

  // A call begun before the period is still there at its first instant.
  lemma {:induction false} NetAtSince(calls: seq<Call>, since: int, t: int)
    requires t <= since && forall c | c in calls :: c.end > since
    ensures Net(calls, t) <= Net(calls, since) && Net(calls, since) >= 0
  {
    if calls != [] {
      assert calls[0] in calls;
      NetAtSince(calls[1..], since, t);
    }
  }

  // Once everything has begun and ended nothing is left.
  lemma {:induction false} NetAtTheEnd(calls: seq<Call>, t: int)
    requires forall e | e in Events(calls) :: e.t <= t
    ensures Net(calls, t) == 0
  {
    if calls != [] {
      var c, ev := calls[0], Events(calls);
      assert ev[0] == Event(c.start, 1) && ev[1] == Event(c.end, -1);
      assert ev[0] in ev && ev[1] in ev && forall e | e in Events(calls[1..]) :: e in ev;
      NetAtTheEnd(calls[1..], t);
    }
  }

  lemma {:induction false} EventOfCall(calls: seq<Call>, e: Event)
    requires e in Events(calls)
    ensures e.d == 1 || e.d == -1
    ensures e.d == 1 ==> exists c | c in calls :: c.start == e.t
  {
    var c := calls[0];
    assert c in calls;
    if e != Event(c.start, 1) && e != Event(c.end, -1) {
      assert e in Events(calls[1..]);
      EventOfCall(calls[1..], e);
    }
  }

  // ------------------------------------------------------------ the theorem

  // Sorting the overlapping calls' events in any admissible order.
  ghost predicate SweepOf(ev: seq<Event>, calls: seq<Call>, since: int, until: int) {
    Sorted(ev) && multiset(ev) == multiset(Events(Overlapping(calls, since, until)))
  }

  // The sum of the sweep at an instant.
  lemma {:induction false} UpToAt(ev: seq<Event>, calls: seq<Call>, since: int, until: int, t: int)
    requires SweepOf(ev, calls, since, until)
    ensures UpTo(ev, t) == Net(Overlapping(calls, since, until), t)
  {
    UpToPermuted(ev, Events(Overlapping(calls, since, until)), t);
    UpToIsNet(Overlapping(calls, since, until), t);
  }

  lemma PeakIsNotNegative(ev: seq<Event>, calls: seq<Call>, since: int, until: int, peak: int)
    requires SweepOf(ev, calls, since, until) && SweptTo(ev, peak)
    ensures peak >= 0
  {
    if ev != [] {
      var last := ev[|ev| - 1].t;
      UpToAt(ev, calls, since, until, last);
      var n := PrefixUpTo(ev, last);
      assert n == |ev|;
      RunningIsUpTo(ev, n, last);
      forall e | e in Events(Overlapping(calls, since, until))
        ensures e.t <= last
      {
        assert e in multiset(ev);
      }
      NetAtTheEnd(Overlapping(calls, since, until), last);
    }
  }

  lemma PeakBoundsInstants(ev: seq<Event>, calls: seq<Call>, since: int, until: int, peak: int, t: int)
    requires SweepOf(ev, calls, since, until) && SweptTo(ev, peak)
    ensures Net(Overlapping(calls, since, until), t) <= peak
  {
    UpToAt(ev, calls, since, until, t);
    PeakIsNotNegative(ev, calls, since, until, peak);
    var k := PrefixUpTo(ev, t);
    RunningIsUpTo(ev, k, t);
    assert ev[..0] == [];
  }

  lemma PeakIsReached(ev: seq<Event>, calls: seq<Call>, since: int, until: int, peak: int) returns (t: int)
    requires SweepOf(ev, calls, since, until) && SweptTo(ev, peak)
    requires since < until
    ensures since <= t < until && Net(Overlapping(calls, since, until), t) == peak
  {
    var over := Overlapping(calls, since, until);
    OverlappingSound(calls, since, until);
    t := since;
    PeakBoundsInstants(ev, calls, since, until, peak, since);
    NetAtSince(over, since, since);
    if ev != [] && peak > 0 {
      var k :| 0 < k <= |ev| && Running(ev[..k]) == peak;
      forall e | e in ev
        ensures e.d == 1 || e.d == -1
      {
        assert e in multiset(ev);
        EventOfCall(over, e);
      }
      var i := RunningBelowUpTo(ev, k);
      assert ev[i] in multiset(ev);
      EventOfCall(over, ev[i]);
      UpToAt(ev, calls, since, until, ev[i].t);
      if ev[i].t > since {
        t := ev[i].t;
      } else {
        NetAtSince(over, since, ev[i].t);
      }
      PeakBoundsInstants(ev, calls, since, until, peak, t);
    }
  }

  // ----------------------------------------------------- there is such a sort

  lemma {:induction false} Sort(events: seq<Event>) returns (ev: seq<Event>)
    ensures Sorted(ev) && multiset(ev) == multiset(events)
    decreases |events|
  {
    ev := [];
    if events != [] {
      var rest := Sort(events[1..]);
      ev := Insert(rest, events[0]);
      assert events == [events[0]] + events[1..];
    }
  }

  lemma {:induction false} Insert(ev: seq<Event>, e: Event) returns (more: seq<Event>)
    requires Sorted(ev)
    ensures Sorted(more) && multiset(more) == multiset(ev) + multiset{e}
    decreases |ev|
  {
    if ev == [] || InOrder(e, ev[0]) {
      more := [e] + ev;
      assert forall i :: 0 < i < |ev| ==> InOrder(ev[0], ev[i]);
    } else {
      var rest := Insert(ev[1..], e);
      more := [ev[0]] + rest;
      assert ev == [ev[0]] + ev[1..];
      forall x | x in rest
        ensures InOrder(ev[0], x)
      {
        assert x in multiset(rest);
        if x != e {
          assert x in multiset(ev[1..]);
        }
      }
      assert forall i :: 0 < i < |more| ==> more[i] == rest[i - 1] && rest[i - 1] in rest;
    }
  }

  // Every table and every period have an order the query can read its events in.
  lemma SomeSweep(calls: seq<Call>, since: int, until: int) returns (ev: seq<Event>)
    ensures SweepOf(ev, calls, since, until)
  {
    ev := Sort(Events(Overlapping(calls, since, until)));
  }

  // ------------------------------------------------- over the table's rows

  lemma {:induction false} CallsLast(rows: seq<Row>)
    requires rows != []
    ensures Calls(rows) == Calls(rows[..|rows| - 1]) + Calls([rows[|rows| - 1]])
  {
    if |rows| == 1 {
      assert rows[..0] == [] && rows == [rows[0]];
    } else {
      CallsLast(rows[1..]);
      assert rows[1..][..|rows| - 2] == rows[..|rows| - 1][1..];
    }
  }

  lemma {:induction false} ActiveConcat(a: seq<Call>, b: seq<Call>, t: int)
    ensures Active(a + b, t) == Active(a, t) + Active(b, t)
    decreases |a|
  {
    if a == [] {
      assert a + b == b;
    } else {
      assert (a + b)[1..] == a[1..] + b;
      ActiveConcat(a[1..], b, t);
    }
  }

  lemma {:induction false} OverlappingConcat(a: seq<Call>, b: seq<Call>, since: int, until: int)
    ensures Overlapping(a + b, since, until) == Overlapping(a, since, until) + Overlapping(b, since, until)
    decreases |a|
  {
    if a == [] {
      assert a + b == b;
    } else {
      assert (a + b)[1..] == a[1..] + b;
      OverlappingConcat(a[1..], b, since, until);
    }
  }

  lemma {:induction false} BackwardConcat(a: seq<Call>, b: seq<Call>, t: int)
    ensures Backward(a + b, t) == Backward(a, t) + Backward(b, t)
    decreases |a|
  {
    if a == [] {
      assert a + b == b;
    } else {
      assert (a + b)[1..] == a[1..] + b;
      BackwardConcat(a[1..], b, t);
    }
  }

  lemma OneCall(r: Row, since: int, until: int, t: int)
    requires since <= t < until
    ensures Active(Calls([r]), t) == if InProgress(r, t) then 1 else 0
    ensures Backward(Overlapping(Calls([r]), since, until), t) == if Hides(r, since, until, t) then 1 else 0
  {
    assert [r][1..] == [];
    assert Calls([r]) != [] ==> Calls([r])[1..] == [];
  }

  // What the sweep's calls count is the table's rows.
  lemma {:induction false} CallsAreRows(rows: seq<Row>, since: int, until: int, t: int)
    requires since <= t < until
    ensures Active(Calls(rows), t) == AtOnce(rows, t)
    ensures Backward(Overlapping(Calls(rows), since, until), t) == Hidden(rows, since, until, t)
    decreases |rows|
  {
    if rows != [] {
      var n := |rows| - 1;
      var init, last := rows[..n], rows[n];
      CallsAreRows(init, since, until, t);
      CallsLast(rows);
      ActiveConcat(Calls(init), Calls([last]), t);
      OverlappingConcat(Calls(init), Calls([last]), since, until);
      BackwardConcat(Overlapping(Calls(init), since, until), Overlapping(Calls([last]), since, until), t);
      OneCall(last, since, until, t);
      OneMoreRow(rows, since, until, t);
    }
  }

  lemma OneMoreRow(rows: seq<Row>, since: int, until: int, t: int)
    requires rows != []
    ensures var init, last := rows[..|rows| - 1], rows[|rows| - 1];
            && AtOnce(rows, t) == AtOnce(init, t) + (if InProgress(last, t) then 1 else 0)
            && Hidden(rows, since, until, t) == Hidden(init, since, until, t) + if Hides(last, since, until, t) then 1 else 0
  {
    OneMoreAtOnce(rows, t);
    OneMoreHidden(rows, since, until, t);
  }

  lemma OneMoreAtOnce(rows: seq<Row>, t: int)
    requires rows != []
    ensures var init, last := rows[..|rows| - 1], rows[|rows| - 1];
            AtOnce(rows, t) == AtOnce(init, t) + if InProgress(last, t) then 1 else 0
  {
    var n := |rows| - 1;
    assert (set i | 0 <= i < |rows| && InProgress(rows[i], t)) ==
           (set i | 0 <= i < n && InProgress(rows[..n][i], t)) + (if InProgress(rows[n], t) then {n} else {});
  }

  lemma OneMoreHidden(rows: seq<Row>, since: int, until: int, t: int)
    requires rows != []
    ensures var init, last := rows[..|rows| - 1], rows[|rows| - 1];
            Hidden(rows, since, until, t) == Hidden(init, since, until, t) + if Hides(last, since, until, t) then 1 else 0
  {
    var n := |rows| - 1;
    assert (set i | 0 <= i < |rows| && Hides(rows[i], since, until, t)) ==
           (set i | 0 <= i < n && Hides(rows[..n][i], since, until, t)) + (if Hides(rows[n], since, until, t) then {n} else {});
  }

  // The figure is the maximum of the calls in progress exactly when no backward
  // call that overlaps the period is over some instant of that maximum.
  ghost predicate SeenWhole(rows: seq<Row>, since: int, until: int, t: int) {
    && since <= t < until && Hidden(rows, since, until, t) == 0
    && forall u :: since <= u < until ==> AtOnce(rows, u) <= AtOnce(rows, t)
  }

  lemma PeakIffSeenWhole(rows: seq<Row>, since: int, until: int, peak: int, at: int)
    requires forall t :: since <= t < until ==> AtOnce(rows, t) - Hidden(rows, since, until, t) <= peak
    requires since <= at < until && AtOnce(rows, at) - Hidden(rows, since, until, at) == peak
    ensures IsPeak(peak, rows, since, until) <==> exists t :: SeenWhole(rows, since, until, t)
  {
    if IsPeak(peak, rows, since, until) {
      assert AtOnce(rows, at) <= peak;
      assert SeenWhole(rows, since, until, at);
    }
    if t :| SeenWhole(rows, since, until, t) {
      assert AtOnce(rows, t) - Hidden(rows, since, until, t) <= peak;
      assert AtOnce(rows, at) <= AtOnce(rows, t);
    }
  }

  // No established call that overlaps the period is recorded as ended before it
  // began.
  ghost predicate NoneBackwards(rows: seq<Row>, since: int, until: int) {
    forall r, t | r in rows && since <= t < until :: !Hides(r, since, until, t)
  }

  // Whatever the calls, however the sort breaks ties, the figure is the
  // maximum over the instants of the period of the established calls in
  // progress, each backward call that overlaps the period taking one off.
  // Without backward calls, and whenever one instant of the maximum is free of
  // them, it is the maximum itself: calls begun before the period or ended after
  // it never inflate it.
  method PeakConcurrent(rows: seq<Row>, since: int, until: int, ev: seq<Event>) returns (peak: int)
    requires since < until && SweepOf(ev, Calls(rows), since, until)
    ensures forall t :: since <= t < until ==> AtOnce(rows, t) - Hidden(rows, since, until, t) <= peak
    ensures exists t :: since <= t < until && AtOnce(rows, t) - Hidden(rows, since, until, t) == peak
    ensures NoneBackwards(rows, since, until) ==> IsPeak(peak, rows, since, until)
    ensures IsPeak(peak, rows, since, until) <==> exists t :: SeenWhole(rows, since, until, t)
  {
    peak := Peak(ev);
    ghost var calls := Calls(rows);
    forall t | since <= t < until
      ensures AtOnce(rows, t) - Hidden(rows, since, until, t) <= peak
    {
      PeakBoundsInstants(ev, calls, since, until, peak, t);
      OverlappingActive(calls, since, until, t);
      CallsAreRows(rows, since, until, t);
    }
    ghost var t := PeakIsReached(ev, calls, since, until, peak);
    OverlappingActive(calls, since, until, t);
    CallsAreRows(rows, since, until, t);
    PeakIffSeenWhole(rows, since, until, peak, t);
    if NoneBackwards(rows, since, until) {
      NothingHidden(rows, since, until);
    }
  }

  lemma NothingHidden(rows: seq<Row>, since: int, until: int)
    requires NoneBackwards(rows, since, until)
    ensures forall t :: since <= t < until ==> Hidden(rows, since, until, t) == 0
  {
    forall t | since <= t < until
      ensures Hidden(rows, since, until, t) == 0
    {
      assert forall i | 0 <= i < |rows| :: rows[i] in rows;
      assert (set i | 0 <= i < |rows| && Hides(rows[i], since, until, t)) == {};
    }
  }

  // A call recorded as ended before it began takes one off the others.
  lemma BackwardCallHidesOne()
    ensures var calls := [Call(3, 5), Call(8, 2)];
            var ev := [Event(2, -1), Event(3, 1), Event(5, -1), Event(8, 1)];
            SweepOf(ev, calls, 0, 20) && SweptTo(ev, 0) && Active(calls, 4) == 1
  {
    var c0, c1 := Call(3, 5), Call(8, 2);
    var ev := [Event(2, -1), Event(3, 1), Event(5, -1), Event(8, 1)];
    EventsOfTwo(c0, c1);
    assert Active([c0, c1], 4) == 1 by {
      assert [c0, c1][1..] == [c1] && [c1][1..] == [] && Active([c1], 4) == 0;
    }
    RunningOfFour(ev);
  }

  lemma EventsOfTwo(c0: Call, c1: Call)
    requires c0.end > 0 && c0.start < 20 && c1.end > 0 && c1.start < 20
    ensures multiset(Events(Overlapping([c0, c1], 0, 20))) ==
            multiset{Event(c0.start, 1), Event(c0.end, -1), Event(c1.start, 1), Event(c1.end, -1)}
  {
    assert [c0, c1][1..] == [c1] && [c1][1..] == [];
    assert Overlapping([c1], 0, 20) == [c1];
    assert Overlapping([c0, c1], 0, 20) == [c0, c1];
    assert Events([c1]) == [Event(c1.start, 1), Event(c1.end, -1)];
  }

  lemma RunningOfFour(ev: seq<Event>)
    requires |ev| == 4
    ensures Running(ev[..1]) == ev[0].d && Running(ev[..2]) == ev[0].d + ev[1].d
    ensures Running(ev[..3]) == ev[0].d + ev[1].d + ev[2].d
    ensures Running(ev[..4]) == ev[0].d + ev[1].d + ev[2].d + ev[3].d
  {
    assert ev[..1][..0] == [] && ev[..2][..1] == ev[..1] && ev[..3][..2] == ev[..2] && ev[..4][..3] == ev[..3];
    assert Running(ev[..1][..0]) == 0;
  }
}
