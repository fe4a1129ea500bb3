// What the Manager makes of a call's periodic media samples and of its video
// statistics (manager/ingest/mapping.py).
module MediaSamples {
  import opened Rounding
  import opened Text

  // ------------------------------------------------------------ raw figures

  const INT_LIMIT := 0x7fff_ffff

  // _int: a counter beyond an INTEGER column is read as missing.
  function ReadInt(value: Option<int>): Option<int> {
    if value.Some? && -INT_LIMIT <= value.value <= INT_LIMIT then value else None
  }

  // `source` is trimmed, None when empty.
  datatype Part = Part(rxFrames: Option<int>, txFrames: Option<int>, rxPicup: Option<int>, source: Option<string>)

  // `video` is false for a sample without a video block.
  datatype Sample = Sample(video: bool, seconds: Option<real>, main: Part, slides: Part)

  function Points(samples: seq<Sample>): seq<Sample> {
    if samples == [] then []
    else (if samples[0].video then [samples[0]] else []) + Points(samples[1..])
  }

  // ------------------------------------------------------------ frame rates

  const LOW_FPS := 5.0
  const PLACEHOLDER := "fakevideo"

  datatype Rate = Rate(t: Option<real>, seconds: real, rx: Option<real>, tx: Option<real>, presentation: bool)

  function Seconds(s: Sample): real { if s.seconds.Some? then s.seconds.value else 0.0 }

  function PerSecond(start: Option<int>, stop: Option<int>, seconds: real): Option<real>
    requires seconds > 0.0
  {
    var a, b := ReadInt(start), ReadInt(stop);
    if a.None? || b.None? then None else Some(Round1((b.value - a.value) as real / seconds))
  }

  function OrZero(n: Option<int>): int { if ReadInt(n).Some? then n.value else 0 }

  function Presenting(before: Part, after: Part): bool {
    (after.source.Some? && after.source.value != PLACEHOLDER) || OrZero(after.rxFrames) > OrZero(before.rxFrames)
  }

  function Interval(before: Sample, after: Sample): Option<Rate> {
    var seconds := Seconds(after) - Seconds(before);
    if seconds <= 0.0 then None
    else Some(Rate(after.seconds, seconds,
                   PerSecond(before.main.rxFrames, after.main.rxFrames, seconds),
                   PerSecond(before.main.txFrames, after.main.txFrames, seconds),
                   Presenting(before.slides, after.slides)))
  }

  function IntervalList(before: Sample, after: Sample): seq<Rate> {
    match Interval(before, after) case Some(r) => [r] case None => []
  }

  function Rates(points: seq<Sample>): seq<Rate> {
    if |points| < 2 then []
    else Rates(points[..|points| - 1]) + IntervalList(points[|points| - 2], points[|points| - 1])
  }

  lemma RatesStep(points: seq<Sample>, k: nat)
    requires 1 <= k < |points|
    ensures Rates(points[..k + 1]) == Rates(points[..k]) + IntervalList(points[k - 1], points[k])
  {
    var upTo := points[..k + 1];
    assert upTo[..k] == points[..k];
    assert upTo[k - 1] == points[k - 1] && upTo[k] == points[k];
  }

  method FrameRates(samples: seq<Sample>) returns (rates: seq<Rate>)
    ensures rates == Rates(Points(samples))
  {
    var points := Points(samples);
    rates := [];
    if |points| < 2 {
      return;
    }
    for k := 1 to |points|
      invariant rates == Rates(points[..k])
    {
      var interval := Interval(points[k - 1], points[k]);
      if interval.Some? {
        rates := rates + [interval.value];
      }
      RatesStep(points, k);
    }
    assert points[..|points|] == points;
  }

  // ------------------------------------------------- sums over the intervals

  // The frames of an interval, none when its rate is missing.
  function Produced(rate: Option<real>, seconds: real): real {
    if rate.Some? then rate.value * seconds else 0.0
  }

  // Frames the recorded rates account for, and time under presentation.
  function FramesIn(rates: seq<Rate>, received: bool): real {
    if rates == [] then 0.0
    else
      var last := rates[|rates| - 1];
      var rate := if received then last.rx else last.tx;
      FramesIn(rates[..|rates| - 1], received) + Produced(rate, last.seconds)
  }

  function PresentationTime(rates: seq<Rate>): real {
    if rates == [] then 0.0
    else
      var last := rates[|rates| - 1];
      PresentationTime(rates[..|rates| - 1]) + (if last.presentation then last.seconds else 0.0)
  }

  ghost predicate Increasing(points: seq<Sample>) {
    forall i :: 0 < i < |points| ==> Seconds(points[i - 1]) < Seconds(points[i])
  }

  function Frames(p: Sample, received: bool): Option<int> {
    ReadInt(if received then p.main.rxFrames else p.main.txFrames)
  }

  lemma RateIsNear(start: int, stop: int, seconds: real)
    requires seconds > 0.0
    ensures Abs(Round1((stop - start) as real / seconds) * seconds - (stop - start) as real) <= 0.05 * seconds
  {
    var x := (stop - start) as real / seconds;
    RoundIsNear(10.0 * x);
    WholeTimes((stop - start) as real, seconds);
    ErrorTimes(Round1(x), x, seconds, (stop - start) as real);
  }

  lemma WholeTimes(d: real, seconds: real)
    requires seconds > 0.0
    ensures (d / seconds) * seconds == d
  {
  }

  lemma ErrorTimes(r: real, x: real, seconds: real, d: real)
    requires -0.05 <= r - x <= 0.05 && seconds > 0.0 && x * seconds == d
    ensures Abs(r * seconds - d) <= 0.05 * seconds
  {
    var error := r - x;
    ScaleBound(error, seconds);
    Distributes(r, x, seconds);
    AbsWithin(r * seconds - d, error * seconds, 0.05 * seconds);
  }

  lemma Distributes(r: real, x: real, seconds: real)
    ensures (r - x) * seconds == r * seconds - x * seconds
  {
  }

  lemma AbsWithin(a: real, b: real, bound: real)
    requires a == b && -bound <= b <= bound
    ensures Abs(a) <= bound
  {
  }

  lemma PerSecondIsNear(start: Option<int>, stop: Option<int>, perSecond: Option<real>, seconds: real)
    returns (more: real)
    requires seconds > 0.0 && ReadInt(start).Some? && ReadInt(stop).Some?
    requires perSecond == PerSecond(start, stop, seconds)
    ensures more == Produced(perSecond, seconds)
    ensures Near(more, stop.value - start.value, seconds)
  {
    RateIsNear(start.value, stop.value, seconds);
    more := Round1((stop.value - start.value) as real / seconds) * seconds;
  }

  lemma ScaleBound(error: real, seconds: real)
    requires -0.05 <= error <= 0.05 && seconds > 0.0
    ensures -0.05 * seconds <= error * seconds <= 0.05 * seconds
  {
    assert (0.05 - error) * seconds >= 0.0 && (error + 0.05) * seconds >= 0.0;
  }

  lemma SumsStep(rates: seq<Rate>, r: Rate, received: bool)
    ensures var rate := if received then r.rx else r.tx;
            FramesIn(rates + [r], received) ==
            FramesIn(rates, received) + Produced(rate, r.seconds)
    ensures PresentationTime(rates + [r]) == PresentationTime(rates) + (if r.presentation then r.seconds else 0.0)
  {
    var all := rates + [r];
    assert all[..|all| - 1] == rates && all[|all| - 1] == r;
  }

  // To within half a tenth of a frame per second.
  predicate Near(sum: real, counted: int, span: real) { Abs(sum - counted as real) <= 0.05 * span }

  // The rates drawn for a call add up to the frames it counted, to within half
  // a tenth of a frame per second.
  lemma {:induction false} RatesAddUp(points: seq<Sample>, received: bool, n: nat)
    requires 0 < n <= |points| && Increasing(points)
    requires forall i :: 0 <= i < |points| ==> Frames(points[i], received).Some?
    ensures var counted := Frames(points[n - 1], received).value - Frames(points[0], received).value;
            var span := Seconds(points[n - 1]) - Seconds(points[0]);
            Near(FramesIn(Rates(points[..n]), received), counted, span)
  {
    if n > 1 {
      RatesAddUp(points, received, n - 1);
      var more := IntervalIsNear(points, received, n);
      ErrorsAdd(FramesIn(Rates(points[..n - 1]), received),
                Frames(points[n - 2], received).value - Frames(points[0], received).value,
                Seconds(points[n - 2]) - Seconds(points[0]), more,
                Frames(points[n - 1], received).value - Frames(points[n - 2], received).value,
                Seconds(points[n - 1]) - Seconds(points[n - 2]));
    }
  }

  lemma IntervalIsNear(points: seq<Sample>, received: bool, n: nat) returns (more: real)
    requires 1 < n <= |points| && Increasing(points)
    requires Frames(points[n - 2], received).Some? && Frames(points[n - 1], received).Some?
    ensures FramesIn(Rates(points[..n]), received) == FramesIn(Rates(points[..n - 1]), received) + more
    ensures Near(more, Frames(points[n - 1], received).value - Frames(points[n - 2], received).value,
                 Seconds(points[n - 1]) - Seconds(points[n - 2]))
  {
    var last := LastRate(points, received, n);
    SumsStep(Rates(points[..n - 1]), last, received);
    var perSecond := if received then last.rx else last.tx;
    more := PerSecondIsNear(Counter(points[n - 2], received), Counter(points[n - 1], received), perSecond, last.seconds);
  }

  function Counter(p: Sample, received: bool): Option<int> { if received then p.main.rxFrames else p.main.txFrames }

  // Which counters the interval's rate comes from.
  lemma LastRate(points: seq<Sample>, received: bool, n: nat) returns (last: Rate)
    requires 1 < n <= |points| && Increasing(points)
    ensures Rates(points[..n]) == Rates(points[..n - 1]) + [last]
    ensures last.seconds == Seconds(points[n - 1]) - Seconds(points[n - 2]) > 0.0
    ensures (if received then last.rx else last.tx) ==
            PerSecond(Counter(points[n - 2], received), Counter(points[n - 1], received), last.seconds)
  {
    RatesStep(points, n - 1);
    last := Interval(points[n - 2], points[n - 1]).value;
    assert IntervalList(points[n - 2], points[n - 1]) == [last];
  }

  lemma ErrorsAdd(sum: real, counted: int, span: real, more: real, added: int, seconds: real)
    requires Near(sum, counted, span) && Near(more, added, seconds)
    ensures Near(sum + more, counted + added, span + seconds)
  {
  }

  // Presentation never lasts longer than the samples span; in whole seconds,
  // never more than half a second longer.
  lemma {:induction false} PresentationWithinSpan(points: seq<Sample>, n: nat)
    requires 0 < n <= |points| && Increasing(points)
    ensures var time := PresentationTime(Rates(points[..n]));
            var span := Seconds(points[n - 1]) - Seconds(points[0]);
            0.0 <= time <= span && Round(time) as real <= span + 0.5
  {
    if n > 1 {
      PresentationWithinSpan(points, n - 1);
      RatesStep(points, n - 1);
      SumsStep(Rates(points[..n - 1]), Interval(points[n - 2], points[n - 1]).value, true);
    }
    RoundIsNear(PresentationTime(Rates(points[..n])));
  }

  // ------------------------------------------- one interval, from raw figures

  // The counter as an INTEGER column holds it.
  predicate Holds(counter: Option<int>) {
    counter.Some? && -2147483647 <= counter.value <= 2147483647
  }

  // Slides are sent from a source that is not the stand-in, or more frames of
  // them came than before; a counter the column does not hold counts as none.
  ghost predicate Shows(before: Part, after: Part) {
    (exists s :: after.source == Some(s) && s != "fakevideo") || Held(before.rxFrames) < Held(after.rxFrames)
  }

  function Held(counter: Option<int>): int { if Holds(counter) then counter.value else 0 }

  // A sample without its instant is at 0.
  function Instant(s: Sample): real { match s.seconds case Some(t) => t case None => 0.0 }

  ghost predicate RateSays(start: Option<int>, stop: Option<int>, seconds: real, rate: Option<real>)
    requires seconds > 0.0
  {
    if Holds(start) && Holds(stop) then rate == Some(Round1((stop.value - start.value) as real / seconds))
    else rate == None
  }

  lemma IntervalSays(before: Sample, after: Sample)
    ensures Interval(before, after).Some? <==> Instant(before) < Instant(after)
    ensures Interval(before, after).Some? ==>
      var r := Interval(before, after).value;
      && r.t == after.seconds && r.seconds == Instant(after) - Instant(before)
      && (r.presentation <==> Shows(before.slides, after.slides))
      && RateSays(before.main.rxFrames, after.main.rxFrames, r.seconds, r.rx)
      && RateSays(before.main.txFrames, after.main.txFrames, r.seconds, r.tx)
  {
  }

  ghost predicate NoneShow(points: seq<Sample>) {
    forall k :: 0 < k < |points| ==> !Shows(points[k - 1].slides, points[k].slides)
  }

  ghost predicate AllShow(points: seq<Sample>) {
    forall k :: 0 < k < |points| ==> Shows(points[k - 1].slides, points[k].slides)
  }

  lemma ShowsStep(points: seq<Sample>, n: nat)
    requires 0 < n == |points| - 1
    ensures NoneShow(points) <==> NoneShow(points[..n]) && !Shows(points[n - 1].slides, points[n].slides)
    ensures AllShow(points) <==> AllShow(points[..n]) && Shows(points[n - 1].slides, points[n].slides)
  {
    assert forall k :: 0 <= k < n ==> points[..n][k] == points[k];
  }

  // Nothing was presented exactly when no interval shows slides, and the whole
  // call was when every one does.
  lemma {:induction false} PresentationIs(points: seq<Sample>)
    requires points != [] && Increasing(points)
    ensures PresentationTime(Rates(points)) == 0.0 <==> NoneShow(points)
    ensures PresentationTime(Rates(points)) == Seconds(points[|points| - 1]) - Seconds(points[0]) <==> AllShow(points)
    decreases |points|
  {
    if |points| > 1 {
      var n := |points| - 1;
      PresentationIs(points[..n]);
      PresentationBounds(points, n);
      ShowsStep(points, n);
      IntervalSays(points[n - 1], points[n]);
      assert points[..n + 1] == points;
      assert Seconds(points[n - 1]) < Seconds(points[n]);
    }
  }

  lemma PresentationBounds(points: seq<Sample>, n: nat)
    requires 0 < n < |points| && Increasing(points)
    ensures var before := PresentationTime(Rates(points[..n]));
            && 0.0 <= before <= Seconds(points[n - 1]) - Seconds(points[0])
            && Interval(points[n - 1], points[n]).Some?
            && PresentationTime(Rates(points[..n + 1])) ==
               before + if Interval(points[n - 1], points[n]).value.presentation
                        then Seconds(points[n]) - Seconds(points[n - 1]) else 0.0
  {
    PresentationWithinSpan(points, n);
    RatesStep(points, n);
    SumsStep(Rates(points[..n]), Interval(points[n - 1], points[n]).value, true);
  }

  // ---------------------------------------------------------------- summary

  datatype State = Ok | OneWay | Stalled | NoPicture

  datatype Summary = Summary(minRx: Option<real>, lowIntervals: Option<nat>, keyframes: Option<int>,
                             presentation: Option<int>, state: Option<State>)

  function KnownRx(rates: seq<Rate>): seq<real> {
    if rates == [] then []
    else KnownRx(rates[..|rates| - 1]) +
         (var last := rates[|rates| - 1]; if last.rx.Some? then [last.rx.value] else [])
  }

  function CountLow(rx: seq<real>): (n: nat)
    ensures n <= |rx|
  {
    if rx == [] then 0
    else
      var n := CountLow(rx[..|rx| - 1]);
      if rx[|rx| - 1] < LOW_FPS then n + 1 else n
  }

  lemma {:induction false} CountLowSays(rx: seq<real>)
    ensures CountLow(rx) == 0 <==> NoneLow(rx)
    ensures CountLow(rx) == |rx| <==> AllLow(rx)
  {
    if rx != [] {
      var init, r := rx[..|rx| - 1], rx[|rx| - 1];
      CountLowSays(init);
      assert rx == init + [r];
      assert NoneLow(rx) <==> NoneLow(init) && r >= LOW_FPS;
      assert AllLow(rx) <==> AllLow(init) && r < LOW_FPS;
    }
  }

  lemma TallyStep(rates: seq<Rate>, k: nat)
    requires k < |rates|
    ensures KnownRx(rates[..k + 1]) ==
            KnownRx(rates[..k]) + if rates[k].rx.Some? then [rates[k].rx.value] else []
    ensures PresentationTime(rates[..k + 1]) ==
            PresentationTime(rates[..k]) + if rates[k].presentation then rates[k].seconds else 0.0
  {
    var upTo := rates[..k + 1];
    assert upTo[..k] == rates[..k] && upTo[k] == rates[k];
  }

  lemma CountStep(rx: seq<real>, r: real)
    ensures CountLow(rx + [r]) == CountLow(rx) + if r < LOW_FPS then 1 else 0
  {
    assert (rx + [r])[..|rx|] == rx;
  }

  lemma LeastStep(rx: seq<real>, least: real, r: real)
    requires rx != [] ==> Least(rx, least)
    ensures Least(rx + [r], if rx == [] || r < least then r else least)
  {
    assert (rx + [r])[|rx|] == r;
    assert forall i :: 0 <= i < |rx| ==> (rx + [r])[i] == rx[i];
  }

  // The known received rates, how many are low, the least, and the time under presentation.
  method Tally(rates: seq<Rate>) returns (rx: seq<real>, low: nat, least: real, time: real)
    ensures rx == KnownRx(rates) && low == CountLow(rx) && time == PresentationTime(rates)
    ensures rx != [] ==> Least(rx, least)
  {
    rx, low, least, time := [], 0, 0.0, 0.0;
    for k := 0 to |rates|
      invariant rx == KnownRx(rates[..k]) && low == CountLow(rx) && time == PresentationTime(rates[..k])
      invariant rx != [] ==> Least(rx, least)
    {
      TallyStep(rates, k);
      if rates[k].rx.Some? {
        var r := rates[k].rx.value;
        CountStep(rx, r);
        LeastStep(rx, least, r);
        least := if rx == [] || r < least then r else least;
        rx := rx + [r];
        low := if r < LOW_FPS then low + 1 else low;
      }
      time := time + if rates[k].presentation then rates[k].seconds else 0.0;
    }
    assert rates[..|rates|] == rates;
  }

  ghost predicate AllLow(rx: seq<real>) { forall i :: 0 <= i < |rx| ==> rx[i] < 5.0 }
  ghost predicate NoneLow(rx: seq<real>) { forall i :: 0 <= i < |rx| ==> rx[i] >= 5.0 }

  // The verdict on the received picture: nothing without a measure, ok when no
  // measured interval is low, no_picture when all are, stalled otherwise.
  ghost predicate Verdict(rx: seq<real>, direction: string, state: Option<State>) {
    if direction == "sendonly" || direction == "recvonly" then state == Some(OneWay)
    else
      && (state == None <==> rx == [])
      && (state == Some(Ok) <==> rx != [] && NoneLow(rx))
      && (state == Some(NoPicture) <==> rx != [] && AllLow(rx))
      && (state == Some(Stalled) <==> !AllLow(rx) && !NoneLow(rx))
  }

  ghost predicate Least(rx: seq<real>, least: real) {
    least in rx && forall i :: 0 <= i < |rx| ==> least <= rx[i]
  }

  // The verdict of a measured picture.
  function StateOf(low: nat, measured: nat): State {
    if low == 0 then Ok else if low == measured then NoPicture else Stalled
  }

  lemma {:induction false} StateIs(rx: seq<real>)
    requires rx != []
    ensures Verdict(rx, "", Some(StateOf(CountLow(rx), |rx|)))
  {
    CountLowSays(rx);
  }

  method SampleSummary(samples: seq<Sample>, direction: string) returns (s: Summary)
    ensures var points := Points(samples);
            var rx := KnownRx(Rates(points));
            && Verdict(rx, direction, s.state)
            && (if rx == [] then s.minRx == None && s.lowIntervals == None
                else s.lowIntervals == Some(CountLow(rx)) && exists low :: Least(rx, low) && s.minRx == Some(Round1(low)))
            && s.presentation == (if points == [] then None else Some(Round(PresentationTime(Rates(points)))))
            && s.keyframes == (if points == [] then None else ReadInt(points[|points| - 1].main.rxPicup))
  {
    s := Summary(None, None, None, None, None);
    if direction == "sendonly" || direction == "recvonly" {
      s := s.(state := Some(OneWay));
    }
    var points := Points(samples);
    if points == [] {
      return;
    }
    var rates := FrameRates(samples);
    var rx, low, least, time := Tally(rates);
    s := s.(keyframes := ReadInt(points[|points| - 1].main.rxPicup), presentation := Some(Round(time)));
    if rx != [] {
      assert Least(rx, least);
      s := s.(minRx := Some(Round1(least)), lowIntervals := Some(low));
      if s.state.None? {
        StateIs(rx);
        s := s.(state := Some(StateOf(low, |rx|)));
      }
    }
  }

  // ------------------------------------------------- repeated video entries

  // packets and packetReports, received then sent; a missing counter reads 0.
  datatype Entry = Entry(streamIndex: Option<int>, counters: seq<int>)

  predicate NotDecreasing(a: Entry, b: Entry) {
    |a.counters| == |b.counters| && forall i :: 0 <= i < |a.counters| ==> a.counters[i] <= b.counters[i]
  }

  ghost predicate FourCounters(video: seq<Entry>) { forall e | e in video :: |e.counters| == 4 }

  ghost predicate Cumulative(video: seq<Entry>)
    requires FourCounters(video)
  {
    && |video| >= 4 && |video| % 2 == 0
    && forall i, j, c :: 0 <= i < j < |video| && i % 2 == j % 2 && 0 <= c < 4 ==>
         video[i].counters[c] <= video[j].counters[c]
  }

  // looksCumulative: whatever two entries of the same kind one takes, main or
  // slides, no counter of the later one is below the earlier one's.
  method LooksCumulative(video: seq<Entry>) returns (cumulative: bool)
    requires FourCounters(video)
    ensures cumulative <==> Cumulative(video)
  {
    if |video| < 4 || |video| % 2 != 0 {
      return false;
    }
    for start := 0 to 2
      invariant forall k :: 0 <= k && k + 2 < |video| && k % 2 < start ==> NotDecreasing(video[k], video[k + 2])
    {
      var k := start;
      while k + 2 < |video|
        invariant start <= k < |video| && k % 2 == start
        invariant forall i :: 0 <= i < k && i % 2 == start ==> NotDecreasing(video[i], video[i + 2])
      {
        if !NotDecreasing(video[k], video[k + 2]) {
          return false;
        }
        k := k + 2;
      }
    }
    forall i, j | 0 <= i < j < |video| && i % 2 == j % 2
      ensures NotDecreasing(video[i], video[j])
    {
      Chain(video, i, j);
    }
    return true;
  }

  lemma {:induction false} Chain(video: seq<Entry>, i: nat, j: nat)
    requires FourCounters(video) && i < j < |video| && i % 2 == j % 2
    requires forall k :: 0 <= k && k + 2 < |video| ==> NotDecreasing(video[k], video[k + 2])
    ensures NotDecreasing(video[i], video[j])
    decreases j - i
  {
    if j > i + 2 {
      Chain(video, i, j - 2);
      assert NotDecreasing(video[j - 2], video[j - 2 + 2]);
    } else {
      assert NotDecreasing(video[i], video[i + 2]);
    }
  }

  // What marks repeats of the same two streams, once the payload has samples.
  ghost predicate Repeats(video: seq<Entry>, samples: Option<nat>)
    requires FourCounters(video)
  {
    && samples.Some? && |video| >= 4
    && ((samples.value > 0 && |video| >= 2 * samples.value) || Cumulative(video))
  }

  // _videoEntries: of 2n + 2 entries for n samples, repeats of the same two
  // streams, the pair written at hang-up is kept as 0 and 1; otherwise every
  // entry is, under its own number or its position.
  method VideoEntries(video: seq<Entry>, samples: Option<nat>) returns (kept: seq<(int, Entry)>)
    requires FourCounters(video)
    ensures Repeats(video, samples) ==> kept == [(0, video[|video| - 2]), (1, video[|video| - 1])]
    ensures !Repeats(video, samples) ==> |kept| == |video| && forall i :: 0 <= i < |video| ==>
      kept[i] == (if ReadInt(video[i].streamIndex).Some? then video[i].streamIndex.value else i, video[i])
  {
    var repeated := false;
    if samples.Some? && |video| >= 4 {
      var cumulative := LooksCumulative(video);
      repeated := (samples.value > 0 && |video| >= 2 * samples.value) || cumulative;
    }
    if repeated {
      kept := [(0, video[|video| - 2]), (1, video[|video| - 1])];
    } else {
      kept := seq(|video|, i requires 0 <= i < |video| =>
        (if ReadInt(video[i].streamIndex).Some? then video[i].streamIndex.value else i, video[i]));
    }
  }
}
