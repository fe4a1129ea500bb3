// From the gateway's log to the payload of a call: `main` of src/logParse.py
// turns matched lines into history records, `buildPayloadFromLines` folds the
// records into the call's document. Lines come matched and records parsed.
module CallLog {
  import opened SortedKeys
  import opened Text

  // ---------------------------------------------------------------- records

  datatype Stream = Stream(tx: map<string, real>, rx: map<string, real>)

  const EMPTY := Stream(map[], map[])

  datatype Record =
    | CallStart(timestamp: string)
    | CallEnd(timestamp: string)
    | Encoder(media: string, value: string)
    | Room(value: string)
    | Browsing(value: string)
    | Dtmf(timestamp: string, input: string)
    | CallClosed(callId: string, closeReason: string, eventType: string)
    | MediaSample(seconds: real)
    | StatsValue(kind: string, index: Option<int>, field: string, tx: Option<real>, rx: Option<real>)

  // What the call was, apart from its media figures.
  datatype Details = Details(
    callStart: string, callEnd: string, audioEncoder: Option<string>, videoEncoders: seq<string>,
    room: string, browsing: string, dtmf: seq<(string, string)>,
    callId: string, closeReason: string, lastEventType: string, closedFinally: bool)

  const NO_DETAILS := Details("", "", None, [], "", "", [], "", "", "", false)

  // The locals of the loop.
  datatype Fold = Fold(details: Details, audio: Stream, streams: map<int, Stream>, samples: seq<real>)

  const START := Fold(NO_DETAILS, EMPTY, map[], [])

  function FirstNonEmpty(a: string, b: string): string { if a != "" then a else b }

  function Put(m: map<string, real>, field: string, value: Option<real>): map<string, real> {
    if value.Some? then m[field := value.value] else m
  }

  function PutBoth(s: Stream, field: string, tx: Option<real>, rx: Option<real>): Stream {
    Stream(Put(s.tx, field, tx), Put(s.rx, field, rx))
  }

  function At(streams: map<int, Stream>, i: int): Stream { if i in streams then streams[i] else EMPTY }

  predicate IsFinal(r: Record) { r.CallClosed? && r.eventType == "CALL_CLOSED" }

  // Once the call is closed for good, an earlier state of it is not taken back.
  predicate Ignored(d: Details, r: Record) { r.CallClosed? && d.closedFinally && !IsFinal(r) }

  function DetailsAfter(d: Details, r: Record): Details {
    match r
    case CallStart(t) => d.(callStart := FirstNonEmpty(d.callStart, t))
    case CallEnd(t) => d.(callEnd := FirstNonEmpty(t, d.callEnd))
    case Encoder(media, value) =>
      if media == "audio" then d.(audioEncoder := Some(value))
      else if media == "video" then d.(videoEncoders := d.videoEncoders + [value])
      else d
    case Room(value) => d.(room := value)
    case Browsing(value) => d.(browsing := value)
    case Dtmf(t, input) => if t != "" && input != "" then d.(dtmf := d.dtmf + [(t, input)]) else d
    case CallClosed(callId, reason, eventType) =>
      if Ignored(d, r) then d
      else d.(callId := FirstNonEmpty(callId, d.callId), closeReason := FirstNonEmpty(reason, d.closeReason),
              lastEventType := FirstNonEmpty(eventType, d.lastEventType),
              closedFinally := d.closedFinally || IsFinal(r))
    case _ => d
  }

  function Step(f: Fold, r: Record): Fold {
    var g := f.(details := DetailsAfter(f.details, r));
    match r
    case CallClosed(_, _, _) => if IsFinal(r) && f.samples != [] then g.(streams := map[]) else g
    case MediaSample(seconds) => g.(streams := map[], samples := f.samples + [seconds])
    case StatsValue(kind, index, field, tx, rx) =>
      if field == "" then g
      else if kind == "audio" then g.(audio := PutBoth(f.audio, field, tx, rx))
      else if kind == "video" then
        var i := match index case Some(n) => n case None => 0;
        g.(streams := f.streams[i := PutBoth(At(f.streams, i), field, tx, rx)])
      else g
    case _ => g
  }

  function FoldFrom(f: Fold, records: seq<Record>): Fold
    decreases |records|
  {
    if records == [] then f else FoldFrom(Step(f, records[0]), records[1..])
  }

  lemma {:induction false} FoldConcat(f: Fold, a: seq<Record>, b: seq<Record>)
    ensures FoldFrom(f, a + b) == FoldFrom(FoldFrom(f, a), b)
    decreases |a|
  {
    if a == [] {
      assert a + b == b;
    } else {
      assert (a + b)[1..] == a[1..] + b;
      FoldConcat(Step(f, a[0]), a[1..], b);
    }
  }

  lemma FoldOne(f: Fold, r: Record)
    ensures FoldFrom(f, [r]) == Step(f, r)
  {
    assert [r][1..] == [];
  }

  // ---------------------------------------------------------------- payload

  datatype VideoEntry = VideoEntry(streamIndex: int, stream: Stream)

  // With readings, the position replaces the number the log gave.
  function Entries(streams: map<int, Stream>, renumber: bool): (r: seq<VideoEntry>) {
    var keys := Ascending(streams.Keys);
    seq(|keys|, i requires 0 <= i < |keys| =>
      VideoEntry(if renumber then i else keys[i], At(streams, keys[i])))
  }

  datatype Payload = Payload(details: Details, audio: Stream, video: seq<VideoEntry>, samples: seq<real>)

  function PayloadOf(f: Fold): Payload {
    Payload(f.details, f.audio, Entries(f.streams, f.samples != []), f.samples)
  }

  // The video block of a history.
  function Video(records: seq<Record>): seq<VideoEntry> { PayloadOf(FoldFrom(START, records)).video }

  // buildPayloadFromLines: one pass over the records.
  method BuildPayload(records: seq<Record>) returns (payload: Payload)
    ensures payload == PayloadOf(FoldFrom(START, records))
  {
    var details, audio, streams, samples := NO_DETAILS, EMPTY, map[], [];
    for k := 0 to |records|
      invariant Fold(details, audio, streams, samples) == FoldFrom(START, records[..k])
    {
      var r := records[k];
      FoldConcat(START, records[..k], [r]);
      assert records[..k] + [r] == records[..k + 1];
      FoldOne(Fold(details, audio, streams, samples), r);
      details := DetailsAfter(details, r);
      match r {
        case CallClosed(_, _, _) =>
          if IsFinal(r) && samples != [] {
            streams := map[];
          }
        case MediaSample(seconds) =>
          streams := map[];
          samples := samples + [seconds];
        case StatsValue(kind, index, field, tx, rx) =>
          if field != "" {
            if kind == "audio" {
              audio := PutBoth(audio, field, tx, rx);
            } else if kind == "video" {
              var i := if index.Some? then index.value else 0;
              streams := streams[i := PutBoth(At(streams, i), field, tx, rx)];
            }
          }
        case _ =>
      }
    }
    assert records[..|records|] == records;
    payload := PayloadOf(Fold(details, audio, streams, samples));
  }

  // ----------------------------------------- the streams the payload keeps

  // Readings clear what they printed; so does the final close, after a reading.
  ghost predicate Clears(records: seq<Record>, i: nat) {
    i < |records| &&
    (records[i].MediaSample? ||
     (IsFinal(records[i]) && exists j :: 0 <= j < i && records[j].MediaSample?))
  }

  // The tables of a stretch of records, on their own.
  function Tables(records: seq<Record>): map<int, Stream> {
    if records == [] then map[]
    else
      var before, r := Tables(records[..|records| - 1]), records[|records| - 1];
      if r.StatsValue? && r.kind == "video" && r.field != "" then
        var i := match r.index case Some(n) => n case None => 0;
        before[i := PutBoth(At(before, i), r.field, r.tx, r.rx)]
      else before
  }

  lemma {:induction false} FoldLast(records: seq<Record>)
    requires records != []
    ensures FoldFrom(START, records) ==
            Step(FoldFrom(START, records[..|records| - 1]), records[|records| - 1])
  {
    var before, r := records[..|records| - 1], records[|records| - 1];
    FoldConcat(START, before, [r]);
    FoldOne(FoldFrom(START, before), r);
    assert before + [r] == records;
  }

  lemma {:induction false} SamplesSeen(records: seq<Record>)
    ensures FoldFrom(START, records).samples != [] <==>
            exists j :: 0 <= j < |records| && records[j].MediaSample?
    decreases |records|
  {
    if records != [] {
      FoldLast(records);
      var before := records[..|records| - 1];
      SamplesSeen(before);
      assert forall j :: 0 <= j < |before| ==> before[j] == records[j];
    }
  }

  // The i-th record is the last one that clears.
  ghost predicate LastClear(records: seq<Record>, i: nat) {
    Clears(records, i) && forall j :: i < j < |records| ==> !Clears(records, j)
  }

  lemma ClearsInPrefix(records: seq<Record>, i: nat)
    requires i < |records| - 1
    ensures Clears(records[..|records| - 1], i) <==> Clears(records, i)
  {
    var before := records[..|records| - 1];
    assert forall j :: 0 <= j <= i ==> before[j] == records[j];
  }

  lemma LastClearBefore(records: seq<Record>, i: nat)
    requires LastClear(records, i) && i < |records| - 1
    ensures LastClear(records[..|records| - 1], i)
  {
    var before := records[..|records| - 1];
    ClearsInPrefix(records, i);
    forall j | i < j < |before|
      ensures !Clears(before, j)
    {
      ClearsInPrefix(records, j);
    }
  }

  // One record's effect on the streams.
  lemma {:induction false} ClearOrKeep(records: seq<Record>)
    requires records != []
    ensures var f, r := FoldFrom(START, records[..|records| - 1]), records[|records| - 1];
            FoldFrom(START, records) == Step(f, r) &&
            (Clears(records, |records| - 1) <==> r.MediaSample? || (IsFinal(r) && f.samples != []))
  {
    var before := records[..|records| - 1];
    FoldLast(records);
    SamplesSeen(before);
    assert forall j :: 0 <= j < |before| ==> before[j] == records[j];
  }

  lemma {:induction false} StreamsSinceClear(records: seq<Record>, i: nat)
    requires LastClear(records, i)
    ensures FoldFrom(START, records).streams == Tables(records[i + 1..])
    decreases |records|
  {
    ClearOrKeep(records);
    if i == |records| - 1 {
      assert records[i + 1..] == [];
    } else {
      LastClearBefore(records, i);
      StreamsSinceClear(records[..|records| - 1], i);
      LastOfTail(records, i + 1);
    }
  }

  lemma LastOfTail(records: seq<Record>, from: nat)
    requires from < |records|
    ensures records[from..][..|records| - from - 1] == records[..|records| - 1][from..]
    ensures records[from..][|records| - from - 1] == records[|records| - 1]
  {
  }

  // With at least one reading, the video list is made of the tables printed
  // after the last clearing record and of nothing else, in counter order,
  // numbered by position.
  lemma VideoIsSinceLastClear(records: seq<Record>, i: nat)
    requires LastClear(records, i)
    ensures var kept := Tables(records[i + 1..]);
            var video := Video(records);
            && |video| == |kept| == |Ascending(kept.Keys)|
            && (forall p :: 0 <= p < |video| ==> video[p].streamIndex == p)
            && (forall p :: 0 <= p < |video| ==>
                  Ascending(kept.Keys)[p] in kept && video[p].stream == kept[Ascending(kept.Keys)[p]])
  {
    StreamsSinceClear(records, i);
    SamplesSeen(records);
    if !records[i].MediaSample? {
      var j :| 0 <= j < i && records[j].MediaSample?;
    }
    var kept := Tables(records[i + 1..]);
    AscendingSorts(kept.Keys);
    forall p | 0 <= p < |Ascending(kept.Keys)|
      ensures Ascending(kept.Keys)[p] in kept
    {
      assert Ascending(kept.Keys)[p] in Ascending(kept.Keys);
    }
  }

  // ------------------------------------------------- what the figures are

  // What a record tells of a field, sent or received.
  function Told(r: Record, field: string, sent: bool): Option<real> {
    if r.StatsValue? && r.field == field && field != "" then (if sent then r.tx else r.rx) else None
  }

  predicate OfAudio(r: Record) { r.StatsValue? && r.kind == "audio" }

  // A record of a numbered video table; one without a number is of table 0.
  predicate OfVideo(r: Record, n: int) {
    r.StatsValue? && r.kind == "video" && n == if r.index.Some? then r.index.value else 0
  }

  // What the last record that tells something tells, none if none does.
  ghost predicate LastOf<T(!new)>(records: seq<Record>, tells: Record -> Option<T>, value: Option<T>) {
    if value.None? then forall r | r in records :: tells(r) == None
    else exists i :: IsLastOf(records, tells, value, i)
  }

  ghost predicate IsLastOf<T(!new)>(records: seq<Record>, tells: Record -> Option<T>, value: Option<T>, i: int) {
    && 0 <= i < |records| && tells(records[i]) == value
    && forall j :: i < j < |records| ==> tells(records[j]) == None
  }

  lemma LastOfStep<T(!new)>(records: seq<Record>, tells: Record -> Option<T>, value: Option<T>)
    requires records != [] && LastOf(records[..|records| - 1], tells, value)
    ensures var r := records[|records| - 1];
            LastOf(records, tells, if tells(r).Some? then tells(r) else value)
  {
    var init, r := records[..|records| - 1], records[|records| - 1];
    if tells(r).Some? {
      assert IsLastOf(records, tells, tells(r), |records| - 1);
    } else if value.Some? {
      var i :| IsLastOf(init, tells, value, i);
      assert forall j :: 0 <= j < |init| ==> init[j] == records[j];
      assert IsLastOf(records, tells, value, i);
    } else {
      assert forall x | x in records :: x in init || x == r;
    }
  }

  function AudioTold(field: string, sent: bool): Record -> Option<real> {
    (r: Record) => if OfAudio(r) then Told(r, field, sent) else None
  }

  function VideoTold(n: int, field: string, sent: bool): Record -> Option<real> {
    (r: Record) => if OfVideo(r, n) then Told(r, field, sent) else None
  }

  function Lookup(m: map<string, real>, field: string): Option<real> {
    if field in m then Some(m[field]) else None
  }

  function Side(s: Stream, sent: bool): map<string, real> { if sent then s.tx else s.rx }

  lemma PutOne(s: Stream, r: Record, field: string, sent: bool)
    requires r.StatsValue? && r.field != ""
    ensures Lookup(Side(PutBoth(s, r.field, r.tx, r.rx), sent), field) ==
            if Told(r, field, sent).Some? then Told(r, field, sent) else Lookup(Side(s, sent), field)
  {
  }

  // The payload's audio says of every field the last figure the history tells of
  // it, sent and received apart.
  lemma {:induction false} AudioFigures(records: seq<Record>, field: string, sent: bool)
    ensures LastOf(records, AudioTold(field, sent),
                   Lookup(Side(PayloadOf(FoldFrom(START, records)).audio, sent), field))
    decreases |records|
  {
    if records != [] {
      var init, r := records[..|records| - 1], records[|records| - 1];
      var before := FoldFrom(START, init);
      AudioFigures(init, field, sent);
      FoldLast(records);
      LastOfStep(records, AudioTold(field, sent), Lookup(Side(before.audio, sent), field));
      if OfAudio(r) && r.field != "" {
        PutOne(before.audio, r, field, sent);
      }
    }
  }

  // The numbers of the video tables that print a figure.
  function Printed(records: seq<Record>): set<int> {
    set r | r in records && r.StatsValue? && r.kind == "video" && r.field != "" ::
      if r.index.Some? then r.index.value else 0
  }

  lemma {:induction false} TableFigures(records: seq<Record>, n: int, field: string, sent: bool)
    ensures LastOf(records, VideoTold(n, field, sent), Lookup(Side(At(Tables(records), n), sent), field))
    decreases |records|
  {
    if records != [] {
      var init, r := records[..|records| - 1], records[|records| - 1];
      TableFigures(init, n, field, sent);
      LastOfStep(records, VideoTold(n, field, sent), Lookup(Side(At(Tables(init), n), sent), field));
      if OfVideo(r, n) && r.field != "" {
        PutOne(At(Tables(init), n), r, field, sent);
      }
    }
  }

  lemma {:induction false} TablesPrinted(records: seq<Record>)
    ensures Tables(records).Keys == Printed(records)
    decreases |records|
  {
    if records != [] {
      TablesPrinted(records[..|records| - 1]);
      PrintedStep(records);
    }
  }

  lemma PrintedStep(records: seq<Record>)
    requires records != []
    ensures var init, r := records[..|records| - 1], records[|records| - 1];
            Printed(records) == Printed(init) + Printed([r])
  {
    var init, r := records[..|records| - 1], records[|records| - 1];
    assert forall x :: x in records <==> x in init || x in [r];
  }

  // What no later record clears: all of a history without a clearing record, or
  // what comes after the last one.
  ghost predicate Since(records: seq<Record>, from: nat) {
    if from == 0 then forall i :: 0 <= i < |records| ==> !Clears(records, i)
    else LastClear(records, from - 1)
  }

  lemma {:induction false} StreamsAre(records: seq<Record>, from: nat)
    requires Since(records, from)
    ensures from <= |records| && FoldFrom(START, records).streams == Tables(records[from..])
    decreases |records|
  {
    if from > 0 {
      StreamsSinceClear(records, from - 1);
    } else if records != [] {
      var init := records[..|records| - 1];
      forall i | 0 <= i < |init|
        ensures !Clears(init, i)
      {
        ClearsInPrefix(records, i);
      }
      StreamsAre(init, 0);
      ClearOrKeep(records);
      assert records[0..] == records && init[0..] == init;
    } else {
      assert records[0..] == [];
    }
  }

  // The payload's video has one entry for each number that a table printed a
  // figure under since the last clearing record, in increasing order, and it says
  // of every field the last figure told of it there, sent and received apart.
  lemma VideoFigures(records: seq<Record>, from: nat, p: nat, field: string, sent: bool)
    requires Since(records, from)
    ensures from <= |records| && |Video(records)| == |Ascending(Printed(records[from..]))|
    ensures p < |Video(records)| ==>
      var n, entry := Ascending(Printed(records[from..]))[p], Video(records)[p];
      && entry.streamIndex == (if FoldFrom(START, records).samples != [] then p else n)
      && LastOf(records[from..], VideoTold(n, field, sent), Lookup(Side(entry.stream, sent), field))
  {
    StreamsAre(records, from);
    var rest := records[from..];
    TablesPrinted(rest);
    if p < |Video(records)| {
      TableFigures(rest, Ascending(Printed(rest))[p], field, sent);
    }
  }

  // ------------------------------------------- what the details come to

  function FirstStart(records: seq<Record>): string {
    if records == [] then ""
    else if records[0].CallStart? && records[0].timestamp != "" then records[0].timestamp
    else FirstStart(records[1..])
  }

  function LastEnd(records: seq<Record>): string {
    if records == [] then ""
    else FirstNonEmpty(LastEnd(records[1..]), if records[0].CallEnd? then records[0].timestamp else "")
  }

  // A call starts with its first start record and ends with its last end record.
  lemma {:induction false} FirstStartLastEnd(f: Fold, records: seq<Record>)
    ensures FoldFrom(f, records).details.callStart == FirstNonEmpty(f.details.callStart, FirstStart(records))
    ensures FoldFrom(f, records).details.callEnd == FirstNonEmpty(LastEnd(records), f.details.callEnd)
    decreases |records|
  {
    if records != [] {
      FirstStartLastEnd(Step(f, records[0]), records[1..]);
    }
  }

  function RoomTold(): Record -> Option<string> { (r: Record) => if r.Room? then Some(r.value) else None }

  function BrowsingTold(): Record -> Option<string> { (r: Record) => if r.Browsing? then Some(r.value) else None }

  function AudioEncoderTold(): Record -> Option<string> {
    (r: Record) => if r.Encoder? && r.media == "audio" then Some(r.value) else None
  }

  // What the records tell, one after the other.
  function AllOf<T>(records: seq<Record>, tells: Record -> Option<T>): seq<T> {
    if records == [] then []
    else AllOf(records[..|records| - 1], tells) +
         match tells(records[|records| - 1]) case Some(v) => [v] case None => []
  }

  function VideoEncoderTold(): Record -> Option<string> {
    (r: Record) => if r.Encoder? && r.media == "video" then Some(r.value) else None
  }

  function DtmfTold(): Record -> Option<(string, string)> {
    (r: Record) => if r.Dtmf? && r.timestamp != "" && r.input != "" then Some((r.timestamp, r.input)) else None
  }

  lemma LastDetails(records: seq<Record>) returns (before: Details)
    requires records != []
    ensures before == FoldFrom(START, records[..|records| - 1]).details
    ensures FoldFrom(START, records).details == DetailsAfter(before, records[|records| - 1])
  {
    before := FoldFrom(START, records[..|records| - 1]).details;
    FoldLast(records);
  }

  // The room, the browsing and the audio encoder are the last ones told; the
  // video encoders and the keys pressed are all of them, in order.
  lemma {:induction false} RoomSays(records: seq<Record>) returns (value: Option<string>)
    ensures LastOf(records, RoomTold(), value) && FoldFrom(START, records).details.room == ValueOr(value, "")
    decreases |records|
  {
    value := None;
    if records != [] {
      var before := LastDetails(records);
      value := RoomSays(records[..|records| - 1]);
      LastOfStep(records, RoomTold(), value);
      var told := RoomTold()(records[|records| - 1]);
      value := if told.Some? then told else value;
    }
  }

  lemma {:induction false} BrowsingSays(records: seq<Record>) returns (value: Option<string>)
    ensures LastOf(records, BrowsingTold(), value) && FoldFrom(START, records).details.browsing == ValueOr(value, "")
    decreases |records|
  {
    value := None;
    if records != [] {
      var before := LastDetails(records);
      value := BrowsingSays(records[..|records| - 1]);
      LastOfStep(records, BrowsingTold(), value);
      var told := BrowsingTold()(records[|records| - 1]);
      value := if told.Some? then told else value;
    }
  }

  lemma {:induction false} AudioEncoderSays(records: seq<Record>)
    ensures LastOf(records, AudioEncoderTold(), FoldFrom(START, records).details.audioEncoder)
    decreases |records|
  {
    if records != [] {
      var before := LastDetails(records);
      AudioEncoderSays(records[..|records| - 1]);
      LastOfStep(records, AudioEncoderTold(), before.audioEncoder);
    }
  }

  lemma {:induction false} VideoEncodersSay(records: seq<Record>)
    ensures FoldFrom(START, records).details.videoEncoders == AllOf(records, VideoEncoderTold())
    decreases |records|
  {
    if records != [] {
      var before := LastDetails(records);
      VideoEncodersSay(records[..|records| - 1]);
    }
  }

  lemma {:induction false} DtmfSays(records: seq<Record>)
    ensures FoldFrom(START, records).details.dtmf == AllOf(records, DtmfTold())
    decreases |records|
  {
    if records != [] {
      var before := LastDetails(records);
      DtmfSays(records[..|records| - 1]);
    }
  }

  lemma DetailsSay(records: seq<Record>) returns (room: Option<string>, browsing: Option<string>)
    ensures var d := FoldFrom(START, records).details;
            && LastOf(records, RoomTold(), room) && d.room == ValueOr(room, "")
            && LastOf(records, BrowsingTold(), browsing) && d.browsing == ValueOr(browsing, "")
            && LastOf(records, AudioEncoderTold(), d.audioEncoder)
            && d.videoEncoders == AllOf(records, VideoEncoderTold())
            && d.dtmf == AllOf(records, DtmfTold())
  {
    room := RoomSays(records);
    browsing := BrowsingSays(records);
    AudioEncoderSays(records);
    VideoEncodersSay(records);
    DtmfSays(records);
  }

  function SecondsTold(): Record -> Option<real> {
    (r: Record) => if r.MediaSample? then Some(r.seconds) else None
  }

  // The readings are all there, in order, whatever closes in between.
  lemma {:induction false} SamplesSay(records: seq<Record>)
    ensures FoldFrom(START, records).samples == AllOf(records, SecondsTold())
    decreases |records|
  {
    if records != [] {
      FoldLast(records);
      SamplesSay(records[..|records| - 1]);
    }
  }

  predicate ClosesForGood(r: Record) { r.CallClosed? && r.eventType == "CALL_CLOSED" }

  // A state of the call that counts: one that closes it for good, or any before
  // the first that does.
  ghost predicate Heard(records: seq<Record>, i: int) {
    && 0 <= i < |records| && records[i].CallClosed?
    && (ClosesForGood(records[i]) || forall j :: 0 <= j < i ==> !ClosesForGood(records[j]))
  }

  // The last non-empty part told by the states that count, "" if none is.
  ghost predicate LastHeard(records: seq<Record>, part: Record -> string, value: string) {
    if value == "" then forall i | Heard(records, i) :: part(records[i]) == ""
    else exists i :: IsLastHeard(records, part, value, i)
  }

  ghost predicate IsLastHeard(records: seq<Record>, part: Record -> string, value: string, i: int) {
    && Heard(records, i) && part(records[i]) == value
    && forall j | i < j && Heard(records, j) :: part(records[j]) == ""
  }

  lemma HeardBefore(records: seq<Record>, i: int)
    requires 0 <= i < |records| - 1
    ensures Heard(records[..|records| - 1], i) <==> Heard(records, i)
  {
    assert forall j :: 0 <= j <= i ==> records[..|records| - 1][j] == records[j];
  }

  lemma LastHeardStep(records: seq<Record>, part: Record -> string, value: string)
    requires records != [] && LastHeard(records[..|records| - 1], part, value)
    ensures var n := |records| - 1;
            LastHeard(records, part, if Heard(records, n) then FirstNonEmpty(part(records[n]), value) else value)
  {
    var n := |records| - 1;
    var init := records[..n];
    forall i | 0 <= i < n
      ensures Heard(init, i) <==> Heard(records, i)
      ensures init[i] == records[i]
    {
      HeardBefore(records, i);
    }
    if Heard(records, n) && part(records[n]) != "" {
      assert IsLastHeard(records, part, part(records[n]), n);
    } else if value != "" {
      var i :| IsLastHeard(init, part, value, i);
      assert IsLastHeard(records, part, value, i);
    }
  }

  function IdPart(): Record -> string { (r: Record) => if r.CallClosed? then r.callId else "" }

  function ReasonPart(): Record -> string { (r: Record) => if r.CallClosed? then r.closeReason else "" }

  function TypePart(): Record -> string { (r: Record) => if r.CallClosed? then r.eventType else "" }

  lemma {:induction false} ClosedSays(records: seq<Record>)
    ensures FoldFrom(START, records).details.closedFinally <==>
            exists i :: 0 <= i < |records| && ClosesForGood(records[i])
    decreases |records|
  {
    if records != [] {
      var before := LastDetails(records);
      ClosedSays(records[..|records| - 1]);
      assert forall j :: 0 <= j < |records| - 1 ==> records[..|records| - 1][j] == records[j];
    }
  }

  // The last record counts exactly when the fold does not ignore it.
  lemma CountsNow(records: seq<Record>)
    requires records != []
    ensures var before, r := FoldFrom(START, records[..|records| - 1]).details, records[|records| - 1];
            Heard(records, |records| - 1) <==> r.CallClosed? && !Ignored(before, r)
  {
    ClosedSays(records[..|records| - 1]);
    assert forall j :: 0 <= j < |records| - 1 ==> records[..|records| - 1][j] == records[j];
  }

  lemma {:induction false} IdSays(records: seq<Record>)
    ensures LastHeard(records, IdPart(), FoldFrom(START, records).details.callId)
    decreases |records|
  {
    if records != [] {
      var before := LastDetails(records);
      IdSays(records[..|records| - 1]);
      CountsNow(records);
      LastHeardStep(records, IdPart(), before.callId);
    }
  }

  lemma {:induction false} ReasonSays(records: seq<Record>)
    ensures LastHeard(records, ReasonPart(), FoldFrom(START, records).details.closeReason)
    decreases |records|
  {
    if records != [] {
      var before := LastDetails(records);
      ReasonSays(records[..|records| - 1]);
      CountsNow(records);
      LastHeardStep(records, ReasonPart(), before.closeReason);
    }
  }

  lemma {:induction false} TypeSays(records: seq<Record>)
    ensures LastHeard(records, TypePart(), FoldFrom(START, records).details.lastEventType)
    decreases |records|
  {
    if records != [] {
      var before := LastDetails(records);
      TypeSays(records[..|records| - 1]);
      CountsNow(records);
      LastHeardStep(records, TypePart(), before.lastEventType);
    }
  }

  // The identifier, the reason and the type of the close are the last ones told
  // by the states that count, each apart; the call is closed for good once one
  // state closes it.
  lemma CloseSays(records: seq<Record>)
    ensures var d := FoldFrom(START, records).details;
            && LastHeard(records, IdPart(), d.callId) && LastHeard(records, ReasonPart(), d.closeReason)
            && LastHeard(records, TypePart(), d.lastEventType)
            && (d.closedFinally <==> exists i :: 0 <= i < |records| && ClosesForGood(records[i]))
  {
    IdSays(records);
    ReasonSays(records);
    TypeSays(records);
    ClosedSays(records);
  }

  // The records without the states of the call that are not final.
  function FinalOnly(records: seq<Record>): seq<Record> {
    if records == [] then []
    else (if records[0].CallClosed? && !IsFinal(records[0]) then [] else [records[0]]) + FinalOnly(records[1..])
  }

  // Once the call is closed for good, states of it that are not final change nothing.
  lemma {:induction false} LateStatesChangeNothing(f: Fold, records: seq<Record>)
    requires f.details.closedFinally
    ensures FoldFrom(f, records) == FoldFrom(f, FinalOnly(records))
    decreases |records|
  {
    if records != [] {
      var r, rest := records[0], records[1..];
      LateStatesChangeNothing(Step(f, r), rest);
      if r.CallClosed? && !IsFinal(r) {
        assert Step(f, r) == f;
        assert FinalOnly(records) == FinalOnly(rest);
      } else {
        assert FinalOnly(records)[0] == r && FinalOnly(records)[1..] == FinalOnly(rest);
      }
    }
  }

  // -------------------------------------------------------------- log lines

  // Value is any line that reads "label: rest"; `ends` is the instant when it
  // also announces the end, as "ua: stop all" does.
  datatype Line =
    | Header(media: string, stream: Option<nat>)
    | Value(named: string, nums: seq<real>, ends: Option<string>)
    | SampleLine(seconds: real)
    | ClosedLine(id: string, reason: string, at: string)
    | OtherLine(records: seq<Record>)     // any line that touches neither tables nor the close

  function FieldOf(named: string): Option<string> {
    match named
    case "packets" => Some("packets")
    case "errors" => Some("errors")
    case "pkt.report" => Some("packetReports")
    case "avg. bitrate" => Some("avgBitrateKbps")
    case "lost" => Some("lostPackets")
    case "jitter" => Some("jitterMs")
    case _ => None
  }

  // The labels that are figures, each of a field of its own.
  lemma FieldsAre(named: string, other: string)
    ensures FieldOf(named).Some? <==> named in {"packets", "errors", "pkt.report", "avg. bitrate", "lost", "jitter"}
    ensures FieldOf("packets") == Some("packets") && FieldOf("errors") == Some("errors")
    ensures FieldOf("pkt.report") == Some("packetReports") && FieldOf("avg. bitrate") == Some("avgBitrateKbps")
    ensures FieldOf("lost") == Some("lostPackets") && FieldOf("jitter") == Some("jitterMs")
    ensures FieldOf(named).Some? && FieldOf(named) == FieldOf(other) ==> named == other
  {
  }

  datatype Counter = Counter(media: Option<string>, stream: Option<int>, autoIndex: int, lastFinal: Option<string>)

  const FRESH := Counter(None, None, -1, None)

  function Nth(nums: seq<real>, i: nat): Option<real> { if i < |nums| then Some(nums[i]) else None }

  function Max(a: int, b: int): int { if a >= b then a else b }

  // A table's header names the stream or takes the next number.
  function CounterAfter(c: Counter, line: Line): Counter {
    match line
    case Header(media, stream) =>
      if media != "video" then c.(media := Some(media), stream := None)
      else
        var n := match stream case Some(k) => k as int case None => c.autoIndex + 1;
        c.(media := Some(media), stream := Some(n), autoIndex := Max(c.autoIndex, n))
    case ClosedLine(id, _, _) => if id != "" then c.(lastFinal := Some(id)) else c
    case _ => c
  }

  predicate Duplicate(c: Counter, line: Line) {
    line.ClosedLine? && line.id != "" && c.lastFinal == Some(line.id)
  }

  // A table was begun; none is ever left, so that every later "label: rest" is
  // taken for a figure.
  predicate InTable(media: Option<string>) { media == Some("audio") || media == Some("video") }

  function Emitted(c: Counter, line: Line): seq<Record> {
    match line
    case Header(_, _) => []
    case Value(named, nums, ends) =>
      if InTable(c.media) then
        if FieldOf(named).Some?
        then [StatsValue(c.media.value, c.stream, FieldOf(named).value, Nth(nums, 0), Nth(nums, 1))]
        else []
      else if ends.Some? then [CallEnd(ends.value)]
      else []
    case SampleLine(seconds) => [MediaSample(seconds)]
    case ClosedLine(id, reason, at) =>
      if Duplicate(c, line) then [] else [CallClosed(id, reason, "CALL_CLOSED"), CallEnd(at)]
    case OtherLine(records) => records
  }

  ghost predicate WellFormed(line: Line) {
    && (line.Header? ==> InTable(Some(line.media)))
    && (line.OtherLine? ==> forall r | r in line.records :: !r.StatsValue? && !r.MediaSample? && !r.CallClosed?)
  }

  function After(c: Counter, lines: seq<Line>): Counter
    decreases |lines|
  {
    if lines == [] then c else After(CounterAfter(c, lines[0]), lines[1..])
  }

  function History(c: Counter, lines: seq<Line>): seq<Record>
    decreases |lines|
  {
    if lines == [] then [] else Emitted(c, lines[0]) + History(CounterAfter(c, lines[0]), lines[1..])
  }

  lemma HistoryCons(c: Counter, line: Line, rest: seq<Line>)
    ensures History(c, [line] + rest) == Emitted(c, line) + History(CounterAfter(c, line), rest)
  {
    assert ([line] + rest)[1..] == rest;
  }

  lemma {:induction false} HistoryConcat(c: Counter, a: seq<Line>, b: seq<Line>)
    ensures History(c, a + b) == History(c, a) + History(After(c, a), b)
    ensures After(c, a + b) == After(After(c, a), b)
    decreases |a|
  {
    if a == [] {
      assert a + b == b;
    } else {
      assert (a + b)[1..] == a[1..] + b;
      HistoryConcat(CounterAfter(c, a[0]), a[1..], b);
    }
  }

  // main: the parser's own state, and the history file it appends to.
  class LogParser {
    var currentMedia: Option<string>
    var currentStream: Option<int>
    var videoAutoIndex: int
    var lastFinalCallId: Option<string>
    var history: seq<Record>

    constructor ()
      ensures State() == FRESH && history == []
    {
      currentMedia, currentStream, videoAutoIndex, lastFinalCallId := None, None, -1, None;
      history := [];
    }

    function State(): Counter
      reads this
    {
      Counter(currentMedia, currentStream, videoAutoIndex, lastFinalCallId)
    }

    method OnLine(line: Line)
      modifies this
      ensures State() == CounterAfter(old(State()), line)
      ensures history == old(history) + Emitted(old(State()), line)
    {
      match line {
        case Header(media, stream) =>
          currentMedia := Some(media);
          if media == "video" {
            if stream.Some? {
              currentStream := Some(stream.value);
              videoAutoIndex := Max(videoAutoIndex, stream.value);
            } else {
              videoAutoIndex := videoAutoIndex + 1;
              currentStream := Some(videoAutoIndex);
            }
          } else {
            currentStream := None;
          }
        case Value(named, nums, ends) =>
          var field := FieldOf(named);
          if currentMedia == Some("audio") || currentMedia == Some("video") {
            if field.Some? {
              history := history
                + [StatsValue(currentMedia.value, currentStream, field.value, Nth(nums, 0), Nth(nums, 1))];
            }
          } else if ends.Some? {
            history := history + [CallEnd(ends.value)];
          }
        case SampleLine(seconds) =>
          history := history + [MediaSample(seconds)];
        case ClosedLine(id, reason, at) =>
          if id != "" && lastFinalCallId == Some(id) {
            return;
          }
          if id != "" {
            lastFinalCallId := Some(id);
          }
          history := history + [CallClosed(id, reason, "CALL_CLOSED"), CallEnd(at)];
        case OtherLine(records) =>
          history := history + records;
      }
    }

    method OnLines(lines: seq<Line>)
      modifies this
      ensures State() == After(old(State()), lines)
      ensures history == old(history) + History(old(State()), lines)
    {
      assert lines[..0] == [];
      ghost var c := State();
      for k := 0 to |lines|
        invariant State() == After(c, lines[..k])
        invariant history == old(history) + History(c, lines[..k])
      {
        LineMore(c, lines, k);
        OnLine(lines[k]);
      }
      assert lines[..|lines|] == lines;
    }
  }

  lemma LineMore(c: Counter, lines: seq<Line>, k: nat)
    requires k < |lines|
    ensures After(c, lines[..k + 1]) == CounterAfter(After(c, lines[..k]), lines[k])
    ensures History(c, lines[..k + 1]) == History(c, lines[..k]) + Emitted(After(c, lines[..k]), lines[k])
  {
    HistoryConcat(c, lines[..k], [lines[k]]);
    assert lines[..k] + [lines[k]] == lines[..k + 1];
    OneLine(After(c, lines[..k]), lines[k]);
  }

  lemma OneLine(c: Counter, line: Line)
    ensures History(c, [line]) == Emitted(c, line) && After(c, [line]) == CounterAfter(c, line)
  {
    assert [line][1..] == [];
  }

  // ------------------------------------- what readings change

  // A line that is part of a reading: its tables, and the reading's event.
  predicate IsReading(line: Line) {
    line.Header? || line.SampleLine? || (line.Value? && line.ends.None?)
  }

  // The log with the readings taken out.
  function WithoutReadings(lines: seq<Line>): seq<Line> {
    if lines == [] then []
    else (if IsReading(lines[0]) then [] else [lines[0]]) + WithoutReadings(lines[1..])
  }

  lemma {:induction false} NothingRead(c: Counter, f: Fold, lines: seq<Line>)
    requires forall l | l in lines :: WellFormed(l) && !IsReading(l)
    requires f.samples == [] && f.streams == map[] && !InTable(c.media)
    ensures After(c, lines).autoIndex == c.autoIndex && After(c, lines).media == c.media
    ensures FoldFrom(f, History(c, lines)).samples == [] && FoldFrom(f, History(c, lines)).streams == map[]
    decreases |lines|
  {
    if lines != [] {
      var records := Emitted(c, lines[0]);
      assert lines[0] in lines;
      FoldConcat(f, records, History(CounterAfter(c, lines[0]), lines[1..]));
      QuietRecords(f, records);
      NothingRead(CounterAfter(c, lines[0]), FoldFrom(f, records), lines[1..]);
    }
  }

  lemma {:induction false} QuietRecords(f: Fold, records: seq<Record>)
    requires forall r | r in records :: !r.StatsValue? && !r.MediaSample?
    requires f.samples == [] || forall r | r in records :: !r.CallClosed?
    ensures FoldFrom(f, records).samples == f.samples && FoldFrom(f, records).streams == f.streams
    decreases |records|
  {
    if records != [] {
      assert records[0] in records;
      QuietRecords(Step(f, records[0]), records[1..]);
    }
  }

  lemma {:induction false} KeptLines(lines: seq<Line>)
    ensures forall l | l in WithoutReadings(lines) :: l in lines && !IsReading(l)
  {
    if lines != [] {
      KeptLines(lines[1..]);
    }
  }

  // The last event of the log before the block: a reading, or the close of a
  // call that had one, reported for the first time.
  ghost predicate EndsReadings(lines: seq<Line>) {
    lines != [] &&
    var before, last := lines[..|lines| - 1], lines[|lines| - 1];
    last.SampleLine? ||
    (last.ClosedLine? && !Duplicate(After(FRESH, before), last) && exists l | l in before :: l.SampleLine?)
  }

  lemma {:induction false} SamplesKept(c: Counter, f: Fold, lines: seq<Line>)
    requires f.samples != [] || exists l | l in lines :: l.SampleLine?
    ensures FoldFrom(f, History(c, lines)).samples != []
    decreases |lines|
  {
    if lines != [] {
      var records := Emitted(c, lines[0]);
      FoldConcat(f, records, History(CounterAfter(c, lines[0]), lines[1..]));
      SamplesOnlyGrow(f, records);
      if lines[0].SampleLine? {
        FoldOne(f, records[0]);
      } else if f.samples == [] {
        var l :| l in lines && l.SampleLine?;
        assert l in lines[1..];
      }
      SamplesKept(CounterAfter(c, lines[0]), FoldFrom(f, records), lines[1..]);
    }
  }

  lemma {:induction false} SamplesOnlyGrow(f: Fold, records: seq<Record>)
    ensures f.samples <= FoldFrom(f, records).samples
    decreases |records|
  {
    if records != [] {
      SamplesOnlyGrow(Step(f, records[0]), records[1..]);
    }
  }

  lemma ClearedByReadings(lines: seq<Line>)
    requires EndsReadings(lines)
    ensures var f := FoldFrom(START, History(FRESH, lines));
            f.streams == map[] && f.samples != []
  {
    var n := |lines| - 1;
    var before, last := lines[..n], lines[n];
    var records := Emitted(After(FRESH, before), last);
    LineMore(FRESH, lines, n);
    assert lines[..n + 1] == lines;
    FoldConcat(START, History(FRESH, before), records);
    var f := FoldFrom(START, History(FRESH, before));
    if last.SampleLine? {
      FoldOne(f, records[0]);
    } else {
      SamplesKept(FRESH, START, before);
      ClosedClears(f, records);
    }
  }

  lemma ClosedClears(f: Fold, records: seq<Record>)
    requires f.samples != [] && |records| == 2 && IsFinal(records[0]) && records[1].CallEnd?
    ensures FoldFrom(f, records).streams == map[] && FoldFrom(f, records).samples == f.samples
  {
    FoldConcat(f, [records[0]], [records[1]]);
    assert [records[0]] + [records[1]] == records;
    FoldOne(f, records[0]);
    FoldOne(Step(f, records[0]), records[1]);
  }

  lemma {:induction false} SameLastFinal(c: Counter, d: Counter, lines: seq<Line>)
    requires c.lastFinal == d.lastFinal
    ensures After(c, lines).lastFinal == After(d, WithoutReadings(lines)).lastFinal
    decreases |lines|
  {
    if lines != [] {
      var l, rest := lines[0], lines[1..];
      if IsReading(l) {
        SameLastFinal(CounterAfter(c, l), d, rest);
        assert WithoutReadings(lines) == WithoutReadings(rest);
      } else {
        SameLastFinal(CounterAfter(c, l), CounterAfter(d, l), rest);
        assert WithoutReadings(lines)[0] == l && WithoutReadings(lines)[1..] == WithoutReadings(rest);
      }
    }
  }

  // ------------------------------------------- the tables after the readings

  predicate Known(line: Line) { line.Value? && FieldOf(line.named).Some? }

  // What can follow the last reading: unnumbered tables, other lines, and the
  // close of the call reported again.
  ghost predicate BlockLine(line: Line, lastFinal: Option<string>) {
    && WellFormed(line) && !line.SampleLine?
    && (line.Header? ==> line.stream.None?)
    && (line.ClosedLine? ==> line.id != "" && lastFinal == Some(line.id))
  }

  // The table being printed, and every video table with what it said of its
  // stream, if anything.
  datatype Seen = Seen(media: Option<string>, tables: seq<Option<Stream>>)

  function Said(s: Option<Stream>, line: Line): Stream
    requires Known(line)
  {
    PutBoth(ValueOr(s, EMPTY), FieldOf(line.named).value, Nth(line.nums, 0), Nth(line.nums, 1))
  }

  function SeeLine(s: Seen, line: Line): Seen {
    if line.Header? then Seen(Some(line.media), if line.media == "video" then s.tables + [None] else s.tables)
    else if Known(line) && s.media == Some("video") && s.tables != [] then
      var last := |s.tables| - 1;
      s.(tables := s.tables[last := Some(Said(s.tables[last], line))])
    else s
  }

  function See(s: Seen, lines: seq<Line>): Seen
    decreases |lines|
  {
    if lines == [] then s else See(SeeLine(s, lines[0]), lines[1..])
  }

  // The video tables of a block, in the order they were printed.
  function VideoTables(block: seq<Line>): seq<Option<Stream>> { See(Seen(None, []), block).tables }

  // No empty table is followed by one that says something.
  ghost predicate NoGap(tables: seq<Option<Stream>>) {
    forall i, j :: 0 <= i < j < |tables| && tables[i].None? ==> tables[j].None?
  }

  // A figure printed before any header of the block.
  predicate Stray(block: seq<Line>) {
    block != [] && !block[0].Header? && (Known(block[0]) || Stray(block[1..]))
  }

  // ------------------------------------------------- where the tables end up

  ghost predicate Increasing(at: seq<int>) { forall i, j :: 0 <= i < j < |at| ==> at[i] < at[j] }

  // The streams of the tables under their numbers.
  function Placed(tables: seq<Option<Stream>>, at: seq<int>): map<int, Stream>
    requires |tables| == |at|
  {
    if tables == [] then map[]
    else
      var n := |tables| - 1;
      var before := Placed(tables[..n], at[..n]);
      if tables[n].Some? then before[at[n] := tables[n].value] else before
  }

  lemma {:induction false} PlacedIs(tables: seq<Option<Stream>>, at: seq<int>)
    requires |tables| == |at| && Increasing(at)
    ensures forall i :: 0 <= i < |at| ==> (at[i] in Placed(tables, at) <==> tables[i].Some?)
    ensures forall i :: 0 <= i < |at| && tables[i].Some? ==> Placed(tables, at)[at[i]] == tables[i].value
    ensures forall k :: k in Placed(tables, at) ==> k in at
  {
    if tables != [] {
      var n := |tables| - 1;
      PlacedIs(tables[..n], at[..n]);
      assert at == at[..n] + [at[n]];
      assert at[n] !in at[..n];
    }
  }

  // The tables that say something, by position.
  function Filled(tables: seq<Option<Stream>>): seq<nat> {
    if tables == [] then []
    else Filled(tables[..|tables| - 1]) + if tables[|tables| - 1].Some? then [|tables| - 1] else []
  }

  // The places of the tables that say something, in order.
  ghost predicate Places(tables: seq<Option<Stream>>, places: seq<nat>) {
    && (forall p :: 0 <= p < |places| ==> places[p] < |tables| && tables[places[p]].Some?)
    && (forall i :: 0 <= i < |tables| && tables[i].Some? ==> i in places)
    && (forall p, q :: 0 <= p < q < |places| ==> places[p] < places[q])
  }

  lemma PlacesMore(tables: seq<Option<Stream>>, places: seq<nat>)
    requires tables != [] && Places(tables[..|tables| - 1], places)
    ensures Places(tables, places + if tables[|tables| - 1].Some? then [|tables| - 1] else [])
  {
    var n := |tables| - 1;
    var all := places + if tables[n].Some? then [n] else [];
    forall i | 0 <= i < |tables| && tables[i].Some?
      ensures i in all
    {
      if i < n {
        assert tables[..n][i].Some?;
      } else {
        assert all[|places|] == n;
      }
    }
  }

  lemma {:induction false} FilledIs(tables: seq<Option<Stream>>)
    ensures Places(tables, Filled(tables))
  {
    if tables != [] {
      FilledIs(tables[..|tables| - 1]);
      PlacesMore(tables, Filled(tables[..|tables| - 1]));
    }
  }

  ghost predicate FirstPlaces(places: seq<nat>) { forall p :: 0 <= p < |places| ==> places[p] == p }

  // The tables that say something are the first ones, exactly without a gap.
  lemma FilledFirst(tables: seq<Option<Stream>>)
    ensures NoGap(tables) <==> FirstPlaces(Filled(tables))
  {
    if NoGap(tables) {
      FirstOnes(tables);
    } else {
      var i, j :| 0 <= i < j < |tables| && tables[i].None? && tables[j].Some?;
      FilledIs(tables);
      var p :| 0 <= p < |Filled(tables)| && Filled(tables)[p] == j;
      MissesPlace(Filled(tables), p, i);
    }
  }

  lemma MissesPlace(places: seq<nat>, p: nat, i: nat)
    requires p < |places| && i < places[p] && i !in places
    ensures !FirstPlaces(places)
  {
    assert places[p] == p ==> places[i] in places;
  }

  lemma {:induction false} FirstOnes(tables: seq<Option<Stream>>)
    requires NoGap(tables)
    ensures FirstPlaces(Filled(tables))
    ensures (forall i :: 0 <= i < |tables| ==> tables[i].Some?) ==> |Filled(tables)| == |tables|
  {
    if tables != [] {
      var n := |tables| - 1;
      FirstOnes(tables[..n]);
      assert tables[n].Some? ==> forall i :: 0 <= i < n ==> tables[i].Some?;
      assert forall i :: 0 <= i < n ==> tables[..n][i] == tables[i];
    }
  }

  // The video block of the tables: what they said, under their position or
  // under their number.
  function VideoOf(tables: seq<Option<Stream>>, at: seq<int>, renumber: bool): seq<VideoEntry>
    requires |tables| == |at|
  {
    FilledIs(tables);
    var filled := Filled(tables);
    seq(|filled|, i requires 0 <= i < |filled| =>
      VideoEntry(if renumber then i else at[filled[i]], ValueOr(tables[filled[i]], EMPTY)))
  }

  lemma EntriesOfPlaced(tables: seq<Option<Stream>>, at: seq<int>, renumber: bool)
    requires |tables| == |at| && Increasing(at)
    ensures Entries(Placed(tables, at), renumber) == VideoOf(tables, at, renumber)
  {
    var keys := KeysOfPlaced(tables, at);
    FilledIs(tables);
    PlacedIs(tables, at);
    EntriesIs(Placed(tables, at), keys, renumber, VideoOf(tables, at, renumber));
  }

  lemma KeysOfPlaced(tables: seq<Option<Stream>>, at: seq<int>) returns (keys: seq<int>)
    requires |tables| == |at| && Increasing(at)
    ensures keys == Ascending(Placed(tables, at).Keys) && |keys| == |Filled(tables)|
    ensures forall i :: 0 <= i < |keys| ==> Filled(tables)[i] < |at| && keys[i] == at[Filled(tables)[i]]
  {
    var filled := Filled(tables);
    FilledIs(tables);
    PlacedIs(tables, at);
    keys := seq(|filled|, i requires 0 <= i < |filled| => at[filled[i]]);
    forall k
      ensures k in Placed(tables, at).Keys <==> k in keys
    {
      if k in Placed(tables, at) {
        var i :| 0 <= i < |at| && at[i] == k;
        assert i in filled;
        var p :| 0 <= p < |filled| && filled[p] == i;
        assert keys[p] == k;
      }
    }
    AscendingIs(Placed(tables, at).Keys, keys);
  }

  lemma EntriesIs(streams: map<int, Stream>, keys: seq<int>, renumber: bool, video: seq<VideoEntry>)
    requires keys == Ascending(streams.Keys) && |video| == |keys|
    requires forall i :: 0 <= i < |keys| ==>
      video[i] == VideoEntry(if renumber then i else keys[i], At(streams, keys[i]))
    ensures Entries(streams, renumber) == video
  {
  }

  // --------------------------------------------------- the block, line by line

  // The counter and the fold hold the tables seen, under the numbers `at`.
  ghost predicate Holds(c: Counter, f: Fold, s: Seen, at: seq<int>) {
    && |at| == |s.tables| && Increasing(at) && (forall k | k in at :: k <= c.autoIndex)
    && c.media == s.media && (c.media == Some("video") ==> at != [] && c.stream == Some(at[|at| - 1]))
    && f.streams == Placed(s.tables, at)
  }

  // The next table takes the next number.
  function Numbers(at: seq<int>, next: int, line: Line): seq<int> {
    if line.Header? && line.media == "video" then at + [next] else at
  }

  lemma HeaderKeeps(c: Counter, f: Fold, s: Seen, at: seq<int>, line: Line)
    requires Holds(c, f, s, at) && line.Header? && line.stream.None?
    ensures Holds(CounterAfter(c, line), f, SeeLine(s, line), Numbers(at, c.autoIndex + 1, line))
  {
    if line.media == "video" {
      NoneMore(s.tables, at, c.autoIndex + 1);
    }
  }

  lemma {:induction false} NoneMore(tables: seq<Option<Stream>>, at: seq<int>, next: int)
    requires |tables| == |at| && Increasing(at) && forall k | k in at :: k < next
    ensures Placed(tables + [None], at + [next]) == Placed(tables, at)
    ensures Increasing(at + [next])
  {
    assert (at + [next])[..|at|] == at && (tables + [None])[..|at|] == tables;
    assert forall i :: 0 <= i < |at| ==> at[i] in at;
  }

  lemma ValueKeeps(c: Counter, f: Fold, s: Seen, at: seq<int>, line: Line)
    requires Holds(c, f, s, at) && line.Value?
    ensures Holds(c, FoldFrom(f, Emitted(c, line)), SeeLine(s, line), at)
    ensures FoldFrom(f, Emitted(c, line)).samples == f.samples
  {
    if Emitted(c, line) != [] {
      FoldOne(f, Emitted(c, line)[0]);
      if c.media == Some("video") {
        var n := |at| - 1;
        PlacedIs(s.tables, at);
        assert SeeLine(s, line).tables[..n] == s.tables[..n];
      }
    }
  }

  lemma BlockStep(c: Counter, f: Fold, s: Seen, at: seq<int>, line: Line)
    requires Holds(c, f, s, at) && BlockLine(line, c.lastFinal)
    ensures Holds(CounterAfter(c, line), FoldFrom(f, Emitted(c, line)), SeeLine(s, line),
                  Numbers(at, c.autoIndex + 1, line))
    ensures FoldFrom(f, Emitted(c, line)).samples == f.samples
    ensures CounterAfter(c, line).lastFinal == c.lastFinal
    ensures CounterAfter(c, line).autoIndex == c.autoIndex + if line.Header? && line.media == "video" then 1 else 0
  {
    match line
    case Header(_, _) => HeaderKeeps(c, f, s, at, line);
    case Value(_, _, _) => ValueKeeps(c, f, s, at, line);
    case OtherLine(records) => QuietRecords(f, records);
    case ClosedLine(_, _, _) =>
  }

  lemma {:induction false} BlockFold(c: Counter, f: Fold, s: Seen, at: seq<int>, block: seq<Line>)
      returns (after: seq<int>)
    requires Holds(c, f, s, at) && forall l | l in block :: BlockLine(l, c.lastFinal)
    ensures Holds(After(c, block), FoldFrom(f, History(c, block)), See(s, block), after)
    ensures FoldFrom(f, History(c, block)).samples == f.samples
    ensures at <= after && forall i :: |at| <= i < |after| ==> after[i] == c.autoIndex + 1 + i - |at|
    decreases |block|
  {
    after := at;
    if block != [] {
      var l, rest := block[0], block[1..];
      assert l in block;
      BlockStep(c, f, s, at, l);
      FoldConcat(f, Emitted(c, l), History(CounterAfter(c, l), rest));
      after := BlockFold(CounterAfter(c, l), FoldFrom(f, Emitted(c, l)), SeeLine(s, l),
                         Numbers(at, c.autoIndex + 1, l), rest);
    }
  }

  // The block alone decides, once what came before it left no stream but
  // perhaps an open table.
  lemma BlockVideo(lines: seq<Line>, block: seq<Line>, open: seq<int>) returns (at: seq<int>)
    requires FoldFrom(START, History(FRESH, lines)).streams == map[]
    requires forall l | l in block :: BlockLine(l, After(FRESH, lines).lastFinal)
    requires var c := After(FRESH, lines);
             if c.media == Some("video") then c.stream.Some? && open == [c.stream.value] && open[0] <= c.autoIndex
             else open == []
    ensures var tables := See(Seen(After(FRESH, lines).media, Unsaid(|open|)), block).tables;
            && |at| == |tables| && open <= at
            && (forall i :: |open| <= i < |at| ==> at[i] == After(FRESH, lines).autoIndex + 1 + i - |open|)
            && Video(History(FRESH, lines + block)) ==
               VideoOf(tables, at, FoldFrom(START, History(FRESH, lines)).samples != [])
  {
    var f, c := FoldFrom(START, History(FRESH, lines)), After(FRESH, lines);
    HistoryConcat(FRESH, lines, block);
    FoldConcat(START, History(FRESH, lines), History(c, block));
    var s := Seen(c.media, Unsaid(|open|));
    assert Placed(s.tables, open) == map[] by {
      assert open != [] ==> Placed(s.tables[..0], open[..0]) == map[];
    }
    at := BlockFold(c, f, s, open, block);
    var g := FoldFrom(f, History(c, block));
    assert g == FoldFrom(START, History(FRESH, lines + block));
    EntriesOfPlaced(See(s, block).tables, at, f.samples != []);
  }

  function Unsaid(n: nat): (tables: seq<Option<Stream>>)
    ensures |tables| == n
  {
    if n == 0 then [] else Unsaid(n - 1) + [None]
  }

  lemma {:induction false} CounterSound(c: Counter, lines: seq<Line>)
    requires c.media == Some("video") ==> c.stream.Some? && c.stream.value <= c.autoIndex
    ensures var d := After(c, lines); d.media == Some("video") ==> d.stream.Some? && d.stream.value <= d.autoIndex
    decreases |lines|
  {
    if lines != [] {
      CounterSound(CounterAfter(c, lines[0]), lines[1..]);
    }
  }

  // ------------------------------------------- tables open before the block

  // Tables already closed stay as they are.
  lemma {:induction false} SeeApart(x: Option<Stream>, s: Seen, lines: seq<Line>)
    requires s.media == Some("video") ==> s.tables != []
    ensures See(Seen(s.media, [x] + s.tables), lines).tables == [x] + See(s, lines).tables
    decreases |lines|
  {
    if lines != [] {
      var l, t := lines[0], SeeLine(s, lines[0]);
      SeeApart(x, t, lines[1..]);
      assert SeeLine(Seen(s.media, [x] + s.tables), l) == Seen(t.media, [x] + t.tables) by {
        assert [x] + s.tables + [None] == [x] + (s.tables + [None]);
        if s.tables != [] && Known(l) && s.media == Some("video") {
          var n := |s.tables| - 1;
          var y := Some(Said(s.tables[n], l));
          assert ([x] + s.tables)[n + 1 := y] == [x] + s.tables[n := y];
        }
      }
    }
  }

  // A video table left open before the block is one more table, and it says
  // something exactly when a figure comes before any header.
  lemma {:induction false} OpenTable(x: Option<Stream>, block: seq<Line>) returns (y: Option<Stream>)
    ensures See(Seen(Some("video"), [x]), block).tables == [y] + VideoTables(block)
    ensures y.Some? <==> x.Some? || Stray(block)
    decreases |block|
  {
    y := x;
    if block != [] {
      var l, rest := block[0], block[1..];
      if l.Header? {
        var s := SeeLine(Seen(None, []), l);
        assert SeeLine(Seen(Some("video"), [x]), l) == Seen(s.media, [x] + s.tables);
        SeeApart(x, s, rest);
      } else {
        var z := if Known(l) then Some(Said(x, l)) else x;
        assert SeeLine(Seen(Some("video"), [x]), l).tables == [z];
        assert SeeLine(Seen(None, []), l) == Seen(None, []);
        y := OpenTable(z, rest);
      }
    }
  }

  // Any other table left open is not seen.
  lemma {:induction false} OpenOther(media: Option<string>, block: seq<Line>)
    requires media != Some("video")
    ensures See(Seen(media, []), block).tables == VideoTables(block)
    decreases |block|
  {
    if block != [] && !block[0].Header? {
      OpenOther(media, block[1..]);
    }
  }

  // ---------------------------------------------------------- the two blocks

  // After the last reading or the close, a call with readings gives the same
  // video block as the same log with the readings taken out, exactly when no
  // empty video table comes before one that says something and no figure is
  // left over from a table of the readings.
  lemma {:induction false} ReadingsChangeNoVideo(lines: seq<Line>, block: seq<Line>)
    requires EndsReadings(lines) && forall l | l in lines :: WellFormed(l)
    requires forall l | l in block :: BlockLine(l, After(FRESH, lines).lastFinal)
    ensures Video(History(FRESH, lines + block)) == Video(History(FRESH, WithoutReadings(lines) + block)) <==>
            NoGap(VideoTables(block)) && !(After(FRESH, lines).media == Some("video") && Stray(block))
  {
    var c, kept, tables := After(FRESH, lines), WithoutReadings(lines), VideoTables(block);
    ClearedByReadings(lines);
    KeptLines(lines);
    NothingRead(FRESH, START, kept);
    SameLastFinal(FRESH, FRESH, lines);
    CounterSound(FRESH, lines);
    var with := BlockVideo(lines, block, if c.media == Some("video") then [c.stream.value] else []);
    var without := BlockVideo(kept, block, []);
    if c.media == Some("video") {
      assert Unsaid(1) == [None];
      var y := OpenTable(None, block);
      SameBlocks(tables, [y] + tables, with, without);
    } else {
      OpenOther(c.media, block);
      SameBlocks(tables, tables, with, without);
    }
  }

  // By position with a table more in front, by number without: the same block
  // exactly when that table is empty and there is no gap.
  lemma SameBlocks(tables: seq<Option<Stream>>, more: seq<Option<Stream>>, with: seq<int>, without: seq<int>)
    requires |with| == |more| && |without| == |tables|
    requires forall i :: 0 <= i < |without| ==> without[i] == i
    requires more == tables || (more != [] && more == [more[0]] + tables)
    ensures VideoOf(more, with, true) == VideoOf(tables, without, false) <==>
            NoGap(tables) && (more == tables || more[0].None?)
  {
    FilledFirst(tables);
    FilledIs(tables);
    if more != tables {
      FilledMore(more[0], tables);
      if more[0].None? {
        SaidTheSame(tables, more);
      }
    }
    ComparePositions(tables, more, with, without);
  }

  lemma SaidTheSame(tables: seq<Option<Stream>>, more: seq<Option<Stream>>)
    requires more != [] && more == [more[0]] + tables && more[0].None?
    ensures SameSaid(tables, Filled(tables), more, Filled(more))
  {
    FilledMore(more[0], tables);
    FilledIs(tables);
    assert Filled(more) == OneOn(Filled(tables));
    Shifted(tables, Filled(tables), more, Filled(more));
  }

  lemma Shifted(tables: seq<Option<Stream>>, places: seq<nat>, more: seq<Option<Stream>>, morePlaces: seq<nat>)
    requires more != [] && more == [more[0]] + tables && morePlaces == OneOn(places)
    requires forall p :: 0 <= p < |places| ==> places[p] < |tables|
    ensures SameSaid(tables, places, more, morePlaces)
  {
    forall p | 0 <= p < |places|
      ensures places[p] < |tables| && morePlaces[p] < |more| && tables[places[p]] == more[morePlaces[p]]
    {
      var i := places[p];
      assert morePlaces[p] == i + 1 && more[i + 1] == tables[i];
    }
  }

  lemma ComparePositions(tables: seq<Option<Stream>>, more: seq<Option<Stream>>, with: seq<int>, without: seq<int>)
    requires |with| == |more| && |without| == |tables|
    requires forall i :: 0 <= i < |without| ==> without[i] == i
    requires |Filled(more)| == |Filled(tables)| ==> SameSaid(tables, Filled(tables), more, Filled(more))
    ensures VideoOf(more, with, true) == VideoOf(tables, without, false) <==>
            |Filled(more)| == |Filled(tables)| && FirstPlaces(Filled(tables))
  {
    FilledIs(tables);
    FilledIs(more);
    var a, b := VideoOf(more, with, true), VideoOf(tables, without, false);
    var places := Filled(tables);
    if a == b {
      assert |a| == |b|;
      forall p | 0 <= p < |places|
        ensures places[p] == p
      {
        assert a[p].streamIndex == p && b[p].streamIndex == without[places[p]];
      }
    }
  }

  ghost predicate SameSaid(tables: seq<Option<Stream>>, places: seq<nat>,
                           more: seq<Option<Stream>>, morePlaces: seq<nat>) {
    |morePlaces| == |places| &&
    forall p :: 0 <= p < |places| ==>
      places[p] < |tables| && morePlaces[p] < |more| && tables[places[p]] == more[morePlaces[p]]
  }

  // One more table in front shifts the others.
  lemma {:induction false} FilledMore(y: Option<Stream>, tables: seq<Option<Stream>>)
    ensures Filled([y] + tables) == (if y.Some? then [0] else []) + OneOn(Filled(tables))
  {
    if tables == [] {
      assert [y] + tables == [y] && [y][..0] == [];
    } else {
      var n := |tables| - 1;
      FilledMore(y, tables[..n]);
      assert ([y] + tables)[..n + 1] == [y] + tables[..n];
      assert ([y] + tables)[n + 1] == tables[n];
      if tables[n].Some? {
        assert OneOn(Filled(tables[..n]) + [n]) == OneOn(Filled(tables[..n])) + [n + 1];
      }
    }
  }

  function OneOn(places: seq<nat>): (r: seq<nat>)
    ensures |r| == |places|
  {
    seq(|places|, i requires 0 <= i < |places| => places[i] + 1)
  }

  // An empty video table before one with figures: the readings renumber it.
  lemma EmptyTableFirst()
    ensures var lines := [SampleLine(0.0)];
            var block := [Header("video", None), Header("video", None), Value("packets", [1.0, 2.0], None)];
            Video(History(FRESH, lines + block)) != Video(History(FRESH, WithoutReadings(lines) + block))
  {
    var lines := [SampleLine(0.0)];
    var block := [Header("video", None), Header("video", None), Value("packets", [1.0, 2.0], None)];
    assert block[1..] == [block[1], block[2]] && block[1..][1..] == [block[2]] && [block[2]][1..] == [];
    var s := See(Seen(Some("video"), [None, None]), [block[2]]);
    assert VideoTables(block) == s.tables && s.tables[0].None? && s.tables[1].Some?;
    OneLine(FRESH, lines[0]);
    ReadingsChangeNoVideo(lines, block);
  }

  // ----------------------------------------------------------- numbered tables

  // What can follow the last reading when the video tables are numbered.
  ghost predicate NumberedLine(line: Line, lastFinal: Option<string>) {
    && WellFormed(line) && !line.SampleLine?
    && (line.Header? && line.media == "video" ==> line.stream.Some?)
    && (line.ClosedLine? ==> line.id != "" && lastFinal == Some(line.id))
  }

  // The numbers under which figures are printed; `open` is the number of the
  // video table being printed.
  function Figured(open: Option<int>, block: seq<Line>): set<int>
    decreases |block|
  {
    if block == [] then {}
    else
      var l, rest := block[0], block[1..];
      if l.Header? then
        Figured(if l.media == "video" && l.stream.Some? then Some(l.stream.value as int) else None, rest)
      else (if Known(l) && open.Some? then {open.value} else {}) + Figured(open, rest)
  }

  ghost predicate NoneSkipped(numbers: set<int>) {
    forall n, m | n in numbers && 0 <= m <= n :: m in numbers
  }

  // Both parsers print into the same video table, or into none.
  ghost predicate SameTable(c: Counter, d: Counter, open: Option<int>, block: seq<Line>) {
    && c.lastFinal == d.lastFinal
    && if open.Some? then c.media == d.media == Some("video") && c.stream == d.stream == open
       else d.media != Some("video") && (c.media == Some("video") ==> !Stray(block))
  }

  lemma FigureStep(c: Counter, d: Counter, f: Fold, g: Fold, open: Option<int>, block: seq<Line>)
      returns (next: Option<int>, more: set<int>)
    requires block != [] && NumberedLine(block[0], d.lastFinal) && SameTable(c, d, open, block)
    requires f.streams == g.streams
    ensures SameTable(CounterAfter(c, block[0]), CounterAfter(d, block[0]), next, block[1..])
    ensures CounterAfter(d, block[0]).lastFinal == d.lastFinal
    ensures var f', g' := FoldFrom(f, Emitted(c, block[0])), FoldFrom(g, Emitted(d, block[0]));
            && f'.streams == g'.streams && f'.samples == f.samples && g'.samples == g.samples
            && f'.streams.Keys == f.streams.Keys + more
    ensures Figured(open, block) == more + Figured(next, block[1..])
  {
    var l := block[0];
    next, more := open, {};
    match l
    case Header(media, stream) =>
      next := if media == "video" && stream.Some? then Some(stream.value as int) else None;
    case Value(_, _, _) =>
      FigureOne(c, f, l);
      FigureOne(d, g, l);
      more := if Known(l) && open.Some? then {open.value} else {};
    case OtherLine(records) =>
      QuietRecords(f, records);
      QuietRecords(g, records);
    case ClosedLine(_, _, _) =>
  }

  lemma FigureOne(c: Counter, f: Fold, l: Line)
    requires l.Value?
    ensures var f' := FoldFrom(f, Emitted(c, l));
            && f'.samples == f.samples
            && f'.streams == if Known(l) && c.media == Some("video")
                             then f.streams[ValueOr(c.stream, 0) := Said(Some(At(f.streams, ValueOr(c.stream, 0))), l)]
                             else f.streams
  {
    if Emitted(c, l) != [] {
      FoldOne(f, Emitted(c, l)[0]);
    }
  }

  lemma {:induction false} SameStreams(c: Counter, d: Counter, f: Fold, g: Fold, open: Option<int>, block: seq<Line>)
    requires f.streams == g.streams && SameTable(c, d, open, block)
    requires forall l | l in block :: NumberedLine(l, d.lastFinal)
    ensures var f', g' := FoldFrom(f, History(c, block)), FoldFrom(g, History(d, block));
            && f'.streams == g'.streams && f'.samples == f.samples && g'.samples == g.samples
            && f'.streams.Keys == f.streams.Keys + Figured(open, block)
    decreases |block|
  {
    if block != [] {
      var l, rest := block[0], block[1..];
      assert l in block;
      var next, more := FigureStep(c, d, f, g, open, block);
      FoldConcat(f, Emitted(c, l), History(CounterAfter(c, l), rest));
      FoldConcat(g, Emitted(d, l), History(CounterAfter(d, l), rest));
      SameStreams(CounterAfter(c, l), CounterAfter(d, l), FoldFrom(f, Emitted(c, l)), FoldFrom(g, Emitted(d, l)),
                  next, rest);
    }
  }

  // With numbered tables and no stray figure the block is the same exactly when
  // no number is skipped.
  lemma {:induction false} NumberedTables(lines: seq<Line>, block: seq<Line>)
    requires EndsReadings(lines) && forall l | l in lines :: WellFormed(l)
    requires forall l | l in block :: NumberedLine(l, After(FRESH, lines).lastFinal)
    requires After(FRESH, lines).media == Some("video") ==> !Stray(block)
    ensures Video(History(FRESH, lines + block)) == Video(History(FRESH, WithoutReadings(lines) + block)) <==>
            NoneSkipped(Figured(None, block))
  {
    var kept := WithoutReadings(lines);
    var c, d := After(FRESH, lines), After(FRESH, kept);
    var f, g := FoldFrom(START, History(FRESH, lines)), FoldFrom(START, History(FRESH, kept));
    ClearedByReadings(lines);
    KeptLines(lines);
    NothingRead(FRESH, START, kept);
    SameLastFinal(FRESH, FRESH, lines);
    SameStreams(c, d, f, g, None, block);
    HistoryConcat(FRESH, lines, block);
    HistoryConcat(FRESH, kept, block);
    FoldConcat(START, History(FRESH, lines), History(c, block));
    FoldConcat(START, History(FRESH, kept), History(d, block));
    var streams := FoldFrom(f, History(c, block)).streams;
    FiguredNumbers(None, block);
    NumberedByPosition(streams);
  }

  lemma {:induction false} FiguredNumbers(open: Option<int>, block: seq<Line>)
    requires open.Some? ==> open.value >= 0
    ensures forall n | n in Figured(open, block) :: n >= 0
    decreases |block|
  {
    if block != [] {
      var l := block[0];
      FiguredNumbers(if !l.Header? then open
                     else if l.media == "video" && l.stream.Some? then Some(l.stream.value as int)
                     else None, block[1..]);
    }
  }

  lemma NumberedByPosition(streams: map<int, Stream>)
    requires forall n | n in streams :: n >= 0
    ensures Entries(streams, true) == Entries(streams, false) <==> NoneSkipped(streams.Keys)
  {
    var keys, a, b := Ascending(streams.Keys), Entries(streams, true), Entries(streams, false);
    AscendingSorts(streams.Keys);
    if NoneSkipped(streams.Keys) {
      forall i | 0 <= i < |keys|
        ensures keys[i] == i
      {
        AtItsPlace(streams.Keys, keys, i);
      }
    }
    if a == b {
      forall i | 0 <= i < |keys|
        ensures keys[i] == i
      {
        assert a[i].streamIndex == i && b[i].streamIndex == keys[i];
      }
      forall n, m | n in streams.Keys && 0 <= m <= n
        ensures m in streams.Keys
      {
        var p :| 0 <= p < |keys| && keys[p] == n;
        assert keys[m] in keys;
      }
    }
  }

  lemma {:induction false} AtItsPlace(numbers: set<int>, keys: seq<int>, i: nat)
    requires NoneSkipped(numbers) && (forall n :: n in keys <==> n in numbers) && (forall n | n in numbers :: n >= 0)
    requires Increasing(keys) && i < |keys|
    ensures keys[i] == i
  {
    if i > 0 {
      AtItsPlace(numbers, keys, i - 1);
    }
    assert keys[i] in keys && i in keys;
    var p :| 0 <= p < |keys| && keys[p] == i;
  }

  // An end announced as "label: rest" is recorded exactly when no table was
  // printed before it; afterwards the call keeps the end it had.
  lemma EndNeedsNoTable(lines: seq<Line>, named: string, nums: seq<real>, at: string)
    requires at != "" && forall l | l in lines :: WellFormed(l)
    ensures var before := FoldFrom(START, History(FRESH, lines)).details;
            var after := FoldFrom(START, History(FRESH, lines + [Value(named, nums, Some(at))])).details;
            after == if exists l :: l in lines && l.Header? then before else before.(callEnd := at)
  {
    var c, end := After(FRESH, lines), Value(named, nums, Some(at));
    TableSeen(FRESH, lines);
    HistoryConcat(FRESH, lines, [end]);
    OneLine(c, end);
    FoldConcat(START, History(FRESH, lines), Emitted(c, end));
    EndEmitted(c, FoldFrom(START, History(FRESH, lines)), end, at);
  }

  lemma EndEmitted(c: Counter, f: Fold, end: Line, at: string)
    requires end.Value? && end.ends == Some(at) && at != ""
    ensures FoldFrom(f, Emitted(c, end)).details ==
            if InTable(c.media) then f.details else f.details.(callEnd := at)
  {
    if Emitted(c, end) != [] {
      FoldOne(f, Emitted(c, end)[0]);
    }
  }

  lemma {:induction false} TableSeen(c: Counter, lines: seq<Line>)
    requires forall l | l in lines :: WellFormed(l)
    ensures InTable(After(c, lines).media) <==> InTable(c.media) || exists l :: l in lines && l.Header?
    decreases |lines|
  {
    if lines != [] {
      assert WellFormed(lines[0]);
      TableSeen(CounterAfter(c, lines[0]), lines[1..]);
      assert forall l :: l in lines <==> l == lines[0] || l in lines[1..];
    }
  }

  // Everything but the end.
  function ButEnd(d: Details): Details { d.(callEnd := "") }

  // An end announced among the tables.
  predicate LosesEnd(media: Option<string>, lines: seq<Line>)
    decreases |lines|
  {
    lines != [] &&
    var l := lines[0];
    (l.Value? && l.ends.Some? && InTable(media)) ||
    LosesEnd(if l.Header? then Some(l.media) else media, lines[1..])
  }

  // Nor do they change anything else the payload says of the call, but for an
  // end announced among the tables.
  lemma {:induction false} ReadingsChangeNoDetail(c: Counter, d: Counter, f: Fold, g: Fold, lines: seq<Line>)
    requires c.lastFinal == d.lastFinal && ButEnd(f.details) == ButEnd(g.details) && !InTable(d.media)
    ensures var with, without := FoldFrom(f, History(c, lines)), FoldFrom(g, History(d, WithoutReadings(lines)));
            && ButEnd(with.details) == ButEnd(without.details)
            && (f.details == g.details && !LosesEnd(c.media, lines) ==> with.details == without.details)
    decreases |lines|
  {
    if lines != [] {
      var l, rest := lines[0], lines[1..];
      var c', f' := CounterAfter(c, l), FoldFrom(f, Emitted(c, l));
      FoldConcat(f, Emitted(c, l), History(c', rest));
      if IsReading(l) {
        OneEmitted(f, f, Emitted(c, l));
        ReadingsChangeNoDetail(c', d, f', g, rest);
        assert WithoutReadings(lines) == WithoutReadings(rest);
      } else {
        var d', g' := CounterAfter(d, l), FoldFrom(g, Emitted(d, l));
        HistoryCons(d, l, WithoutReadings(rest));
        FoldConcat(g, Emitted(d, l), History(d', WithoutReadings(rest)));
        if l.Value? {
          OneEmitted(f, g, Emitted(c, l));
          OneEmitted(g, g, Emitted(d, l));
        } else {
          SameDetails(f, g, Emitted(c, l));
        }
        ReadingsChangeNoDetail(c', d', f', g', rest);
      }
    }
  }

  lemma {:induction false} OneEmitted(f: Fold, g: Fold, records: seq<Record>)
    requires |records| <= 1
    requires records != [] ==> records[0].StatsValue? || records[0].MediaSample? || records[0].CallEnd?
    ensures ButEnd(FoldFrom(f, records).details) == ButEnd(f.details)
    ensures (records == [] || !records[0].CallEnd?) ==> FoldFrom(f, records).details == f.details
    ensures f.details == g.details ==> FoldFrom(f, records).details == FoldFrom(g, records).details
  {
    if records != [] {
      FoldOne(f, records[0]);
      FoldOne(g, records[0]);
    }
  }

  lemma {:induction false} SameDetails(f: Fold, g: Fold, records: seq<Record>)
    requires ButEnd(f.details) == ButEnd(g.details)
    ensures ButEnd(FoldFrom(f, records).details) == ButEnd(FoldFrom(g, records).details)
    ensures f.details == g.details ==> FoldFrom(f, records).details == FoldFrom(g, records).details
    decreases |records|
  {
    if records != [] {
      SameDetails(Step(f, records[0]), Step(g, records[0]), records[1..]);
    }
  }
}
