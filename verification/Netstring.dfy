// Netstring framing over a byte stream (D. J. Bernstein's netstrings,
// section 2 "Definition"), as src/netstring.py reads and writes it. The stream
// is ASCII: one char stands for one byte.
module Netstring {
  import opened Text

  // "<length>:<payload>,"
  function Frame(payload: string): string {
    Decimal(|payload|) + ":" + payload + ","
  }

  // --------------------------------------------------------------- decoding

  // Nothing: no input, an empty dict. Malformed: the split has no second part.
  datatype Decoded = Payload(text: string) | Nothing | Malformed

  // The length as written, and its colon: what the text is split on.
  function Separator(s: string): string
    requires s != ""
  {
    (match Position(s, ':') case Some(i) => s[..i] case None => s[..|s| - 1]) + ":"
  }

  // The second part of the split, less its last character.
  function SecondPart(rest: string, separator: string): string {
    var part := match Find(rest, separator) case Some(j) => rest[..j] case None => rest;
    if part == "" then "" else part[..|part| - 1]
  }

  // The text handed to the JSON reader.
  function Decode(s: string): Decoded {
    if s == "" then Nothing
    else
      match Find(s, Separator(s))
      case None => Malformed
      case Some(i) => Payload(SecondPart(s[i + |Separator(s)|..], Separator(s)))
  }

  // Decoding gives the payload back exactly when the payload does not hold its
  // own length followed by a colon.
  lemma {:induction false} DecodeFrame(payload: string)
    ensures Decode(Frame(payload)) == Payload(payload)
            <==> !Contains(payload, Decimal(|payload|) + ":")
  {
    var separator, rest := Decimal(|payload|) + ":", payload + ",";
    FindsFirst(rest, separator, 0);
    DecodeCutsAtSeparator(payload);
    SeparatorInRest(payload, separator);
    match Find(rest, separator)
    case Some(j) =>
      assert Contains(payload, separator);
      assert |rest[..j]| < |payload| + 1;
    case None =>
      assert rest[..|rest| - 1] == payload;
  }

  // A payload that begins with its own length and a colon.
  lemma OwnLengthIsLost()
    ensures Decode(Frame("3:a")) != Payload("3:a")
  {
    DecodeFrame("3:a");
    assert Decimal(3) == "3";
    assert OccursAt("3:a", "3:", 0);
  }

  lemma {:induction false} DecodeCutsAtSeparator(payload: string)
    ensures Decode(Frame(payload)) == Payload(SecondPart(payload + ",", Decimal(|payload|) + ":"))
  {
    FrameSeparator(payload);
    FrameSplits(payload);
    DecodeParts(Frame(payload), Decimal(|payload|) + ":", payload + ",");
  }

  lemma FrameSplits(payload: string)
    ensures Frame(payload) == (Decimal(|payload|) + ":") + (payload + ",")
  {
  }

  lemma DecodeParts(s: string, separator: string, rest: string)
    requires s == separator + rest && s != "" && Separator(s) == separator
    ensures Decode(s) == Payload(SecondPart(rest, separator))
  {
    FindLeading(separator, rest);
  }

  lemma {:induction false} FrameSeparator(payload: string)
    ensures Separator(Frame(payload)) == Decimal(|payload|) + ":"
  {
    FrameParts(payload, "");
    assert Frame(payload) + "" == Frame(payload);
    FirstColon(Frame(payload), Decimal(|payload|));
  }

  lemma FindLeading(sub: string, rest: string)
    ensures Find(sub + rest, sub) == Some(0)
    ensures (sub + rest)[0 + |sub|..] == rest
  {
    assert (sub + rest)[0..0 + |sub|] == sub;
  }

  // The separator ends with a colon: the closing comma takes no part in it.
  lemma SeparatorInRest(payload: string, separator: string)
    requires separator != "" && separator[|separator| - 1] == ':'
    ensures forall j: nat :: OccursAt(payload + ",", separator, j) <==> OccursAt(payload, separator, j)
  {
    var rest := payload + ",";
    forall j: nat
      ensures OccursAt(rest, separator, j) <==> OccursAt(payload, separator, j)
    {
      if j + |separator| <= |payload| {
        assert rest[j..j + |separator|] == payload[j..j + |separator|];
      } else if j + |separator| == |rest| {
        assert rest[j..j + |separator|][|separator| - 1] == ',';
      }
    }
  }

  lemma FrameParts(payload: string, tail: string)
    ensures Decimal(|payload|) + ":" <= Frame(payload) + tail
    ensures |Frame(payload)| == |Decimal(|payload|)| + 2 + |payload|
  {
    assert Frame(payload) + tail == (Decimal(|payload|) + ":") + (payload + "," + tail);
  }

  // The first colon of a frame is the one after its length.
  lemma FirstColon(s: string, digits: string)
    requires AllDigits(digits) && digits + ":" <= s
    ensures Position(s, ':') == Some(|digits|) && s[..|digits|] == digits
  {
    var start := digits + ":";
    assert s[|digits|] == start[|digits|];
    assert forall j :: 0 <= j < |digits| ==> s[j] == start[j] == digits[j];
    PositionIs(s, ':', |digits|);
  }

  // ---------------------------------------------------------------- reading

  const HEAD := 8
  const CHUNK := 1024

  function Min(a: nat, b: nat): nat { if a <= b then a else b }

  // How many characters before the first digit.
  function Junk(s: string): (n: nat)
    ensures n <= |s| && (n < |s| ==> IsDigit(s[n]))
    ensures forall i :: 0 <= i < n ==> !IsDigit(s[i])
  {
    JunkFrom(s, 0)
  }

  function JunkFrom(s: string, k: nat): (n: nat)
    requires k <= |s|
    ensures k <= n <= |s| && (n < |s| ==> IsDigit(s[n]))
    ensures forall i :: k <= i < n ==> !IsDigit(s[i])
    decreases |s| - k
  {
    if k < |s| && !IsDigit(s[k]) then JunkFrom(s, k + 1) else k
  }

  // What is still to be read once `head` is there and its junk is dropped; a
  // length that is not a number stops the reading (the exception is logged and
  // what was received is returned).
  function StillToRead(body: string, preRead: int): int {
    match Position(body, ':')
    case None => 0
    case Some(colon) =>
      if colon == 0 || !AllDigits(body[..colon]) then 0
      else colon + 2 + Value(body[..colon]) - preRead
  }

  function More(head: string): int {
    StillToRead(head[Junk(head)..], HEAD - Junk(head))
  }

  // Where the reading stops once its first packet is known, `size` bytes being left.
  function Reach(size: nat, head: string): (r: nat)
    requires |head| <= size
    ensures |head| <= r <= size
  {
    if More(head) <= 0 then |head| else Min(|head| + More(head), size)
  }

  datatype Reading = Reading(received: string, consumed: nat)

  // One status, when every read brings all that was asked for or the stream ends.
  function ReadNext(rest: string): (r: Reading)
    ensures |r.received| <= r.consumed <= |rest|
  {
    var head := rest[..Min(HEAD, |rest|)];
    Reading(rest[Junk(head)..Reach(|rest|, head)], Reach(|rest|, head))
  }

  // The exact condition: the colon lies within the first eight bytes read, and
  // those eight do not reach past the frame (or nothing follows it).
  ghost predicate Fits(junk: string, payload: string, tail: string) {
    && |junk| + |Decimal(|payload|)| < 8
    && (|junk| + |Frame(payload)| >= 8 || tail == "")
  }

  lemma {:induction false} ReadsExactlyOneFrame(junk: string, payload: string, tail: string)
    requires forall i :: 0 <= i < |junk| ==> !IsDigit(junk[i])
    ensures ReadNext(junk + Frame(payload) + tail) ==
            Reading(Frame(payload), |junk| + |Frame(payload)|)
            <==> Fits(junk, payload, tail)
  {
    var frame := Frame(payload);
    var rest := junk + frame + tail;
    var n := Min(HEAD, |rest|);
    assert rest == junk + (frame + tail);
    HeadReads(junk, payload, tail, rest, n);
    assert rest[|junk|..|junk| + |frame|] == frame;
  }

  // What the first packet says of the frame to come.
  lemma HeadReads(junk: string, payload: string, tail: string, rest: string, n: nat)
    requires forall i :: 0 <= i < |junk| ==> !IsDigit(junk[i])
    requires rest == junk + (Frame(payload) + tail) && n == Min(HEAD, |rest|)
    ensures var head := rest[..n];
            && Junk(head) == Min(|junk|, n)
            && More(head) == (if |junk| + |Decimal(|payload|)| < n then |Frame(payload)| - (HEAD - |junk|) else 0)
  {
    FrameParts(payload, tail);
    DecimalRoundTrip(|payload|);
    HeadOfNumber(junk, Frame(payload) + tail, Decimal(|payload|), n);
  }

  lemma {:induction false} HeadOfNumber(junk: string, s: string, digits: string, n: nat)
    requires forall i :: 0 <= i < |junk| ==> !IsDigit(junk[i])
    requires digits != "" && AllDigits(digits) && digits + ":" <= s && n == Min(HEAD, |junk + s|)
    ensures var head := (junk + s)[..n];
            && Junk(head) == Min(|junk|, n)
            && More(head) == (if |junk| + |digits| < n then |digits| + 2 + Value(digits) - (HEAD - |junk|) else 0)
  {
    if |junk| < n {
      StartsWith(s, digits);
      HeadOfFrame(junk, s, n);
      BodyOfNumber(s, digits, n - |junk|);
      MoreOfBody((junk + s)[..n], s[..n - |junk|], digits);
    } else {
      assert (junk + s)[..n] == junk[..n];
      OnlyJunk(junk[..n]);
    }
  }

  lemma StartsWith(s: string, digits: string)
    requires digits != "" && digits + ":" <= s
    ensures s[0] == digits[0]
  {
    assert s[0] == (digits + ":")[0];
  }

  lemma BodyOfNumber(s: string, digits: string, k: nat)
    requires digits + ":" <= s && k <= |s|
    ensures if |digits| < k then digits + ":" <= s[..k] else s[..k] <= digits
  {
    var start := digits + ":";
    assert forall j :: 0 <= j < |start| ==> s[j] == start[j];
    if k <= |digits| {
      assert forall j :: 0 <= j < k ==> s[..k][j] == digits[j];
    }
  }

  lemma MoreOfBody(head: string, body: string, digits: string)
    requires head[Junk(head)..] == body && digits != "" && AllDigits(digits)
    requires if |digits| < |body| then digits + ":" <= body else body <= digits
    ensures More(head) == if |digits| < |body| then |digits| + 2 + Value(digits) - (HEAD - Junk(head)) else 0
  {
    if |digits| < |body| {
      FirstColon(body, digits);
    } else {
      assert forall j :: 0 <= j < |body| ==> body[j] == digits[j];
    }
  }

  lemma MoreWithoutColon(head: string)
    requires Position(head[Junk(head)..], ':') == None
    ensures More(head) == 0
  {
  }

  lemma OnlyJunk(s: string)
    requires forall i :: 0 <= i < |s| ==> !IsDigit(s[i])
    ensures Junk(s) == |s| && More(s) == 0
  {
    assert s[|s|..] == "";
    MoreWithoutColon(s);
  }

  lemma HeadOfFrame(junk: string, s: string, n: nat)
    requires forall i :: 0 <= i < |junk| ==> !IsDigit(junk[i])
    requires s != "" && IsDigit(s[0]) && |junk| < n <= |junk + s|
    ensures Junk((junk + s)[..n]) == |junk|
    ensures (junk + s)[..n][|junk|..] == s[..n - |junk|]
  {
    var head := (junk + s)[..n];
    assert head[|junk|] == s[0];
    assert forall i :: 0 <= i < |junk| ==> head[i] == junk[i];
    JunkEnds(head, |junk|);
  }

  lemma JunkEnds(s: string, k: nat)
    requires k <= |s| && (k < |s| ==> IsDigit(s[k])) && forall i :: 0 <= i < k ==> !IsDigit(s[i])
    ensures Junk(s) == k
  {
  }

  // A first read that came up short never asks for more than a full one.
  lemma ShortHead(rest: string, n: nat)
    requires n <= Min(HEAD, |rest|)
    ensures Reach(|rest|, rest[..n]) <= ReadNext(rest).consumed
  {
    var head := rest[..Min(HEAD, |rest|)];
    assert head[..n] == rest[..n];
    MoreOfPrefix(head, n);
  }

  lemma MoreOfPrefix(s: string, n: nat)
    requires n <= |s|
    ensures More(s[..n]) <= 0 || More(s[..n]) == More(s)
  {
    var junk := Junk(s[..n]);
    if junk < n && Position(s[..n][junk..], ':').Some? {
      JunkOfPrefix(s, n);
      assert s[..n][junk..] == s[junk..][..n - junk];
      ColonOfPrefix(s[junk..], n - junk);
    } else if junk == n {
      assert s[..n][junk..] == "";
    }
  }

  lemma JoinSlices(s: string, a: nat, b: nat, c: nat)
    requires a <= b <= c <= |s|
    ensures s[a..b] + s[b..c] == s[a..c]
  {
  }

  // What the head and the rest of a frame make together.
  lemma Assembled(s: string, from: nat, rest: string, a: nat, b: nat, c: nat)
    requires from + c <= |s| && a <= b <= c && rest == s[from..]
    ensures rest[a..b] + s[from + b..from + c] == rest[a..c]
  {
  }

  lemma JunkOfPrefix(s: string, n: nat)
    requires n <= |s| && Junk(s[..n]) < n
    ensures Junk(s) == Junk(s[..n])
  {
    var k := Junk(s[..n]);
    assert IsDigit(s[..n][k]);
    assert forall i :: 0 <= i < k ==> s[i] == s[..n][i];
  }

  lemma ColonOfPrefix(s: string, n: nat)
    requires n <= |s| && Position(s[..n], ':').Some?
    ensures Position(s, ':') == Position(s[..n], ':')
    ensures s[..n][..Position(s[..n], ':').value] == s[..Position(s[..n], ':').value]
  {
    var colon := Position(s[..n], ':').value;
    assert forall j :: 0 <= j <= colon ==> s[j] == s[..n][j];
    PositionIs(s, ':', colon);
  }

  // -------------------------------------------------------- reads of any size

  // What the reads of a frame's rest bring, in how many calls, and whether the
  // last one came too late.
  datatype Fetch = Fetch(bytes: nat, calls: nat, late: bool)

  // What is counted down is what was asked, not what came. The k-th recv finds
  // burst(k) bytes; `size` are left in the stream.
  function Fetched(burst: nat -> nat, calls: nat, size: nat, total: int): (f: Fetch)
    ensures f.bytes <= size
    decreases total
  {
    if total <= 0 then Fetch(0, 0, false)
    else if burst(calls) == 0 && size > 0 then Fetch(0, 1, true)
    else
      var ask := Min(total, CHUNK);
      var got := Min(Min(ask, burst(calls)), size);
      if got == 0 then Fetch(0, 1, false)
      else After(got, 1, Fetched(burst, calls + 1, size - got, total - ask))
  }

  function After(bytes: nat, calls: nat, more: Fetch): Fetch {
    Fetch(bytes + more.bytes, calls + more.calls, more.late)
  }

  lemma AfterTwice(a: nat, m: nat, b: nat, n: nat, more: Fetch)
    ensures After(a, m, After(b, n, more)) == After(a + b, m + n, more)
  {
  }

  lemma FetchOne(burst: nat -> nat, calls: nat, size: nat, total: int, ask: nat)
    requires total > 0 && ask == Min(total, CHUNK)
    ensures var got := Min(Min(ask, burst(calls)), size);
            Fetched(burst, calls, size, total) ==
            if got == 0 then Fetch(0, 1, size > 0)
            else After(got, 1, Fetched(burst, calls + 1, size - got, total - ask))
  {
  }

  // A status whatever the reads bring: none when one times out.
  datatype Status = Status(received: Option<string>, consumed: nat, calls: nat)

  function ReadWith(burst: nat -> nat, calls: nat, rest: string): (r: Status)
    ensures r.consumed <= |rest| && r.calls > 0
  {
    if burst(calls) == 0 && rest != "" then Status(None, 0, 1)
    else
      var n := Min(Min(HEAD, burst(calls)), |rest|);
      var head := rest[..n];
      ReadOn(rest, Junk(head), n, Fetched(burst, calls + 1, |rest| - n, More(head)))
  }

  // The reading once its first n bytes are there, the first ones junk.
  function ReadOn(rest: string, junk: nat, n: nat, f: Fetch): (r: Status)
    requires junk <= n && n + f.bytes <= |rest|
    ensures r.consumed == n + f.bytes && r.calls == 1 + f.calls
  {
    Status(if f.late then None else Some(rest[junk..n + f.bytes]), n + f.bytes, 1 + f.calls)
  }

  lemma ReadWithIs(burst: nat -> nat, calls: nat, rest: string, n: nat, junk: nat, more: int)
    requires n == Min(Min(HEAD, burst(calls)), |rest|) && !(burst(calls) == 0 && rest != "")
    requires junk == Junk(rest[..n]) && more == More(rest[..n])
    ensures ReadWith(burst, calls, rest) == ReadOn(rest, junk, n, Fetched(burst, calls + 1, |rest| - n, more))
  {
  }

  // No byte beyond a full reading is ever taken, late or not.
  lemma NeverPastFull(burst: nat -> nat, calls: nat, rest: string)
    ensures ReadWith(burst, calls, rest).consumed <= ReadNext(rest).consumed
  {
    if !(burst(calls) == 0 && rest != "") {
      var n := Min(Min(HEAD, burst(calls)), |rest|);
      var junk, more := Junk(rest[..n]), More(rest[..n]);
      ReadWithIs(burst, calls, rest, n, junk, more);
      FetchedAtMost(burst, calls + 1, |rest| - n, more);
      WithinReach(|rest|, rest[..n], more, Fetched(burst, calls + 1, |rest| - n, more).bytes);
      ShortHead(rest, n);
    }
  }

  lemma WithinReach(size: nat, head: string, more: int, bytes: nat)
    requires |head| + bytes <= size && more == More(head) && bytes <= if more > 0 then more else 0
    ensures |head| + bytes <= Reach(size, head)
  {
  }

  // Every read brings all that is asked of it.
  predicate Enough(burst: nat -> nat, calls: nat, total: int)
    decreases total
  {
    total <= 0 || (burst(calls) >= Min(total, CHUNK) && Enough(burst, calls + 1, total - Min(total, CHUNK)))
  }

  // How many reads ask for that much.
  function Chunks(total: int): nat
    decreases total
  {
    if total <= 0 then 0 else 1 + Chunks(total - Min(total, CHUNK))
  }

  lemma {:induction false} FetchedAll(burst: nat -> nat, calls: nat, size: nat, total: int)
    requires total <= size
    ensures var f := Fetched(burst, calls, size, total);
            && (f.bytes == (if total > 0 then total else 0) <==> Enough(burst, calls, total))
            && (Enough(burst, calls, total) ==> !f.late && f.calls == Chunks(total))
    decreases total
  {
    if total > 0 && !(burst(calls) == 0 && size > 0) {
      var ask := Min(total, CHUNK);
      var got := Min(Min(ask, burst(calls)), size);
      if got < ask {
        FetchedAtMost(burst, calls + 1, size - got, total - ask);
      } else {
        FetchedAll(burst, calls + 1, size - got, total - ask);
      }
    }
  }

  lemma {:induction false} FetchedAtMost(burst: nat -> nat, calls: nat, size: nat, total: int)
    ensures Fetched(burst, calls, size, total).bytes <= if total > 0 then total else 0
    decreases total
  {
    if total > 0 && !(burst(calls) == 0 && size > 0) {
      var ask := Min(total, CHUNK);
      FetchedAtMost(burst, calls + 1, size - Min(Min(ask, burst(calls)), size), total - ask);
    }
  }

  // A frame that a full reading would return whole comes back whole exactly
  // when the first read brings its eight bytes, or all there are, and every
  // later one all it asks for: a single short read cuts the frame.
  lemma WholeFrameRead(burst: nat -> nat, calls: nat, junk: string, payload: string, tail: string)
    requires forall i :: 0 <= i < |junk| ==> !IsDigit(junk[i])
    requires Fits(junk, payload, tail)
    ensures var rest := junk + Frame(payload) + tail;
            var size := |junk| + |Frame(payload)|;
            IsWhole(ReadWith(burst, calls, rest), Frame(payload), size) <==>
            burst(calls) >= Min(HEAD, |rest|) && Enough(burst, calls + 1, size - HEAD)
  {
    var rest := junk + Frame(payload) + tail;
    if burst(calls) >= Min(HEAD, |rest|) {
      FullHeadRead(burst, calls, junk, payload, tail, rest);
    } else {
      ShortHeadRead(burst, calls, junk, payload, tail, rest);
    }
  }

  predicate IsWhole(r: Status, frame: string, size: nat) {
    r.received == Some(frame) && r.consumed == size
  }

  lemma FullHeadRead(burst: nat -> nat, calls: nat, junk: string, payload: string, tail: string, rest: string)
    requires forall i :: 0 <= i < |junk| ==> !IsDigit(junk[i])
    requires Fits(junk, payload, tail) && rest == junk + Frame(payload) + tail
    requires burst(calls) >= Min(HEAD, |rest|)
    ensures var size := |junk| + |Frame(payload)|;
            && (IsWhole(ReadWith(burst, calls, rest), Frame(payload), size) <==> Enough(burst, calls + 1, size - HEAD))
            && (Enough(burst, calls + 1, size - HEAD) ==>
                  ReadWith(burst, calls, rest).calls == 1 + Chunks(size - HEAD))
  {
    var n := Min(HEAD, |rest|);
    var more := FrameHead(junk, payload, tail, rest, n);
    ReadWithIs(burst, calls, rest, n, |junk|, more);
    FrameRead(burst, calls + 1, rest, |junk|, n, more, Frame(payload));
  }

  lemma FrameHead(junk: string, payload: string, tail: string, rest: string, n: nat) returns (more: int)
    requires forall i :: 0 <= i < |junk| ==> !IsDigit(junk[i])
    requires Fits(junk, payload, tail) && rest == junk + Frame(payload) + tail && n == Min(HEAD, |rest|)
    ensures |junk| <= n <= |junk| + |Frame(payload)| <= |rest|
    ensures Junk(rest[..n]) == |junk| && more == More(rest[..n])
    ensures more == |junk| + |Frame(payload)| - HEAD || (more <= 0 && |junk| + |Frame(payload)| <= HEAD)
    ensures rest[|junk|..|junk| + |Frame(payload)|] == Frame(payload)
  {
    assert rest == junk + (Frame(payload) + tail);
    HeadReads(junk, payload, tail, rest, n);
    FrameParts(payload, tail);
    more := More(rest[..n]);
  }

  // A frame of less than eight bytes asks for nothing more, however it is counted.
  lemma FrameRead(burst: nat -> nat, calls: nat, rest: string, junk: nat, n: nat, more: int, frame: string)
    requires junk <= n == Min(HEAD, |rest|) && n <= junk + |frame| <= |rest|
    requires rest[junk..junk + |frame|] == frame
    requires more == junk + |frame| - HEAD || (more <= 0 && junk + |frame| <= HEAD)
    ensures var r := ReadOn(rest, junk, n, Fetched(burst, calls, |rest| - n, more));
            var left := junk + |frame| - HEAD;
            && (IsWhole(r, frame, junk + |frame|) <==> Enough(burst, calls, left))
            && (Enough(burst, calls, left) ==> r.calls == 1 + Chunks(left))
  {
    FetchedAll(burst, calls, |rest| - n, more);
  }

  lemma ShortHeadRead(burst: nat -> nat, calls: nat, junk: string, payload: string, tail: string, rest: string)
    requires forall i :: 0 <= i < |junk| ==> !IsDigit(junk[i])
    requires Fits(junk, payload, tail) && rest == junk + Frame(payload) + tail
    requires burst(calls) < Min(HEAD, |rest|)
    ensures ReadWith(burst, calls, rest).consumed < |junk| + |Frame(payload)|
  {
    ShortHeadAsks(junk, payload, tail, rest, burst(calls));
    ShortHeadTakes(burst, calls, rest, burst(calls), More(rest[..burst(calls)]));
  }

  lemma ShortHeadTakes(burst: nat -> nat, calls: nat, rest: string, n: nat, more: int)
    requires n == burst(calls) <= Min(HEAD, |rest|) && more == More(rest[..n])
    ensures ReadWith(burst, calls, rest).consumed <= n + if more > 0 then more else 0
  {
    if n > 0 || rest == "" {
      ReadWithIs(burst, calls, rest, n, Junk(rest[..n]), more);
      FetchedAtMost(burst, calls + 1, |rest| - n, more);
    }
  }

  lemma ShortHeadAsks(junk: string, payload: string, tail: string, rest: string, n: nat)
    requires forall i :: 0 <= i < |junk| ==> !IsDigit(junk[i])
    requires Fits(junk, payload, tail) && rest == junk + Frame(payload) + tail
    requires n < Min(HEAD, |rest|)
    ensures More(rest[..n]) <= 0 || More(rest[..n]) == |junk| + |Frame(payload)| - HEAD
    ensures n < |junk| + |Frame(payload)|
  {
    var full := Min(HEAD, |rest|);
    assert rest == junk + (Frame(payload) + tail);
    HeadReads(junk, payload, tail, rest, full);
    FrameParts(payload, tail);
    assert rest[..full][..n] == rest[..n];
    MoreOfPrefix(rest[..full], n);
  }

  ghost predicate FullReads(burst: nat -> nat) { forall k: nat :: burst(k) >= CHUNK }

  // With full reads nothing is short.
  lemma FullReadsReadAll(burst: nat -> nat, calls: nat, rest: string)
    requires FullReads(burst)
    ensures var r, full := ReadWith(burst, calls, rest), ReadNext(rest);
            r.received == Some(full.received) && r.consumed == full.consumed
  {
    var n := Min(HEAD, |rest|);
    assert burst(calls) >= CHUNK;
    var junk, more := Junk(rest[..n]), More(rest[..n]);
    ReadWithIs(burst, calls, rest, n, junk, more);
    FetchedFull(burst, calls + 1, |rest| - n, more);
    FullReading(rest, junk, n, more, Fetched(burst, calls + 1, |rest| - n, more));
  }

  lemma FullReading(rest: string, junk: nat, n: nat, more: int, f: Fetch)
    requires n == Min(HEAD, |rest|) && junk == Junk(rest[..n]) && more == More(rest[..n])
    requires !f.late && f.bytes == if more <= 0 then 0 else Min(more, |rest| - n)
    ensures var r, full := ReadOn(rest, junk, n, f), ReadNext(rest);
            r.received == Some(full.received) && r.consumed == full.consumed
  {
    assert Reach(|rest|, rest[..n]) == n + f.bytes;
  }

  lemma {:induction false} FetchedFull(burst: nat -> nat, calls: nat, size: nat, total: int)
    requires FullReads(burst)
    ensures var f := Fetched(burst, calls, size, total);
            !f.late && f.bytes == if total <= 0 then 0 else Min(total, size)
    decreases total
  {
    if total > 0 {
      var ask := Min(total, CHUNK);
      assert burst(calls) >= CHUNK;
      FetchedFull(burst, calls + 1, size - Min(ask, size), total - ask);
    }
  }

  // ------------------------------------------------------------ whole stream

  function Stream(payloads: seq<string>): string {
    if payloads == [] then "" else Frame(payloads[0]) + Stream(payloads[1..])
  }

  // What a status says to the event loop: nothing when it is empty, cannot be
  // split, or holds an empty JSON value (`keeps` is the JSON reader's verdict).
  function Said(status: string, keeps: string -> bool): Option<string> {
    match Decode(status)
    case Payload(text) => if keeps(text) then Some(text) else None
    case _ => None
  }

  function Decoder(keeps: string -> bool): string -> Option<string> { status => Said(status, keeps) }

  // One turn of the loop, whatever its reads bring: a status that came too late
  // says the time-out's text.
  datatype Turn = Stop | Took(text: string, consumed: nat, calls: nat)

  function TurnOf(burst: nat -> nat, decode: string -> Option<string>, timeOut: string,
                  calls: nat, rest: string): Turn
  {
    var r := ReadWith(burst, calls, rest);
    match decode(ValueOr(r.received, timeOut))
    case None => Stop
    case Some(text) => Took(text, r.consumed, r.calls)
  }

  function Turns(burst: nat -> nat, decode: string -> Option<string>, timeOut: string): (nat, string) -> Turn {
    (calls: nat, rest: string) => TurnOf(burst, decode, timeOut, calls, rest)
  }

  // The loop over those turns. From the `quiet`-th call on the peer is never
  // silent; otherwise the loop would turn for ever.
  function Loop(turn: (nat, string) -> Turn, calls: nat, rest: string, quiet: nat): seq<string>
    decreases |rest|, Patience(quiet, calls)
  {
    match turn(calls, rest)
    case Stop => []
    case Took(text, consumed, spent) =>
      if Goes(|rest|, calls, consumed, spent, quiet) then [text] + Loop(turn, calls + spent, rest[consumed..], quiet)
      else []
  }

  predicate Goes(size: nat, calls: nat, consumed: nat, spent: nat, quiet: nat) {
    consumed <= size && (consumed > 0 || (spent > 0 && calls < quiet))
  }

  function Patience(quiet: nat, calls: nat): nat { if calls < quiet then quiet - calls else 0 }

  ghost predicate Speaks(burst: nat -> nat, quiet: nat) { forall k: nat :: k >= quiet ==> burst(k) > 0 }

  ghost predicate AreTurns(turn: (nat, string) -> Turn, burst: nat -> nat, decode: string -> Option<string>,
                           timeOut: string)
  {
    forall calls: nat, rest: string {:trigger TurnOf(burst, decode, timeOut, calls, rest)} ::
      turn(calls, rest) == TurnOf(burst, decode, timeOut, calls, rest)
  }

  lemma TurnsAre(burst: nat -> nat, decode: string -> Option<string>, timeOut: string)
    ensures AreTurns(Turns(burst, decode, timeOut), burst, decode, timeOut)
  {
  }

  lemma TurnIs(turn: (nat, string) -> Turn, burst: nat -> nat, decode: string -> Option<string>, timeOut: string,
               calls: nat, rest: string, r: Status, said: Option<string>)
    requires AreTurns(turn, burst, decode, timeOut)
    requires r == ReadWith(burst, calls, rest) && said == decode(ValueOr(r.received, timeOut))
    ensures turn(calls, rest) == if said.None? then Stop else Took(said.value, r.consumed, r.calls)
  {
    assert turn(calls, rest) == TurnOf(burst, decode, timeOut, calls, rest);
  }

  lemma NothingRead(burst: nat -> nat, calls: nat, rest: string)
    requires burst(calls) > 0 || rest == ""
    requires ReadWith(burst, calls, rest).consumed == 0
    ensures rest == "" && ReadWith(burst, calls, rest).received == Some("")
  {
    assert rest == "";
    OnlyJunk(rest[..0]);
  }

  // A turn that takes a text takes bytes too, or waits for the peer once more.
  lemma TurnGoes(burst: nat -> nat, decode: string -> Option<string>, timeOut: string,
                 calls: nat, rest: string, quiet: nat)
    requires decode("") == None && Speaks(burst, quiet)
    ensures var r := ReadWith(burst, calls, rest);
            decode(ValueOr(r.received, timeOut)).Some? ==> Goes(|rest|, calls, r.consumed, r.calls, quiet)
  {
    if ReadWith(burst, calls, rest).consumed == 0 && calls >= quiet {
      NothingRead(burst, calls, rest);
    }
  }

  lemma LoopStep(turn: (nat, string) -> Turn, calls: nat, data: string, before: nat, quiet: nat,
                 remaining: seq<string>, t: Turn)
    returns (left: seq<string>)
    requires before <= |data| && remaining == Loop(turn, calls, data[before..], quiet)
    requires t == turn(calls, data[before..])
    requires t.Took? ==> Goes(|data| - before, calls, t.consumed, t.calls, quiet)
    ensures t == Stop ==> remaining == []
    ensures t.Took? ==>
      left == Loop(turn, calls + t.calls, data[before + t.consumed..], quiet) && remaining == [t.text] + left
  {
    left := [];
    if t.Took? {
      TailOfTail(data, before, t.consumed);
      left := Loop(turn, calls + t.calls, data[before + t.consumed..], quiet);
    }
  }

  lemma TailOfTail(s: string, a: nat, n: nat)
    requires a + n <= |s|
    ensures s[a..][n..] == s[a + n..]
  {
  }

  lemma OneMore(events: seq<string>, text: string, left: seq<string>, remaining: seq<string>)
    requires remaining == [text] + left
    ensures events + remaining == (events + [text]) + left
  {
  }

  ghost predicate Readable(payload: string, keeps: string -> bool) {
    && |Decimal(|payload|)| < HEAD <= |Frame(payload)|
    && !Contains(payload, Decimal(|payload|) + ":")
    && keeps(payload)
  }

  // What was written frame after frame is read back payload after payload,
  // whatever their number, and the loop ends with the stream.
  lemma {:induction false} StreamRoundTrip(burst: nat -> nat, payloads: seq<string>, keeps: string -> bool, timeOut: string, quiet: nat)
    requires FullReads(burst)
    requires forall i :: 0 <= i < |payloads| ==> Readable(payloads[i], keeps)
    ensures Loop(Turns(burst, Decoder(keeps), timeOut), 0, Stream(payloads), quiet) == payloads
  {
    var decode := Decoder(keeps);
    TurnsAre(burst, decode, timeOut);
    AllFramed(payloads, keeps);
    FullLoop(Turns(burst, decode, timeOut), burst, 0, payloads, decode, timeOut, quiet);
  }

  lemma AllFramed(payloads: seq<string>, keeps: string -> bool)
    requires forall i :: 0 <= i < |payloads| ==> Readable(payloads[i], keeps)
    ensures forall i :: 0 <= i < |payloads| ==> Framed(payloads[i], Decoder(keeps))
    ensures Decoder(keeps)("") == None
  {
    forall i | 0 <= i < |payloads| ensures Framed(payloads[i], Decoder(keeps)) {
      DecodeFrame(payloads[i]);
    }
    assert Decode("") == Nothing;
  }

  ghost predicate Framed(payload: string, decode: string -> Option<string>) {
    |Decimal(|payload|)| < HEAD <= |Frame(payload)| && decode(Frame(payload)) == Some(payload)
  }

  lemma {:induction false} FullLoop(turn: (nat, string) -> Turn, burst: nat -> nat, calls: nat, payloads: seq<string>,
                                    decode: string -> Option<string>, timeOut: string, quiet: nat)
    requires AreTurns(turn, burst, decode, timeOut) && decode("") == None
    requires FullReads(burst)
    requires forall i :: 0 <= i < |payloads| ==> Framed(payloads[i], decode)
    ensures Loop(turn, calls, Stream(payloads), quiet) == payloads
    decreases |payloads|
  {
    if payloads == [] {
      LastTurn(turn, burst, calls, decode, timeOut);
    } else {
      var p, tail := payloads[0], Stream(payloads[1..]);
      var n := StreamGoesOn(payloads);
      FullFrame(burst, calls, p);
      WholeTurn(turn, burst, calls, p, tail, decode, timeOut);
      FullLoop(turn, burst, calls + FrameCalls(p), payloads[1..], decode, timeOut, quiet);
      LoopNext(turn, calls, Stream(payloads), quiet, Took(p, n, FrameCalls(p)), tail);
    }
  }

  lemma FullFrame(burst: nat -> nat, calls: nat, payload: string)
    requires FullReads(burst)
    ensures FrameEnough(burst, calls, payload)
  {
    AlwaysEnough(burst, calls + 1, |Frame(payload)| - HEAD);
    assert burst(calls) >= CHUNK;
  }

  lemma {:induction false} AlwaysEnough(burst: nat -> nat, calls: nat, total: int)
    requires FullReads(burst)
    ensures Enough(burst, calls, total)
    decreases total
  {
    if total > 0 {
      assert burst(calls) >= CHUNK;
      AlwaysEnough(burst, calls + 1, total - Min(total, CHUNK));
    }
  }

  const TIME_OUT := "{\"event\": true, \"type\": \"TIME_OUT\"}"

  predicate Digitless(s: string) { forall i :: 0 <= i < |s| ==> !IsDigit(s[i]) }

  // A status without digits in its text, the time-out's among them, says that text.
  lemma DigitlessDecodes(payload: string)
    requires Digitless(payload)
    ensures Decode(Frame(payload)) == Payload(payload)
  {
    var separator := Decimal(|payload|) + ":";
    forall j: nat
      ensures !OccursAt(payload, separator, j)
    {
      assert j + |separator| <= |payload| ==> payload[j..j + |separator|][0] == payload[j];
    }
    DecodeFrame(payload);
  }

  // Every frame is read whole; the reads that time out fall between frames.
  predicate ReadsEnough(burst: nat -> nat, calls: nat, payloads: seq<string>, quiet: nat)
    decreases |payloads|, Patience(quiet, calls)
  {
    if payloads == [] then true
    else if burst(calls) == 0 then calls < quiet && ReadsEnough(burst, calls + 1, payloads, quiet)
    else FrameEnough(burst, calls, payloads[0]) && ReadsEnough(burst, calls + FrameCalls(payloads[0]), payloads[1..], quiet)
  }

  predicate FrameEnough(burst: nat -> nat, calls: nat, payload: string) {
    burst(calls) >= HEAD && Enough(burst, calls + 1, |Frame(payload)| - HEAD)
  }

  function FrameCalls(payload: string): nat { 1 + Chunks(|Frame(payload)| - HEAD) }

  function Without(texts: seq<string>, text: string): seq<string> {
    if texts == [] then []
    else (if texts[0] == text then [] else [texts[0]]) + Without(texts[1..], text)
  }

  // Whatever the sizes of the reads, time-outs between frames lose nothing:
  // taking the time-outs out of what the loop says leaves the payloads.
  lemma {:induction false} LateReadsLoseNothing(burst: nat -> nat, payloads: seq<string>, keeps: string -> bool, late: string, quiet: nat)
    requires forall i :: 0 <= i < |payloads| ==> Readable(payloads[i], keeps)
    requires ReadsEnough(burst, 0, payloads, quiet)
    requires Digitless(late) && keeps(late) && late !in payloads
    ensures Without(Loop(Turns(burst, Decoder(keeps), Frame(late)), 0, Stream(payloads), quiet), late) == payloads
  {
    var decode, timeOut := Decoder(keeps), Frame(late);
    TurnsAre(burst, decode, timeOut);
    AllFramed(payloads, keeps);
    DigitlessDecodes(late);
    LateLoop(Turns(burst, decode, timeOut), burst, 0, payloads, decode, timeOut, late, quiet);
  }

  lemma {:induction false} LateLoop(turn: (nat, string) -> Turn, burst: nat -> nat, calls: nat, payloads: seq<string>,
                                    decode: string -> Option<string>, timeOut: string, late: string, quiet: nat)
    requires AreTurns(turn, burst, decode, timeOut) && decode("") == None
    requires forall i :: 0 <= i < |payloads| ==> Framed(payloads[i], decode)
    requires ReadsEnough(burst, calls, payloads, quiet)
    requires decode(timeOut) == Some(late) && late !in payloads
    ensures Without(Loop(turn, calls, Stream(payloads), quiet), late) == payloads
    decreases |payloads|, Patience(quiet, calls)
  {
    var rest := Stream(payloads);
    if payloads == [] {
      LastTurn(turn, burst, calls, decode, timeOut);
    } else if burst(calls) == 0 {
      var _ := StreamGoesOn(payloads);
      SilentTurn(turn, burst, calls, rest, decode, timeOut, late);
      LateLoop(turn, burst, calls + 1, payloads, decode, timeOut, late, quiet);
      LoopNext(turn, calls, rest, quiet, Took(late, 0, 1), rest);
    } else {
      var p, tail := payloads[0], Stream(payloads[1..]);
      var n := StreamGoesOn(payloads);
      WholeTurn(turn, burst, calls, p, tail, decode, timeOut);
      LateLoop(turn, burst, calls + FrameCalls(p), payloads[1..], decode, timeOut, late, quiet);
      LoopNext(turn, calls, rest, quiet, Took(p, n, FrameCalls(p)), tail);
    }
  }

  lemma StreamGoesOn(payloads: seq<string>) returns (n: nat)
    requires payloads != []
    ensures Stream(payloads) == Frame(payloads[0]) + Stream(payloads[1..]) && Stream(payloads) != ""
    ensures n == |Frame(payloads[0])| <= |Stream(payloads)| && 0 < n
    ensures Stream(payloads)[n..] == Stream(payloads[1..])
    ensures payloads == [payloads[0]] + payloads[1..]
  {
    n := |Frame(payloads[0])|;
    FrameParts(payloads[0], "");
  }

  lemma LoopNext(turn: (nat, string) -> Turn, calls: nat, rest: string, quiet: nat, t: Turn, tail: string)
    requires t.Took? && t == turn(calls, rest) && Goes(|rest|, calls, t.consumed, t.calls, quiet)
    requires tail == rest[t.consumed..]
    ensures Loop(turn, calls, rest, quiet) == [t.text] + Loop(turn, calls + t.calls, tail, quiet)
  {
  }

  lemma LastTurn(turn: (nat, string) -> Turn, burst: nat -> nat, calls: nat, decode: string -> Option<string>,
                 timeOut: string)
    requires AreTurns(turn, burst, decode, timeOut) && decode("") == None
    ensures turn(calls, "") == Stop
  {
    NothingRead(burst, calls, "");
    TurnIs(turn, burst, decode, timeOut, calls, "", ReadWith(burst, calls, ""), None);
  }

  lemma SilentTurn(turn: (nat, string) -> Turn, burst: nat -> nat, calls: nat, rest: string,
                   decode: string -> Option<string>, timeOut: string, late: string)
    requires AreTurns(turn, burst, decode, timeOut)
    requires burst(calls) == 0 && rest != "" && decode(timeOut) == Some(late)
    ensures turn(calls, rest) == Took(late, 0, 1)
  {
    TurnIs(turn, burst, decode, timeOut, calls, rest, Status(None, 0, 1), Some(late));
  }

  lemma WholeTurn(turn: (nat, string) -> Turn, burst: nat -> nat, calls: nat, payload: string, tail: string,
                  decode: string -> Option<string>, timeOut: string)
    requires AreTurns(turn, burst, decode, timeOut)
    requires Framed(payload, decode) && FrameEnough(burst, calls, payload)
    ensures turn(calls, Frame(payload) + tail) == Took(payload, |Frame(payload)|, FrameCalls(payload))
  {
    var r := WholeStatus(burst, calls, payload, tail, Frame(payload) + tail);
    TurnIs(turn, burst, decode, timeOut, calls, Frame(payload) + tail, r, Some(payload));
  }

  lemma WholeStatus(burst: nat -> nat, calls: nat, payload: string, tail: string, rest: string) returns (r: Status)
    requires Fits("", payload, tail) && FrameEnough(burst, calls, payload) && rest == Frame(payload) + tail
    ensures r == Status(Some(Frame(payload)), |Frame(payload)|, FrameCalls(payload)) == ReadWith(burst, calls, rest)
  {
    assert "" + Frame(payload) + tail == rest;
    FullHeadRead(burst, calls, "", payload, tail, rest);
    r := ReadWith(burst, calls, rest);
  }

  // A frame shorter than eight bytes swallows the head of the next one.
  lemma ShortFrameOverreads()
    ensures ReadNext("2:{}," + "7:{\"a\":1},").received != "2:{},"
  {
    var rest := "2:{}," + "7:{\"a\":1},";
    assert rest == "" + Frame("{}") + Frame("{\"a\":1}") by {
      assert Decimal(2) == "2" && Decimal(7) == "7";
    }
    ReadsExactlyOneFrame("", "{}", Frame("{\"a\":1}"));
    assert ReadNext(rest).consumed >= 8;
  }

  // ----------------------------------------------------------------- socket

  // A connected socket: the bytes the peer sends, and how many of them are
  // there for the k-th recv (none: it times out).
  class Socket {
    const data: string
    const burst: nat -> nat
    const timeOut: string  // returned in place of a status when nothing came in time
    var pos: nat
    var calls: nat

    constructor (data: string, burst: nat -> nat)
      ensures this.data == data && this.burst == burst && pos == 0 && calls == 0
      ensures timeOut == Frame(TIME_OUT) && Digitless(TIME_OUT)
    {
      timeOut := Frame(TIME_OUT);
      this.data, this.burst, pos, calls := data, burst, 0, 0;
    }

    method Recv(n: nat) returns (packet: Option<string>)
      requires pos <= |data|
      modifies this
      ensures pos <= |data| && calls == old(calls) + 1
      ensures pos == old(pos) + Min(Min(n, burst(old(calls))), |data| - old(pos))
      ensures packet == if burst(old(calls)) == 0 && n > 0 && old(pos) < |data| then None
                        else Some(data[old(pos)..pos])
    {
      var available := burst(calls);
      var next := pos + Min(Min(n, available), |data| - pos);
      packet := if available == 0 && n > 0 && pos < |data| then None else Some(data[pos..next]);
      pos, calls := next, calls + 1;
    }

    // __getStatus: the status the sizes of the reads give, or the time-out's.
    method GetStatus(ghost rest: string, ghost whole: Status) returns (received: string)
      requires pos <= |data| && rest == data[pos..] && whole == ReadWith(burst, calls, rest)
      modifies this
      ensures pos == old(pos) + whole.consumed && calls == old(calls) + whole.calls
      ensures received == ValueOr(whole.received, timeOut)
    {
      ghost var n, junk, f;
      var head, total;
      head, total, n, junk, f := ReadHead(rest, whole);
      if head.None? {
        return timeOut;
      }
      received := ReadBody(rest, n, junk, head.value, total, f);
    }

    // What is still to be read once the first packet is there.
    method ReadBody(ghost rest: string, ghost n: nat, ghost junk: nat, head: string, total: int, ghost f: Fetch)
        returns (received: string)
      requires n <= pos <= |data| && rest == data[pos - n..] && junk <= n && head == rest[junk..n]
      requires n + f.bytes <= |rest| && f == Fetched(burst, calls, |data| - pos, total)
      modifies this
      ensures pos == old(pos) + f.bytes && calls == old(calls) + f.calls
      ensures received == if f.late then timeOut else rest[junk..n + f.bytes]
    {
      var tail, timedOut := ReadRest(total, f);
      if timedOut {
        return timeOut;
      }
      Assembled(data, old(pos) - n, rest, junk, n, n + f.bytes);
      received := head + tail;
    }

    // The first packet, without its junk, and how much it asks for; f is what
    // the later reads will bring.
    method ReadHead(ghost rest: string, ghost whole: Status)
        returns (received: Option<string>, total: int, ghost n: nat, ghost junk: nat, ghost f: Fetch)
      requires pos <= |data| && rest == data[pos..] && whole == ReadWith(burst, calls, rest)
      modifies this
      ensures calls == old(calls) + 1 && pos == old(pos) + n && junk <= n && n + f.bytes <= |rest|
      ensures received.None? ==> n == 0 && whole == Status(None, 0, 1)
      ensures received.Some? ==> received.value == rest[junk..n] && whole == ReadOn(rest, junk, n, f)
      ensures received.Some? ==> f == Fetched(burst, calls, |rest| - n, total)
    {
      var head := Recv(HEAD);
      n, total, junk, f := pos - old(pos), 0, 0, Fetch(0, 0, true);
      if head.None? {
        return None, total, n, junk, f;
      }
      assert head.value == rest[..n];
      var text, preRead := DropJunk(head.value);
      junk := Junk(rest[..n]);
      received, total := Some(text), StillToRead(text, preRead);
      f := Fetched(burst, calls, |rest| - n, total);
      ReadWithIs(burst, old(calls), rest, n, junk, total);
    }

    // The junk before the first digit, dropped one character at a time.
    static method DropJunk(head: string) returns (received: string, preRead: int)
      ensures received == head[Junk(head)..] && preRead == HEAD - Junk(head)
    {
      received, preRead := head, HEAD;
      while |received| > 0 && !IsDigit(received[0])
        invariant 0 <= HEAD - preRead <= |head|
        invariant received == head[HEAD - preRead..]
        invariant forall i :: 0 <= i < HEAD - preRead ==> !IsDigit(head[i])
      {
        received := received[1..];
        preRead := preRead - 1;
      }
      JunkEnds(head, HEAD - preRead);
    }

    // One chunk of at most 1024 bytes; `left` is what the later ones will bring.
    method ReadChunk(dataLen: int, ghost whole: Fetch)
        returns (packet: Option<string>, readLen: nat, ghost left: Fetch)
      requires pos <= |data| && dataLen > 0 && whole == Fetched(burst, calls, |data| - pos, dataLen)
      modifies this
      ensures old(pos) <= pos <= |data| && calls == old(calls) + 1
      ensures readLen == if dataLen < 1024 then dataLen else 1024
      ensures packet.Some? ==> packet.value == data[old(pos)..pos] && |packet.value| == pos - old(pos)
      ensures packet.None? ==> pos == old(pos)
      ensures whole == After(pos - old(pos), 1, left)
      ensures left == if pos == old(pos) then Fetch(0, 0, packet.None?)
                      else Fetched(burst, calls, |data| - pos, dataLen - readLen)
    {
      readLen := if dataLen / CHUNK == 0 then dataLen % CHUNK else CHUNK;
      assert readLen == Min(dataLen, CHUNK);
      FetchOne(burst, calls, |data| - pos, dataLen, readLen);
      packet := Recv(readLen);
      left := if pos == old(pos) then Fetch(0, 0, packet.None?)
              else Fetched(burst, calls, |data| - pos, dataLen - readLen);
    }

    // The rest of the frame.
    method ReadRest(total: int, ghost whole: Fetch) returns (tail: string, timedOut: bool)
      requires pos <= |data| && whole == Fetched(burst, calls, |data| - pos, total)
      modifies this
      ensures old(pos) <= pos <= |data| && old(calls) <= calls
      ensures whole == Fetch(pos - old(pos), calls - old(calls), timedOut)
      ensures !timedOut ==> tail == data[old(pos)..pos]
    {
      tail, timedOut := "", false;
      var dataLen := total;
      ghost var left := whole;
      while dataLen > 0
        invariant old(pos) <= pos <= |data| && old(calls) <= calls
        invariant tail == data[old(pos)..pos]
        invariant left == Fetched(burst, calls, |data| - pos, dataLen)
        invariant whole == After(pos - old(pos), calls - old(calls), left)
        decreases dataLen
      {
        var packet, readLen;
        ghost var from, begun := pos, calls;
        packet, readLen, left := ReadChunk(dataLen, left);
        AfterTwice(from - old(pos), begun - old(calls), pos - from, 1, left);
        if packet.None? {
          return "", true;
        }
        JoinSlices(data, old(pos), from, pos);
        dataLen := dataLen - readLen;
        tail := tail + packet.value;
        if packet.value == "" {
          break;
        }
      }
    }

    // getEvents: the texts taken, until the stream says nothing more.
    method GetEvents(keeps: string -> bool, ghost quiet: nat) returns (events: seq<string>)
      requires pos <= |data| && Speaks(burst, quiet)
      modifies this
      ensures pos <= |data|
      ensures events == Loop(Turns(burst, Decoder(keeps), timeOut), old(calls), data[old(pos)..], quiet)
    {
      ghost var decode := Decoder(keeps);
      ghost var turn := Turns(burst, decode, timeOut);
      assert Decode("") == Nothing;
      TurnsAre(burst, decode, timeOut);
      events := EventLoop(Decoder(keeps), turn, quiet, Loop(turn, calls, data[pos..], quiet));
    }

    // `left` is what the later turns will say.
    method TakeTurn(decode: string -> Option<string>, ghost turn: (nat, string) -> Turn, ghost quiet: nat,
                    ghost remaining: seq<string>)
        returns (text: Option<string>, ghost left: seq<string>)
      requires pos <= |data| && Speaks(burst, quiet) && decode("") == None
      requires AreTurns(turn, burst, decode, timeOut) && remaining == Loop(turn, calls, data[pos..], quiet)
      modifies this
      ensures old(pos) <= pos <= |data| && old(calls) <= calls
      ensures text.None? ==> remaining == []
      ensures text.Some? ==> old(pos) < pos || Patience(quiet, calls) < Patience(quiet, old(calls))
      ensures text.Some? ==> left == Loop(turn, calls, data[pos..], quiet) && remaining == [text.value] + left
    {
      ghost var t;
      text, t := OneTurn(decode, turn, quiet, data[pos..]);
      left := LoopStep(turn, old(calls), data, old(pos), quiet, remaining, t);
    }

    method OneTurn(decode: string -> Option<string>, ghost turn: (nat, string) -> Turn, ghost quiet: nat,
                   ghost rest: string)
        returns (text: Option<string>, ghost t: Turn)
      requires pos <= |data| && rest == data[pos..] && Speaks(burst, quiet) && decode("") == None
      requires AreTurns(turn, burst, decode, timeOut)
      modifies this
      ensures old(pos) <= pos <= |data| && old(calls) <= calls
      ensures t == turn(old(calls), rest)
      ensures t == if text.None? then Stop else Took(text.value, pos - old(pos), calls - old(calls))
      ensures t.Took? ==> Goes(|rest|, old(calls), t.consumed, t.calls, quiet)
    {
      ghost var r := ReadWith(burst, calls, rest);
      TurnGoes(burst, decode, timeOut, calls, rest, quiet);
      var status := GetStatus(rest, r);
      text := decode(status);
      TurnIs(turn, burst, decode, timeOut, old(calls), rest, r, text);
      t := turn(old(calls), rest);
    }

    method EventLoop(decode: string -> Option<string>, ghost turn: (nat, string) -> Turn, ghost quiet: nat,
                     ghost all: seq<string>)
        returns (events: seq<string>)
      requires pos <= |data| && Speaks(burst, quiet) && decode("") == None
      requires AreTurns(turn, burst, decode, timeOut) && all == Loop(turn, calls, data[pos..], quiet)
      modifies this
      ensures pos <= |data| && events == all
    {
      events := [];
      ghost var remaining := all;
      while true
        invariant old(pos) <= pos <= |data|
        invariant remaining == Loop(turn, calls, data[pos..], quiet)
        invariant events + remaining == all
        decreases |data| - pos, Patience(quiet, calls)
      {
        var text;
        ghost var before := remaining;
        text, remaining := TakeTurn(decode, turn, quiet, remaining);
        if text.None? {
          break;
        }
        OneMore(events, text.value, remaining, before);
        events := events + [text.value];
      }
    }
  }
}
