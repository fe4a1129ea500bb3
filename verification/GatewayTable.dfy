// The table of media gateways kept in Redis: one entry a gateway, moved by the
// proxy's handlers (deploy/proxyAPI/proxy.py) and by the media scaler
// (deploy/scaler/src/ScalerMedia.py). Each handler is one atomic step.
module GatewayTable {
  import opened Text

  // ---------------------------------------------------------------- entries

  datatype GwState = Created | Started | Stopped | Deleted | Stopping

  // Absent fields and empty ones read alike and are both "" here.
  datatype Entry = Entry(
    ip: string, state: GwState, kind: string, startTime: string,
    room: string, browsing: string, physicalRoom: string,
    peerUri: string, peerName: string, callStarted: string,
    mediaDuration: string, transcript: string)

  type Table = map<string, Entry>

  // cleanPart
  function Shown(value: string): Option<string> {
    if value == "" || value == "None" then None else Some(value)
  }

  // A container waiting to be used, or free again.
  predicate Idle(e: Entry) { e.state == Created || e.state == Stopped }

  // Nobody on it: no room, no SIP peer, no call start.
  predicate Vacant(e: Entry) { e.room == "" && e.peerUri == "" && e.callStarted == "" }

  // key.split(":")[-1]
  function LastPart(id: string): string {
    if id == "" then ""
    else if id[|id| - 1] == ':' then ""
    else LastPart(id[..|id| - 1]) + [id[|id| - 1]]
  }

  lemma {:induction false} LastPartOfPlain(id: string)
    requires ':' !in id
    ensures LastPart(id) == id
  {
    if id != "" {
      LastPartOfPlain(id[..|id| - 1]);
      assert id == id[..|id| - 1] + [id[|id| - 1]];
    }
  }

  // ---------------------------------------------------------------- replies

  // A gateway's /gateway/status, in the shape HTTPLauncher.get_status gives it.
  datatype Status =
    | Up(room: string, browsing: string, physicalRoom: string, peerUri: string, peerName: string,
         callStarted: string, duration: string, transcript: string)
    | Down
    | NoAnswer

  // updateProgressInfo
  function Refreshed(e: Entry, s: Status): Entry
    requires s != NoAnswer
  {
    match s
    case Up(room, browsing, physicalRoom, peerUri, peerName, callStarted, duration, transcript) =>
      e.(mediaDuration := if duration != "" then duration else e.mediaDuration,
         transcript := if transcript != "" then transcript else e.transcript,
         state := Started, room := room, physicalRoom := physicalRoom, browsing := browsing,
         peerUri := peerUri, peerName := peerName, callStarted := callStarted)
    case Down =>
      e.(state := Stopped, room := "", physicalRoom := "", browsing := "",
         peerUri := "", peerName := "", callStarted := "")
  }

  // ------------------------------------------------------------------ steps

  // The first idle gateway of a scan.
  function FirstIdle(t: Table, order: seq<string>): Option<string> {
    if order == [] then None
    else if order[0] in t && Idle(t[order[0]]) then Some(order[0])
    else FirstIdle(t, order[1..])
  }

  const NEW := Entry("", Created, "", "", "", "", "", "", "", "", "0", "0")

  function Registered(t: Table, id: string, ip: string, kind: string, now: string): Table {
    var e := if id in t then t[id] else NEW.(startTime := now);
    t[id := e.(ip := ip, kind := kind)]
  }

  // /start, once the gateway the scan found has accepted.
  function StartedOn(t: Table, key: string, room: string, browsing: string): Table
    requires key in t
  {
    var id := LastPart(key);
    var e := if id in t then t[id] else Entry(t[key].ip, Started, "", "", "", "", "", "", "", "", "", "");
    t[id := e.(state := Started, room := room, browsing := browsing)]
  }

  function StoppedAt(t: Table, id: string): Table
    requires id in t
  {
    t[id := t[id].(room := "", browsing := "", peerUri := "", peerName := "", callStarted := "", state := Deleted)]
  }

  // The monitor, periodic or on demand: read under one key, written under another.
  function Monitored(t: Table, key: string, id: string, s: Status): Table
    requires key in t
  {
    if s == NoAnswer then t - {id} else t[id := Refreshed(t[key], s)]
  }

  // The idle gateways of a scan, up to a number of them.
  function Reclaimable(t: Table, order: seq<string>, numGW: int): seq<string> {
    if order == [] || numGW <= 0 then []
    else if order[0] in t && Idle(t[order[0]]) then
      [order[0]] + Reclaimable(t[order[0] := t[order[0]].(state := Stopping)], order[1..], numGW - 1)
    else Reclaimable(t, order[1..], numGW)
  }

  // ScalerMedia.downScale
  function Reclaimed(t: Table, ids: seq<string>, now: string): Table {
    map id | id in t :: if id in ids then t[id].(state := Stopping, startTime := now) else t[id]
  }

  datatype Step =
    | Register(id: string, ip: string, kind: string, now: string)
    | Start(order: seq<string>, room: string, browsing: string, mainApp: string, accepted: bool)
    | Stop(id: string, stopping: bool)
    | Unregister(id: string)
    | Monitor(key: string, onDemand: bool, status: Status)
    | DownScale(order: seq<string>, numGW: int, now: string)

  function Next(t: Table, step: Step): Table {
    match step
    case Register(id, ip, kind, now) => if id != "" && ip != "" then Registered(t, id, ip, kind, now) else t
    case Start(order, room, browsing, mainApp, accepted) =>
      var key := FirstIdle(t, order);
      if room != "" && browsing != "" && mainApp != "" && key.Some? && key.value in t && accepted
      then StartedOn(t, key.value, room, browsing) else t
    case Stop(id, stopping) => if id in t && stopping then StoppedAt(t, id) else t
    case Unregister(id) => t - {id}
    case Monitor(key, onDemand, s) =>
      if key in t && (onDemand || t[key].ip != "")
      then Monitored(t, key, if onDemand then key else LastPart(key), s) else t
    case DownScale(order, numGW, now) => Reclaimed(t, Reclaimable(t, order, numGW), now)
  }

  function Run(t: Table, steps: seq<Step>): Table
    decreases |steps|
  {
    if steps == [] then t else Run(Next(t, steps[0]), steps[1..])
  }

  // ------------------------------------------------------------- invariants

  // A gateway that is not started has nobody on it.
  ghost predicate Inv(t: Table) { forall id | id in t :: t[id].state != Started ==> Vacant(t[id]) }

  lemma {:induction false} FirstIdleIs(t: Table, order: seq<string>)
    ensures match FirstIdle(t, order)
            case Some(key) => key in order && key in t && Idle(t[key])
            case None => forall id | id in order && id in t :: !Idle(t[id])
  {
    if order != [] {
      FirstIdleIs(t, order[1..]);
    }
  }

  lemma {:induction false} ReclaimableIdle(t: Table, order: seq<string>, numGW: int)
    ensures forall id | id in Reclaimable(t, order, numGW) :: id in order && id in t && Idle(t[id])
    ensures forall i, j :: 0 <= i < j < |Reclaimable(t, order, numGW)| ==>
              Reclaimable(t, order, numGW)[i] != Reclaimable(t, order, numGW)[j]
    ensures |Reclaimable(t, order, numGW)| <= if numGW <= 0 then 0 else numGW
    decreases |order|
  {
    if order != [] && numGW > 0 {
      var id := order[0];
      if id in t && Idle(t[id]) {
        var later := Reclaimable(t[id := t[id].(state := Stopping)], order[1..], numGW - 1);
        ReclaimableIdle(t[id := t[id].(state := Stopping)], order[1..], numGW - 1);
        assert id !in later;
        assert Reclaimable(t, order, numGW) == [id] + later;
      } else {
        ReclaimableIdle(t, order[1..], numGW);
      }
    }
  }

  lemma StepKeepsInv(t: Table, step: Step)
    requires Inv(t)
    ensures Inv(Next(t, step))
  {
    match step
    case DownScale(order, numGW, _) => ReclaimableIdle(t, order, numGW);
    case _ =>
  }

  lemma {:induction false} RunKeepsInv(t: Table, steps: seq<Step>)
    requires Inv(t)
    ensures Inv(Run(t, steps))
    decreases |steps|
  {
    if steps != [] {
      StepKeepsInv(t, steps[0]);
      RunKeepsInv(Next(t, steps[0]), steps[1..]);
    }
  }

  // In every table the handlers can reach, /start and the scaler only ever
  // choose gateways with nobody on them.
  lemma {:induction false} OnlyVacantChosen(steps: seq<Step>, order: seq<string>, numGW: int)
    ensures var t := Run(map[], steps);
            && (FirstIdle(t, order).Some? ==> FirstIdle(t, order).value in t && Vacant(t[FirstIdle(t, order).value]))
            && (forall id | id in Reclaimable(t, order, numGW) :: id in t && Vacant(t[id]))
  {
    RunKeepsInv(map[], steps);
    FirstIdleIs(Run(map[], steps), order);
    ReclaimableIdle(Run(map[], steps), order, numGW);
  }

  // -------------------------------------------------------------- meanings

  datatype Meaning = FreeOne | IdleOne | IvrOne | InCall | Gone | Other

  function Derived(e: Entry): Meaning {
    if Idle(e) then FreeOne
    else if e.state == Deleted then Gone
    else if e.state != Started then Other
    else if Shown(e.room).Some? then InCall
    else if Shown(e.callStarted).Some? || Shown(e.peerUri).Some? then IvrOne
    else IdleOne
  }

  // What the console calls free is what a start may take; what it calls a call
  // or the menu is a started gateway with someone on it.
  lemma {:induction false} ConsoleAgrees(steps: seq<Step>, id: string)
    requires id in Run(map[], steps)
    ensures var e := Run(map[], steps)[id];
            && (Derived(e) == FreeOne <==> FirstIdle(Run(map[], steps), [id]) == Some(id))
            && (Derived(e) == FreeOne ==> Vacant(e))
            && (Shown(e.room).Some? <==> Derived(e) == InCall)
            && (Derived(e) == IvrOne ==> e.state == Started && !Vacant(e))
  {
    RunKeepsInv(map[], steps);
    assert [id][1..] == [];
  }

  // ----------------------------------------------- whose call is it, /gateway_id

  function Lower(s: string): string {
    if s == "" then ""
    else [if 'A' <= s[0] <= 'Z' then s[0] - 'A' + 'a' else s[0]] + Lower(s[1..])
  }

  // "user@domain" and "sip:user@domain" name the same endpoint.
  function Normalized(uri: string): string {
    var clean := Strip(uri);
    if clean == "" || "sip:" <= clean then clean
    else if '@' in clean then "sip:" + clean
    else clean
  }

  predicate Serves(e: Entry, wanted: string) {
    Shown(e.peerUri).Some? && Lower(Normalized(e.peerUri)) == wanted
  }

  function StartOf(e: Entry): string { match Shown(e.callStarted) case Some(s) => s case None => "" }

  function Serving(t: Table, wanted: string): set<string> {
    set id | id in t && Serves(t[id], wanted)
  }

  // Of the gateways of the scan that serve the endpoint, none has a greater call start.
  ghost predicate Latest(t: Table, order: seq<string>, serving: set<string>, key: string)
    requires serving <= t.Keys
  {
    && key in order && key in serving
    && forall id | id in order && id in serving :: !Less(StartOf(t[key]), StartOf(t[id]))
  }

  lemma OneMoreId(order: seq<string>, k: nat)
    requires k < |order| && forall i, j :: 0 <= i < j < |order| ==> order[i] != order[j]
    ensures |IdsOf(order[..k + 1])| == |IdsOf(order[..k])| + 1
  {
    assert order[..k + 1] == order[..k] + [order[k]] && order[k] !in order[..k];
    assert IdsOf(order[..k + 1]) == IdsOf(order[..k]) + {order[k]};
  }

  lemma OneMoreIdle(t: Table, order: seq<string>, k: nat)
    requires k < |order| && forall i, j :: 0 <= i < j < |order| ==> order[i] != order[j]
    ensures |IdleAmong(t, order[..k + 1])| ==
            |IdleAmong(t, order[..k])| + if order[k] in t && Idle(t[order[k]]) then 1 else 0
  {
    var id := order[k];
    assert order[..k + 1] == order[..k] + [id] && id !in order[..k];
    assert IdleAmong(t, order[..k + 1]) == IdleAmong(t, order[..k]) + if id in t && Idle(t[id]) then {id} else {};
  }

  lemma AllIds(order: seq<string>, t: Table)
    requires ScanOf(order, t)
    ensures |IdsOf(order)| == |t|
  {
    assert IdsOf(order) == t.Keys;
  }

  class Redis {
    var entries: Table

    method FindAvailable(order: seq<string>) returns (found: Option<string>)
      ensures found == FirstIdle(entries, order)
    {
      var k := 0;
      while k < |order|
        invariant k <= |order|
        invariant FirstIdle(entries, order) == FirstIdle(entries, order[k..])
      {
        if order[k] in entries && Idle(entries[order[k]]) {
          return Some(order[k]);
        }
        assert order[k..][1..] == order[k + 1..];
        k := k + 1;
      }
      return None;
    }

    method RegisterGateway(id: string, ip: string, kind: string, now: string) returns (ok: bool)
      modifies this
      ensures entries == Next(old(entries), Register(id, ip, kind, now))
      ensures ok <==> id != "" && ip != ""
    {
      if ip == "" || id == "" {
        return false;
      }
      var e := if id in entries then entries[id] else NEW.(startTime := now);
      entries := entries[id := e.(ip := ip, kind := kind)];
      return true;
    }

    method StartGateway(order: seq<string>, room: string, browsing: string, mainApp: string, accepted: bool)
        returns (ok: bool)
      modifies this
      ensures entries == Next(old(entries), Start(order, room, browsing, mainApp, accepted))
      ensures ok <==> room != "" && browsing != "" && mainApp != "" && FirstIdle(old(entries), order).Some? && accepted
    {
      if browsing == "" || room == "" || mainApp == "" {
        return false;
      }
      var key := FindAvailable(order);
      FirstIdleIs(entries, order);
      if key.None? || !accepted {
        return false;
      }
      var id := LastPart(key.value);
      var e := if id in entries then entries[id]
               else Entry(entries[key.value].ip, Started, "", "", "", "", "", "", "", "", "", "");
      entries := entries[id := e.(state := Started, room := room, browsing := browsing)];
      return true;
    }

    method StopGateway(id: string, stopping: bool) returns (ok: bool)
      modifies this
      ensures entries == Next(old(entries), Stop(id, stopping))
      ensures ok <==> id in old(entries) && stopping
    {
      if id !in entries || !stopping {
        return false;
      }
      entries := entries[id := entries[id].(room := "", browsing := "", peerUri := "", peerName := "",
                                            callStarted := "", state := Deleted)];
      return true;
    }

    method UnregisterGateway(id: string) returns (ok: bool)
      modifies this
      ensures entries == Next(old(entries), Unregister(id))
      ensures ok <==> id in old(entries)
    {
      ok := id in entries;
      entries := entries - {id};
    }

    method MonitorGateway(key: string, onDemand: bool, status: Status)
      modifies this
      ensures entries == Next(old(entries), Monitor(key, onDemand, status))
    {
      if key !in entries || (!onDemand && entries[key].ip == "") {
        return;
      }
      var id := if onDemand then key else LastPart(key);
      if status == NoAnswer {
        entries := entries - {id};
      } else {
        entries := entries[id := Refreshed(entries[key], status)];
      }
    }

    // gatewayIdFromPeerUri: the first of the most recently started calls of the scan.
    method Resolve(order: seq<string>, peerUri: string) returns (best: Option<string>)
      ensures var serving := Serving(entries, Lower(Normalized(peerUri)));
              match best
              case Some(key) => Latest(entries, order, serving, key)
              case None => forall id | id in order :: id !in serving
    {
      var wanted := Lower(Normalized(peerUri));
      ghost var serving := Serving(entries, wanted);
      best := None;
      for k := 0 to |order|
        invariant best.None? ==> forall id | id in order[..k] :: id !in serving
        invariant best.Some? ==> Latest(entries, order[..k], serving, best.value)
      {
        var id := order[k];
        assert order[..k + 1] == order[..k] + [id];
        var serves := id in entries && Serves(entries[id], wanted);
        assert serves <==> id in serving;
        if serves && (best.None? || Less(StartOf(entries[best.value]), StartOf(entries[id]))) {
          NewLatest(entries, order[..k], serving, best, id);
          best := Some(id);
        }
      }
      assert order[..|order|] == order;
    }

    // downScale: the idle gateways of the scan, no more than asked, marked and handed to the provider.
    method ReclaimGateways(order: seq<string>, numGW: int, now: string) returns (ids: seq<string>)
      modifies this
      ensures entries == Next(old(entries), DownScale(order, numGW, now))
      ensures ids == Reclaimable(old(entries), order, numGW)
    {
      ids := [];
      var left := numGW;
      var k := 0;
      while k < |order| && left > 0
        invariant k <= |order|
        invariant entries == Reclaimed(old(entries), ids, now)
        invariant ids + Reclaimable(entries, order[k..], left) == Reclaimable(old(entries), order, numGW)
      {
        var id := order[k];
        assert order[k..][1..] == order[k + 1..];
        if id in entries && Idle(entries[id]) {
          MarkOne(entries, order[k..], left, now);
          entries := entries[id := entries[id].(state := Stopping, startTime := now)];
          Associates(ids, [id], Reclaimable(entries, order[k + 1..], left - 1));
          ids := ids + [id];
          left := left - 1;
        }
        k := k + 1;
      }
      assert ids + [] == ids;
    }

    // getCurrentCapacity counts every entry, whatever its state.
    method CurrentCapacity(order: seq<string>) returns (n: nat)
      requires ScanOf(order, entries)
      ensures n == |entries|
    {
      n := 0;
      for k := 0 to |order|
        invariant n == k == |IdsOf(order[..k])|
      {
        OneMoreId(order, k);
        n := n + 1;
      }
      assert order[..|order|] == order;
      AllIds(order, entries);
    }

    // getReadyToRunCapacity
    method ReadyCapacity(order: seq<string>) returns (n: nat)
      requires ScanOf(order, entries)
      ensures n == |IdleIn(entries)|
    {
      n := 0;
      for k := 0 to |order|
        invariant n == |IdleAmong(entries, order[..k])|
      {
        OneMoreIdle(entries, order, k);
        if order[k] in entries && Idle(entries[order[k]]) {
          n := n + 1;
        }
      }
      assert order[..|order|] == order && IdleAmong(entries, order) == IdleIn(entries);
    }
  }

  // A scan that meets every entry once.
  ghost predicate ScanOf(order: seq<string>, t: Table) {
    && (forall i, j :: 0 <= i < j < |order| ==> order[i] != order[j])
    && (forall id :: id in order <==> id in t)
  }

  function IdsOf(order: seq<string>): set<string> { set id | id in order }

  function IdleIn(t: Table): set<string> { set id | id in t && Idle(t[id]) }

  function IdleAmong(t: Table, order: seq<string>): set<string> {
    set id | id in order && id in t && Idle(t[id])
  }

  lemma NewLatest(t: Table, order: seq<string>, serving: set<string>, best: Option<string>, id: string)
    requires serving <= t.Keys && id in serving
    requires best.None? ==> forall i | i in order :: i !in serving
    requires best.Some? ==> Latest(t, order, serving, best.value) && Less(StartOf(t[best.value]), StartOf(t[id]))
    ensures Latest(t, order + [id], serving, id)
  {
    LessIrreflexive(StartOf(t[id]));
    if best.Some? {
      forall i | i in order && i in serving
        ensures !Less(StartOf(t[id]), StartOf(t[i]))
      {
        if Less(StartOf(t[id]), StartOf(t[i])) {
          LessTransitive(StartOf(t[best.value]), StartOf(t[id]), StartOf(t[i]));
        }
      }
    }
  }

  lemma {:induction false} LessIrreflexive(s: string)
    ensures !Less(s, s)
  {
    if s != "" {
      LessIrreflexive(s[1..]);
    }
  }

  lemma Associates(a: seq<string>, b: seq<string>, c: seq<string>)
    ensures a + (b + c) == a + b + c
  {
  }

  // What a scan gives depends on which entries are idle, and on nothing else.
  lemma {:induction false} IdleDecides(t: Table, u: Table, order: seq<string>, numGW: int)
    requires forall id :: (id in t && Idle(t[id])) <==> (id in u && Idle(u[id]))
    ensures Reclaimable(t, order, numGW) == Reclaimable(u, order, numGW)
    decreases |order|
  {
    if order != [] && numGW > 0 {
      var id := order[0];
      if id in t && Idle(t[id]) {
        IdleDecides(t[id := t[id].(state := Stopping)], u[id := u[id].(state := Stopping)], order[1..], numGW - 1);
      } else {
        IdleDecides(t, u, order[1..], numGW);
      }
    }
  }

  lemma MarkOne(t: Table, order: seq<string>, numGW: int, now: string)
    requires order != [] && numGW > 0 && order[0] in t && Idle(t[order[0]])
    ensures var marked := t[order[0] := t[order[0]].(state := Stopping, startTime := now)];
            Reclaimable(t, order, numGW) == [order[0]] + Reclaimable(marked, order[1..], numGW - 1)
  {
    var id := order[0];
    IdleDecides(t[id := t[id].(state := Stopping)], t[id := t[id].(state := Stopping, startTime := now)],
                order[1..], numGW - 1);
  }

  // The scan takes as many idle gateways as asked, or all there are.
  lemma {:induction false} ReclaimableCount(t: Table, order: seq<string>, numGW: nat)
    ensures |Reclaimable(t, order, numGW)| ==
            if numGW <= |IdleAmong(t, order)| then numGW else |IdleAmong(t, order)|
    decreases |order|
  {
    if order != [] {
      var id, rest := order[0], order[1..];
      if id in t && Idle(t[id]) {
        var marked := t[id := t[id].(state := Stopping)];
        assert IdleAmong(marked, rest) == IdleAmong(t, order) - {id};
        assert id in IdleAmong(t, order);
        if numGW > 0 {
          ReclaimableCount(marked, rest, numGW - 1);
        }
      } else {
        assert IdleAmong(t, rest) == IdleAmong(t, order);
        if numGW > 0 {
          ReclaimableCount(t, rest, numGW);
        }
      }
    }
  }

  // ------------------------------------- what one step means to the others

  ghost predicate OthersKept(t: Table, u: Table, id: string) {
    forall k | k != id :: (k in u <==> k in t) && (k in t ==> u[k] == t[k])
  }

  // A start that goes through takes one gateway out of the free ones and shows
  // its room as a call; nothing else moves.
  lemma StartShowsTheCall(t: Table, order: seq<string>, room: string, browsing: string, mainApp: string)
    requires FirstIdle(t, order).Some? && ':' !in FirstIdle(t, order).value
    requires Shown(room).Some? && browsing != "" && mainApp != ""
    ensures var id := FirstIdle(t, order).value;
            var u := Next(t, Start(order, room, browsing, mainApp, true));
            && id in u && u[id].room == room && u[id].browsing == browsing && u[id].ip == t[id].ip
            && Derived(u[id]) == InCall && FirstIdle(u, [id]) == None && OthersKept(t, u, id)
  {
    FirstIdleIs(t, order);
    var id := FirstIdle(t, order).value;
    LastPartOfPlain(id);
    assert [id][1..] == [];
  }

  // A gateway that answers is started, with the room, the browsing, the physical
  // room, the peer and the call start it answers, and keeps the rest.
  lemma ReplyShows(t: Table, id: string, onDemand: bool, s: Status)
    requires id in t && s.Up? && ':' !in id && (onDemand || t[id].ip != "")
    ensures var u := Next(t, Monitor(id, onDemand, s));
            && OthersKept(t, u, id) && id in u
            && u[id].state == Started && u[id].room == s.room && u[id].browsing == s.browsing
            && u[id].physicalRoom == s.physicalRoom && u[id].peerUri == s.peerUri
            && u[id].peerName == s.peerName && u[id].callStarted == s.callStarted
            && u[id].mediaDuration == (if s.duration == "" then t[id].mediaDuration else s.duration)
            && u[id].transcript == (if s.transcript == "" then t[id].transcript else s.transcript)
            && u[id].ip == t[id].ip && u[id].kind == t[id].kind && u[id].startTime == t[id].startTime
  {
    LastPartOfPlain(id);
  }

  // So the console shows a call for its room, the menu for a call without one,
  // and the endpoint it names finds it, alone on the scan or after all others.
  lemma ReplyIsResolved(t: Table, id: string, s: Status, order: seq<string>, uri: string)
    requires id in t && s.Up? && id in order
    requires Shown(s.peerUri).Some? && Lower(Normalized(uri)) == Lower(Normalized(s.peerUri))
    requires forall k | k in order && k != id && k in t :: !Serves(t[k], Lower(Normalized(uri)))
    ensures var u := Next(t, Monitor(id, true, s));
            var serving := Serving(u, Lower(Normalized(uri)));
            && Serves(u[id], Lower(Normalized(s.peerUri)))
            && (forall key :: Latest(u, order, serving, key) <==> key == id)
            && Derived(u[id]) == if Shown(s.room).Some? then InCall else IvrOne
  {
    LessIrreflexive(StartOf(Next(t, Monitor(id, true, s))[id]));
  }

  // Otherwise the console shows a call for a room, the menu for a call start or
  // a peer, and nobody for none of them.
  lemma ReplyIsDerived(t: Table, id: string, s: Status)
    requires id in t && s.Up?
    ensures var e := Next(t, Monitor(id, true, s))[id];
            && (Derived(e) == InCall <==> s.room != "" && s.room != "None")
            && (Derived(e) == IdleOne <==>
                  s.room in {"", "None"} && s.callStarted in {"", "None"} && s.peerUri in {"", "None"})
            && (Derived(e) in {InCall, IdleOne, IvrOne})
  {
  }

  // A gateway that answers it is down is free, with nobody on it, and keeps its
  // address, its kind and its figures.
  lemma DownFrees(t: Table, id: string)
    requires id in t
    ensures var u := Next(t, Monitor(id, true, Down));
            && OthersKept(t, u, id) && id in u && IsFree(u, id) && u[id].state == Stopped
            && Vacant(u[id]) && u[id].browsing == u[id].physicalRoom == u[id].peerName == ""
            && u[id].ip == t[id].ip && u[id].kind == t[id].kind && u[id].startTime == t[id].startTime
            && u[id].mediaDuration == t[id].mediaDuration && u[id].transcript == t[id].transcript
  {
  }

  // A registration sets the address and the kind, and makes a new entry free.
  lemma RegisterSets(t: Table, id: string, ip: string, kind: string, now: string)
    requires id != "" && ip != ""
    ensures var u := Next(t, Register(id, ip, kind, now));
            && OthersKept(t, u, id) && id in u && u[id].ip == ip && u[id].kind == kind
            && (id in t ==> u[id].(ip := t[id].ip, kind := t[id].kind) == t[id])
            && (id !in t ==> Derived(u[id]) == FreeOne && u[id].state == Created && Vacant(u[id])
                             && u[id].browsing == u[id].physicalRoom == u[id].peerName == ""
                             && u[id].startTime == now && u[id].mediaDuration == u[id].transcript == "0")
  {
  }

  // A stop leaves nobody on the gateway, which is gone and serves no endpoint;
  // its address, its kind and its figures stay.
  lemma StopEmpties(t: Table, id: string, wanted: string)
    requires id in t
    ensures var u := Next(t, Stop(id, true));
            && OthersKept(t, u, id) && id in u && Derived(u[id]) == Gone && Vacant(u[id]) && id !in Serving(u, wanted)
            && u[id].browsing == u[id].peerName == "" && u[id].physicalRoom == t[id].physicalRoom
            && u[id].ip == t[id].ip && u[id].kind == t[id].kind && u[id].startTime == t[id].startTime
            && u[id].mediaDuration == t[id].mediaDuration && u[id].transcript == t[id].transcript
  {
  }

  // A gateway stored under a longer key is started under its last part.
  lemma StartUnderLastPart(t: Table, key: string, room: string, browsing: string, mainApp: string)
    requires key in t && Idle(t[key]) && LastPart(key) !in t && room != "" && browsing != "" && mainApp != ""
    ensures var u, id := Next(t, Start([key], room, browsing, mainApp, true)), LastPart(key);
            && OthersKept(t, u, id) && id in u && u[id].ip == t[key].ip && u[id].state == Started
            && u[id].room == room && u[id].browsing == browsing
            && u[id].peerUri == u[id].callStarted == u[id].startTime == u[id].kind == ""
            && u[id].peerName == u[id].physicalRoom == u[id].mediaDuration == u[id].transcript == ""
  {
  }

  // What the scaler marks: the state and the instant, nothing else.
  lemma ReclaimMarks(t: Table, order: seq<string>, numGW: int, now: string)
    ensures var u, ids := Next(t, DownScale(order, numGW, now)), Reclaimable(t, order, numGW);
            && u.Keys == t.Keys
            && forall id | id in t ::
                 if id in ids then
                   && u[id].state == Stopping && u[id].startTime == now && Derived(u[id]) == Other
                   && u[id].(state := t[id].state, startTime := t[id].startTime) == t[id]
                 else u[id] == t[id]
  {
  }

  // LastPart is what follows the last colon.
  lemma {:induction false} LastPartIs(id: string)
    ensures ':' !in LastPart(id) && |LastPart(id)| <= |id| && id[|id| - |LastPart(id)|..] == LastPart(id)
    ensures |LastPart(id)| == |id| || id[|id| - |LastPart(id)| - 1] == ':'
  {
    if id != "" && id[|id| - 1] != ':' {
      LastPartIs(id[..|id| - 1]);
    }
  }

  // Endpoints are compared without case, character by character.
  lemma {:induction false} LowerIs(s: string)
    ensures |Lower(s)| == |s|
    ensures forall i :: 0 <= i < |s| ==>
      Lower(s)[i] == if 'A' <= s[i] <= 'Z' then (s[i] as int + 32) as char else s[i]
  {
    if s != "" {
      LowerIs(s[1..]);
    }
  }

  // An address without a scheme that has no '@' is left as it is, and blanks
  // around it do not count.
  lemma NormalizedIs(uri: string)
    ensures Strip(uri) == "" ==> Normalized(uri) == ""
    ensures '@' !in uri && Strip(uri) == uri ==> Normalized(uri) == uri
    ensures "sip:" <= uri && Strip(uri) == uri ==> Normalized(uri) == uri
    ensures Normalized(uri) == Normalized(Strip(uri))
  {
    StripTwice(uri);
  }

  lemma StripTwice(s: string)
    ensures Strip(Strip(s)) == Strip(s)
  {
    if Strip(s) != "" {
      Solid(Strip(s));
    }
  }

  // A gateway that is not free becomes free by one of two steps: a reply that
  // its container is down, or a registration when it has no entry.
  predicate Frees(t: Table, step: Step, id: string) {
    match step
    case Register(newId, ip, _, _) => newId == id && id != "" && ip != "" && id !in t
    case Monitor(key, onDemand, status) =>
      && key in t && (onDemand || t[key].ip != "") && status == Down
      && id == if onDemand then key else LastPart(key)
    case _ => false
  }

  predicate IsFree(t: Table, id: string) { id in t && Idle(t[id]) }

  lemma FreedBy(t: Table, step: Step, id: string)
    requires !IsFree(t, id)
    ensures IsFree(Next(t, step), id) <==> Frees(t, step, id)
  {
  }

  // So a start takes a gateway that was in use, stopped or reclaimed only after
  // one of them.
  lemma {:induction false} TakenOnlyOnceFreed(t: Table, steps: seq<Step>, order: seq<string>, id: string)
    requires !IsFree(t, id) && FirstIdle(Run(t, steps), order) == Some(id)
    ensures exists k :: 0 <= k < |steps| && Frees(Run(t, steps[..k]), steps[k], id)
    decreases |steps|
  {
    if steps == [] {
      FirstIdleIs(t, order);
    } else if Frees(t, steps[0], id) {
      assert Run(t, steps[..0]) == t;
    } else {
      var next, rest := Next(t, steps[0]), steps[1..];
      FreedBy(t, steps[0], id);
      TakenOnlyOnceFreed(next, rest, order, id);
      var k :| 0 <= k < |rest| && Frees(Run(next, rest[..k]), rest[k], id);
      assert steps[..k + 1][0] == steps[0] && steps[..k + 1][1..] == rest[..k];
      assert Run(t, steps[..k + 1]) == Run(next, rest[..k]);
    }
  }

  // A gateway being destroyed can be handed out: reclaimed, then seen down once.
  lemma ReclaimedCanBeTaken(t: Table, order: seq<string>, numGW: int, now: string, id: string)
    requires id in Reclaimable(t, order, numGW)
    ensures var u := Next(t, DownScale(order, numGW, now));
            !IsFree(u, id) && FirstIdle(Next(u, Monitor(id, true, Down)), [id]) == Some(id)
  {
    ReclaimableIdle(t, order, numGW);
  }

  // The gateway resolved for an endpoint is a started one, in every table the
  // handlers can reach.
  lemma {:induction false} ResolvedIsStarted(steps: seq<Step>, order: seq<string>, wanted: string, key: string)
    requires Latest(Run(map[], steps), order, Serving(Run(map[], steps), wanted), key)
    ensures Run(map[], steps)[key].state == Started
  {
    RunKeepsInv(map[], steps);
  }

  // An endpoint may give its address with or without the scheme.
  lemma SchemeOptional(uri: string)
    requires Strip(uri) == uri && '@' in uri && !("sip:" <= uri)
    ensures Normalized("sip:" + uri) == Normalized(uri) == "sip:" + uri
  {
    StripEnds(uri);
    Solid("sip:" + uri);
  }

  lemma Solid(s: string)
    requires s != "" && !IsSpace(s[0]) && !IsSpace(s[|s| - 1])
    ensures Strip(s) == s
  {
  }

  lemma StripEnds(s: string)
    requires Strip(s) == s && s != ""
    ensures !IsSpace(s[|s| - 1]) && !IsSpace(s[0])
  {
    assert |TrimRight(s)| == |s|;
  }
}
