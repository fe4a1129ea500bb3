// The `location` table of the SIP proxy, shared by the callers that lock a
// gateway (request_gw.py), the log reader that unlocks one (kamailioRun.py) and
// the scaler that reclaims whole machines (ScalerSIP.py). A SELECT and an
// UPDATE are separate atomic steps; anything may happen between them.
module Allocation {
  import opened LikePattern
  import opened Text

  // A registered contact. `vm` is the address part of `received`.
  datatype Row = Row(contact: string, username: string, vm: string, locked: bool, toStop: bool)

  type Rows = map<nat, Row>

  // A call in progress; `vm` is the alias part of the callee's contact.
  datatype Dialog = Dialog(calleeContact: string, vm: string)

  // CONCAT('%', text, '%')
  function Anywhere(text: string): string { "%" + text + "%" }

  predicate InDialog(dialogs: set<Dialog>, username: string) {
    exists d | d in dialogs :: Like(d.calleeContact, Anywhere(username))
  }

  predicate VmInDialog(dialogs: set<Dialog>, vm: string) {
    exists d | d in dialogs :: d.vm == vm
  }

  // ---------------------------------------------------------------- updates

  function Locked(rows: Rows, ids: set<nat>): Rows {
    map id | id in rows :: if id in ids then rows[id].(locked := true) else rows[id]
  }

  function Stopped(rows: Rows, ids: set<nat>): Rows {
    map id | id in rows :: if id in ids then rows[id].(locked := true, toStop := true) else rows[id]
  }

  function Unlocked(rows: Rows, ids: set<nat>): Rows {
    map id | id in rows :: if id in ids then rows[id].(locked := false) else rows[id]
  }

  // The rows lockGw's UPDATE touches for one contact of its list.
  function Lockable(rows: Rows, dialogs: set<Dialog>, contact: string, username: string): set<nat> {
    set id | id in rows && rows[id].contact == contact && !rows[id].locked && !InDialog(dialogs, username)
  }

  // The rows downScale's UPDATE touches for one machine.
  function Stoppable(rows: Rows, vm: string): set<nat> {
    set id | id in rows && rows[id].vm == vm && !rows[id].locked
  }

  // The rows unlock's UPDATE touches.
  function Releasable(rows: Rows, dstUser: string): set<nat> {
    set id | id in rows && Like(rows[id].contact, Anywhere(dstUser))
  }

  // ---------------------------------------------------------------- queries

  datatype Candidate = Candidate(contact: string, username: string, vm: string)

  function CandidateOf(row: Row): Candidate { Candidate(row.contact, row.username, row.vm) }

  datatype VmCount = VmCount(vm: string, count: nat)

  // Unlocked, out of any dialog, and a gateway by its name; `busy` says whether
  // its machine already serves a call.
  function Free(rows: Rows, dialogs: set<Dialog>, prefix: string, busy: bool): set<nat> {
    set id | id in rows && !rows[id].locked && !InDialog(dialogs, rows[id].username)
             && Like(rows[id].username, Anywhere(prefix)) && VmInDialog(dialogs, rows[id].vm) == busy
  }

  function OnVm(rows: Rows, ids: set<nat>, vm: string): set<nat> {
    set id | id in ids && id in rows && rows[id].vm == vm
  }

  ghost predicate IsOneOf(rows: Rows, ids: set<nat>, c: Candidate) {
    exists id | id in ids && id in rows :: CandidateOf(rows[id]) == c
  }

  ghost predicate Listed(list: seq<Candidate>, vm: string) { exists c | c in list :: c.vm == vm }

  ghost predicate DistinctVms(list: seq<Candidate>) {
    forall i, j :: 0 <= i < j < |list| ==> list[i].vm != list[j].vm
  }

  function CountOn(rows: Rows, ids: set<nat>, vm: string): nat { |OnVm(rows, ids, vm)| }

  ghost predicate FewestFirst(rows: Rows, ids: set<nat>, list: seq<Candidate>) {
    forall i, j :: 0 <= i < j < |list| ==> CountOn(rows, ids, list[i].vm) <= CountOn(rows, ids, list[j].vm)
  }

  // GROUP BY vm keeps one row of each machine, whichever; fewest free first.
  ghost predicate Grouped(rows: Rows, ids: set<nat>, list: seq<Candidate>) {
    && (forall c | c in list :: IsOneOf(rows, ids, c))
    && (forall id | id in ids && id in rows :: Listed(list, rows[id].vm))
    && DistinctVms(list) && FewestFirst(rows, ids, list)
  }

  // lockGw's first SELECT, on the machines already in use, and its second, on
  // the others, when the first found nothing.
  ghost predicate IsSelected(rows: Rows, dialogs: set<Dialog>, prefix: string, busy: bool, list: seq<Candidate>) {
    Grouped(rows, Free(rows, dialogs, prefix, busy), list)
  }

  // The gateways of a machine no one uses: none of its rows locked, no dialog.
  function Idle(rows: Rows, dialogs: set<Dialog>, prefix: string, vm: string): set<nat> {
    if VmInDialog(dialogs, vm) || (exists id | id in rows :: rows[id].vm == vm && rows[id].locked) then {}
    else set id | id in rows && rows[id].vm == vm && Like(rows[id].username, Anywhere(prefix))
  }

  // downScale's SELECT: machines with their count, largest first.
  ghost predicate IsVmList(rows: Rows, dialogs: set<Dialog>, prefix: string, list: seq<VmCount>) {
    && (forall i :: 0 <= i < |list| ==>
          list[i].count == |Idle(rows, dialogs, prefix, list[i].vm)| > 0)
    && (forall i, j :: 0 <= i < j < |list| ==> list[i].vm != list[j].vm && list[i].count >= list[j].count)
    && (forall id | id in rows && Idle(rows, dialogs, prefix, rows[id].vm) != {} ::
          exists v | v in list :: v.vm == rows[id].vm)
  }

  // ---------------------------------------------------------- state machine

  // What happened to the table, oldest first. A row inserted anew starts
  // unlocked, whatever the other rows of its contact.
  datatype Event =
    | Handed(caller: nat, contact: string, ids: set<nat>)
    | Reclaimed(vm: string, ids: set<nat>)
    | Released(contacts: set<string>, ids: set<nat>)
    | Registered(contact: string)

  datatype State = State(
    rows: Rows,
    used: set<nat>,                       // row ids given so far
    dialogs: set<Dialog>,
    pending: map<nat, seq<Candidate>>,    // what each caller still has to try
    second: set<nat>,                     // the callers whose first SELECT found nothing
    vmList: seq<VmCount>,                 // what the scaler still has to try
    numGW: int,
    log: seq<Event>)

  datatype Step =
    | Select(caller: nat, list: seq<Candidate>)
    | SelectAgain(caller: nat, list: seq<Candidate>)
    | TryLock(caller: nat)
    | Unlock(dstUser: string)
    | SelectVms(vms: seq<VmCount>, asked: nat)
    | TryStop
    | Register(id: nat, contact: string, username: string, vm: string)
    | Refresh(id: nat, newVm: string)
    | Unregister(id: nat)
    | Dialogs(now: set<Dialog>)

  ghost predicate Enabled(s: State, step: Step, prefix: string) {
    match step
    case Select(caller, list) => IsSelected(s.rows, s.dialogs, prefix, true, list)
    case SelectAgain(caller, list) => caller in s.second && IsSelected(s.rows, s.dialogs, prefix, false, list)
    case SelectVms(vms, asked) => IsVmList(s.rows, s.dialogs, prefix, vms)
    case Register(id, _, _, _) => id !in s.used
    case _ => true
  }

  function ContactsOf(rows: Rows, ids: set<nat>): set<string> {
    set id | id in ids && id in rows :: rows[id].contact
  }

  function Next(s: State, step: Step): State {
    match step
    case Select(caller, list) =>
      s.(pending := s.pending[caller := list], second := if list == [] then s.second + {caller} else s.second - {caller})
    case SelectAgain(caller, list) => s.(pending := s.pending[caller := list], second := s.second - {caller})
    case TryLock(caller) =>
      if caller !in s.pending || s.pending[caller] == [] then s
      else
        var c := s.pending[caller][0];
        var ids := Lockable(s.rows, s.dialogs, c.contact, c.username);
        if ids == {} then s.(pending := s.pending[caller := s.pending[caller][1..]])
        else s.(rows := Locked(s.rows, ids), pending := s.pending[caller := []],
                log := s.log + [Handed(caller, c.contact, ids)])
    case Unlock(dstUser) =>
      var ids := Releasable(s.rows, dstUser);
      s.(rows := Unlocked(s.rows, ids), log := s.log + [Released(ContactsOf(s.rows, ids), ids)])
    case SelectVms(vms, asked) => s.(vmList := vms, numGW := asked)
    case TryStop =>
      if s.vmList == [] then s
      else
        var v := s.vmList[0];
        var ids := Stoppable(s.rows, v.vm);
        var rest := s.(vmList := s.vmList[1..]);
        if v.count <= s.numGW && |ids| == v.count
        then rest.(rows := Stopped(s.rows, ids), numGW := s.numGW - v.count,
                   log := s.log + [Reclaimed(v.vm, ids)])
        else rest
    case Register(id, contact, username, vm) =>
      s.(rows := s.rows[id := Row(contact, username, vm, false, false)], used := s.used + {id},
         log := s.log + [Registered(contact)])
    case Refresh(id, newVm) =>
      if id in s.rows then s.(rows := s.rows[id := s.rows[id].(vm := newVm)]) else s
    case Unregister(id) => s.(rows := map i | i in s.rows && i != id :: s.rows[i])
    case Dialogs(now) => s.(dialogs := now)
  }

  // The update of a step on the rows: whether it locks a row, marks it to be
  // stopped, or unlocks it.
  ghost predicate Locks(s: State, step: Step, id: nat) {
    && step.TryLock? && step.caller in s.pending && s.pending[step.caller] != []
    && var c := s.pending[step.caller][0];
       id in s.rows && !s.rows[id].locked && s.rows[id].contact == c.contact
       && forall d | d in s.dialogs :: !Like(d.calleeContact, "%" + c.username + "%")
  }

  ghost predicate Stops(s: State, step: Step, id: nat) {
    && step.TryStop? && s.vmList != [] && s.vmList[0].count <= s.numGW
    && |set i | i in s.rows && s.rows[i].vm == s.vmList[0].vm && !s.rows[i].locked| == s.vmList[0].count
    && id in s.rows && !s.rows[id].locked && s.rows[id].vm == s.vmList[0].vm
  }

  predicate Unlocks(s: State, step: Step, id: nat) {
    step.Unlock? && id in s.rows && Like(s.rows[id].contact, "%" + step.dstUser + "%")
  }

  // What a step changes of a row, and nothing else does.
  lemma StepChanges(s: State, step: Step, id: nat)
    ensures var t := Next(s, step);
            && (id in t.rows <==> (step.Register? && step.id == id) || (id in s.rows && step != Unregister(id)))
            && (step.Register? && step.id == id ==>
                  t.rows[id] == Row(step.contact, step.username, step.vm, false, false))
    ensures id in s.rows && id in Next(s, step).rows && !(step.Register? && step.id == id) ==>
      var a, b := s.rows[id], Next(s, step).rows[id];
      && a.contact == b.contact && a.username == b.username
      && b.vm == (if step.Refresh? && step.id == id then step.newVm else a.vm)
      && b.locked == ((a.locked && !Unlocks(s, step, id)) || Locks(s, step, id) || Stops(s, step, id))
      && b.toStop == (a.toStop || Stops(s, step, id))
  {
    if step.TryStop? && s.vmList != [] {
      assert Stoppable(s.rows, s.vmList[0].vm) ==
             set i | i in s.rows && s.rows[i].vm == s.vmList[0].vm && !s.rows[i].locked;
    }
    if step.TryLock? && step.caller in s.pending && s.pending[step.caller] != [] {
      var c := s.pending[step.caller][0];
      assert InDialog(s.dialogs, c.username) <==>
             !forall d | d in s.dialogs :: !Like(d.calleeContact, "%" + c.username + "%");
      assert id in Lockable(s.rows, s.dialogs, c.contact, c.username) <==> Locks(s, step, id);
    }
  }

  ghost predicate Initial(s: State) { s.rows.Keys <= s.used && s.log == [] }

  // t is reached from s by these steps, taken by any number of callers, the
  // scaler, the unlocking log reader and the network in any order.
  ghost predicate Runs(prefix: string, s: State, steps: seq<Step>, t: State)
    decreases |steps|
  {
    if steps == [] then s == t
    else Enabled(s, steps[0], prefix) && Runs(prefix, Next(s, steps[0]), steps[1..], t)
  }

  // ----------------------------------------------------- what the log says

  // The row was handed out or reclaimed and not unlocked since.
  ghost predicate HeldRow(log: seq<Event>, id: nat) {
    log != [] &&
    var before := log[..|log| - 1];
    match log[|log| - 1]
    case Handed(_, _, ids) => id in ids || HeldRow(before, id)
    case Reclaimed(_, ids) => id in ids || HeldRow(before, id)
    case Released(_, ids) => id !in ids && HeldRow(before, id)
    case Registered(_) => HeldRow(before, id)
  }

  // The contact was handed to a caller, and neither unlocked nor registered
  // under a new row since.
  ghost predicate HeldContact(log: seq<Event>, contact: string) {
    log != [] &&
    var before := log[..|log| - 1];
    match log[|log| - 1]
    case Handed(_, c, _) => c == contact || HeldContact(before, contact)
    case Reclaimed(_, _) => HeldContact(before, contact)
    case Released(contacts, _) => contact !in contacts && HeldContact(before, contact)
    case Registered(c) => c != contact && HeldContact(before, contact)
  }

  // Nothing held is handed out or reclaimed.
  ghost predicate Safe(log: seq<Event>) {
    log == [] ||
    (var before := log[..|log| - 1];
     Safe(before) &&
     match log[|log| - 1]
     case Handed(_, c, ids) => !HeldContact(before, c) && forall id | id in ids :: !HeldRow(before, id)
     case Reclaimed(_, ids) => forall id | id in ids :: !HeldRow(before, id)
     case _ => true)
  }

  ghost predicate Inv(s: State) {
    && s.rows.Keys <= s.used
    && (forall id :: HeldRow(s.log, id) ==> id in s.used)
    && (forall id | id in s.rows :: HeldRow(s.log, id) ==> s.rows[id].locked)
    && (forall id | id in s.rows :: HeldContact(s.log, s.rows[id].contact) ==> s.rows[id].locked)
    && Safe(s.log)
  }

  ghost predicate Takes(e: Event, id: nat) { (e.Handed? || e.Reclaimed?) && id in e.ids }

  ghost predicate FreesRow(e: Event, id: nat) { e.Released? && id in e.ids }

  ghost predicate FreesContact(e: Event, contact: string) {
    (e.Released? && contact in e.contacts) || e == Registered(contact)
  }

  lemma Appended(log: seq<Event>, e: Event)
    ensures (log + [e])[..|log + [e]| - 1] == log
    ensures (log + [e])[|log + [e]| - 1] == e
  {
  }

  // One more event on the log, row by row and contact by contact.
  lemma RowAppended(log: seq<Event>, e: Event, id: nat)
    ensures HeldRow(log + [e], id) <==>
            Takes(e, id) || (!FreesRow(e, id) && HeldRow(log, id))
  {
    Appended(log, e);
  }

  lemma ContactAppended(log: seq<Event>, e: Event, contact: string)
    ensures HeldContact(log + [e], contact) <==>
            (e.Handed? && e.contact == contact) || (!FreesContact(e, contact) && HeldContact(log, contact))
  {
    Appended(log, e);
  }

  lemma SafeAppended(log: seq<Event>, e: Event)
    requires Safe(log)
    requires e.Handed? ==> !HeldContact(log, e.contact)
    requires forall id | Takes(e, id) :: !HeldRow(log, id)
    ensures Safe(log + [e])
  {
    Appended(log, e);
    assert e.Handed? || e.Reclaimed? ==> forall id | id in e.ids :: Takes(e, id);
  }

  // What an event and the rows after it owe each other.
  lemma EventKeepsInv(s: State, t: State, e: Event)
    requires Inv(s) && t.log == s.log + [e] && t.used == s.used && t.rows.Keys == s.rows.Keys
    requires e.Handed? ==> !HeldContact(s.log, e.contact)
    requires forall id | Takes(e, id) :: id in s.rows && !HeldRow(s.log, id)
    requires forall id | id in s.rows :: t.rows[id].contact == s.rows[id].contact
    requires forall id | id in s.rows ::
      || t.rows[id].locked
      || (!s.rows[id].locked && !Takes(e, id) && !(e.Handed? && s.rows[id].contact == e.contact))
      || (FreesRow(e, id) && FreesContact(e, s.rows[id].contact))
    ensures Inv(t)
  {
    SafeAppended(s.log, e);
    forall id | HeldRow(t.log, id)
      ensures id in t.used && (id in t.rows ==> t.rows[id].locked)
    {
      RowAppended(s.log, e, id);
    }
    forall id | id in t.rows && HeldContact(t.log, t.rows[id].contact)
      ensures t.rows[id].locked
    {
      ContactAppended(s.log, e, t.rows[id].contact);
    }
  }

  lemma TryLockKeepsInv(s: State, caller: nat)
    requires Inv(s)
    ensures Inv(Next(s, TryLock(caller)))
  {
    if caller in s.pending && s.pending[caller] != [] {
      var c := s.pending[caller][0];
      var ids := Lockable(s.rows, s.dialogs, c.contact, c.username);
      if ids != {} {
        var id :| id in ids;
        assert s.rows[id].contact == c.contact && !s.rows[id].locked;
        assert !HeldContact(s.log, c.contact);
        EventKeepsInv(s, Next(s, TryLock(caller)), Handed(caller, c.contact, ids));
      }
    }
  }

  lemma TryStopKeepsInv(s: State)
    requires Inv(s)
    ensures Inv(Next(s, TryStop))
  {
    if s.vmList != [] {
      var v := s.vmList[0];
      var ids := Stoppable(s.rows, v.vm);
      if v.count <= s.numGW && |ids| == v.count {
        EventKeepsInv(s, Next(s, TryStop), Reclaimed(v.vm, ids));
      }
    }
  }

  lemma UnlockKeepsInv(s: State, dstUser: string)
    requires Inv(s)
    ensures Inv(Next(s, Unlock(dstUser)))
  {
    var ids := Releasable(s.rows, dstUser);
    assert forall id | id in ids :: s.rows[id].contact in ContactsOf(s.rows, ids);
    EventKeepsInv(s, Next(s, Unlock(dstUser)), Released(ContactsOf(s.rows, ids), ids));
  }

  lemma StepKeepsInv(s: State, step: Step, prefix: string)
    requires Inv(s) && Enabled(s, step, prefix)
    ensures Inv(Next(s, step))
  {
    match step
    case TryLock(caller) => TryLockKeepsInv(s, caller);
    case TryStop => TryStopKeepsInv(s);
    case Unlock(dstUser) => UnlockKeepsInv(s, dstUser);
    case Register(id, contact, _, _) => RegisterKeepsInv(s, step);
    case _ =>
  }

  lemma RegisterKeepsInv(s: State, step: Step)
    requires Inv(s) && step.Register? && step.id !in s.used
    ensures Inv(Next(s, step))
  {
    var t, e := Next(s, step), Registered(step.contact);
    SafeAppended(s.log, e);
    forall id | HeldRow(t.log, id)
      ensures id in t.used && (id in t.rows ==> t.rows[id].locked)
    {
      RowAppended(s.log, e, id);
    }
    forall id | id in t.rows && HeldContact(t.log, t.rows[id].contact)
      ensures t.rows[id].locked
    {
      ContactAppended(s.log, e, t.rows[id].contact);
    }
  }

  lemma {:induction false} ReachableInv(prefix: string, s: State, steps: seq<Step>, t: State)
    requires Inv(s) && Runs(prefix, s, steps, t)
    ensures Inv(t)
    decreases |steps|
  {
    if steps != [] {
      StepKeepsInv(s, steps[0], prefix);
      ReachableInv(prefix, Next(s, steps[0]), steps[1..], t);
    }
  }

  // ------------------------------------------------- the log, event by event

  lemma {:induction false} RowReleasedBetween(log: seq<Event>, id: nat, i: nat)
    requires i < |log| && Takes(log[i], id) && !HeldRow(log, id)
    ensures exists k :: i < k < |log| && FreesRow(log[k], id)
    decreases |log|
  {
    var before := log[..|log| - 1];
    if i < |log| - 1 && !FreesRow(log[|log| - 1], id) {
      assert before[i] == log[i];
      RowReleasedBetween(before, id, i);
      var k :| i < k < |before| && FreesRow(before[k], id);
      assert log[k] == before[k];
    }
  }

  lemma {:induction false} ContactReleasedBetween(log: seq<Event>, contact: string, i: nat)
    requires i < |log| && log[i].Handed? && log[i].contact == contact && !HeldContact(log, contact)
    ensures exists k :: i < k < |log| && FreesContact(log[k], contact)
    decreases |log|
  {
    var before := log[..|log| - 1];
    if i < |log| - 1 && !FreesContact(log[|log| - 1], contact) {
      assert before[i] == log[i];
      ContactReleasedBetween(before, contact, i);
      var k :| i < k < |before| && FreesContact(before[k], contact);
      assert log[k] == before[k];
    }
  }

  lemma {:induction false} SafeAt(log: seq<Event>, j: nat)
    requires Safe(log) && j < |log|
    ensures Safe(log[..j + 1])
    decreases |log|
  {
    if j + 1 == |log| {
      assert log[..j + 1] == log;
    } else {
      var before := log[..|log| - 1];
      SafeAt(before, j);
      assert before[..j + 1] == log[..j + 1];
    }
  }

  // In every interleaving, a contact handed to a caller is not handed to
  // another before it was unlocked, or registered under a new row, in between.
  lemma HandedAtMostOnce(prefix: string, s: State, steps: seq<Step>, t: State, i: nat, j: nat)
    requires Initial(s) && Runs(prefix, s, steps, t)
    requires i < j < |t.log| && t.log[i].Handed? && t.log[j].Handed?
    requires t.log[i].contact == t.log[j].contact
    ensures exists k :: i < k < j && FreesContact(t.log[k], t.log[i].contact)
  {
    ReachableInv(prefix, s, steps, t);
    SafeAt(t.log, j);
    var upTo, c := t.log[..j], t.log[i].contact;
    assert t.log[..j + 1][..j] == upTo;
    assert upTo[i] == t.log[i];
    ContactReleasedBetween(upTo, c, i);
    var k :| i < k < |upTo| && FreesContact(upTo[k], c);
    assert t.log[k] == upTo[k];
  }

  // A row handed out or marked to be stopped is neither handed out nor
  // reclaimed again before it is unlocked in between.
  lemma RowTakenAtMostOnce(prefix: string, s: State, steps: seq<Step>, t: State, id: nat, i: nat, j: nat)
    requires Initial(s) && Runs(prefix, s, steps, t)
    requires i < j < |t.log| && Takes(t.log[i], id) && Takes(t.log[j], id)
    ensures exists k :: i < k < j && FreesRow(t.log[k], id)
  {
    ReachableInv(prefix, s, steps, t);
    SafeAt(t.log, j);
    var upTo := t.log[..j];
    assert t.log[..j + 1][..j] == upTo;
    assert upTo[i] == t.log[i];
    RowReleasedBetween(upTo, id, i);
    var k :| i < k < |upTo| && FreesRow(upTo[k], id);
    assert t.log[k] == upTo[k];
  }

  // At the update the contact is registered and unlocked and no dialog names
  // the gateway it was selected under; after it all its rows are locked.
  ghost predicate HandsOutFree(u: State, step: Step, e: Event) {
    && step.TryLock? && step.caller in u.pending && u.pending[step.caller] != [] && e.Handed?
    && var c := u.pending[step.caller][0];
       && e.caller == step.caller && e.contact == c.contact && e.ids != {} && !InDialog(u.dialogs, c.username)
       && (forall id | id in e.ids :: id in u.rows && u.rows[id].contact == c.contact && !u.rows[id].locked)
       && (forall id | id in u.rows && u.rows[id].contact == c.contact :: Next(u, step).rows[id].locked)
  }

  lemma LogGrowsByOne(s: State, step: Step)
    ensures s.log <= Next(s, step).log && |Next(s, step).log| <= |s.log| + 1
    ensures |Next(s, step).log| > |s.log| && Next(s, step).log[|s.log|].Handed? ==>
      HandsOutFree(s, step, Next(s, step).log[|s.log|])
  {
  }

  lemma {:induction false} LogGrows(prefix: string, s: State, steps: seq<Step>, t: State)
    requires Runs(prefix, s, steps, t)
    ensures s.log <= t.log
    decreases |steps|
  {
    if steps != [] {
      LogGrowsByOne(s, steps[0]);
      LogGrows(prefix, Next(s, steps[0]), steps[1..], t);
    }
  }

  // Every hand-out of a run happened at one of its steps, in a state in which
  // the contact was free.
  lemma {:induction false} HandedWasFree(prefix: string, s: State, steps: seq<Step>, t: State, i: nat)
      returns (k: nat, u: State)
    requires Runs(prefix, s, steps, t) && |s.log| <= i < |t.log| && t.log[i].Handed?
    ensures k < |steps| && Runs(prefix, s, steps[..k], u) && |u.log| == i && HandsOutFree(u, steps[k], t.log[i])
    decreases |steps|
  {
    var next := Next(s, steps[0]);
    LogGrowsByOne(s, steps[0]);
    LogGrows(prefix, next, steps[1..], t);
    if i < |next.log| {
      k, u := 0, s;
      assert next.log[i] == t.log[i];
    } else {
      var j;
      j, u := HandedWasFree(prefix, next, steps[1..], t, i);
      k := j + 1;
      assert steps[..k][0] == steps[0] && steps[..k][1..] == steps[1..][..j];
    }
  }

  // The caller is given c, and at that moment a row of that contact and name is
  // a gateway's, unlocked and in no dialog.
  ghost predicate Gives(w: State, step: Step, prefix: string, caller: nat, c: Candidate) {
    && (step.Select? || step.SelectAgain?) && step.caller == caller && c in step.list
    && IsOneOf(w.rows, Free(w.rows, w.dialogs, prefix, step.Select?), c)
  }

  // What a caller has to try was there at the beginning, or was given to it.
  lemma {:induction false} PendingWasGiven(prefix: string, s: State, steps: seq<Step>, t: State,
                                           caller: nat, c: Candidate) returns (k: nat, w: State)
    requires Runs(prefix, s, steps, t) && caller in t.pending && c in t.pending[caller]
    requires caller in s.pending ==> c !in s.pending[caller]
    ensures k < |steps| && Runs(prefix, s, steps[..k], w) && Gives(w, steps[k], prefix, caller, c)
    decreases |steps|
  {
    var next := Next(s, steps[0]);
    if caller in next.pending && c in next.pending[caller] {
      k, w := 0, s;
      GivenNow(prefix, s, steps[0], caller, c);
    } else {
      var j;
      j, w := PendingWasGiven(prefix, next, steps[1..], t, caller, c);
      k := j + 1;
      assert steps[..k][0] == steps[0] && steps[..k][1..] == steps[1..][..j];
    }
  }

  lemma GivenNow(prefix: string, s: State, step: Step, caller: nat, c: Candidate)
    requires Enabled(s, step, prefix) && (caller in s.pending ==> c !in s.pending[caller])
    requires var t := Next(s, step); caller in t.pending && c in t.pending[caller]
    ensures Gives(s, step, prefix, caller, c)
  {
    assert step.Select? || step.SelectAgain?;
  }

  // A contact handed out was selected for that caller as a free gateway's.
  lemma HandedWasSelected(prefix: string, s: State, steps: seq<Step>, t: State, i: nat)
      returns (j: nat, k: nat, w: State, c: Candidate)
    requires s.pending == map[] && Runs(prefix, s, steps, t)
    requires |s.log| <= i < |t.log| && t.log[i].Handed?
    ensures j < k < |steps| && Runs(prefix, s, steps[..j], w)
    ensures c.contact == t.log[i].contact && Gives(w, steps[j], prefix, t.log[i].caller, c)
  {
    var u;
    k, u := HandedWasFree(prefix, s, steps, t, i);
    c := u.pending[steps[k].caller][0];
    j, w := PendingWasGiven(prefix, s, steps[..k], u, steps[k].caller, c);
    assert steps[..k][..j] == steps[..j];
  }

  // ------------------------------------------------------ callers and scaler

  lemma {:induction false} RunsSplit(prefix: string, s: State, steps: seq<Step>, t: State, k: nat) returns (u: State)
    requires Runs(prefix, s, steps, t) && k <= |steps|
    ensures Runs(prefix, s, steps[..k], u) && Runs(prefix, u, steps[k..], t)
    decreases |steps|
  {
    u := s;
    if k > 0 {
      u := RunsSplit(prefix, Next(s, steps[0]), steps[1..], t, k - 1);
      assert steps[..k][1..] == steps[1..][..k - 1] && steps[k..] == steps[1..][k - 1..];
    } else {
      assert steps[..0] == [] && steps[0..] == steps;
    }
  }

  // A caller asks again only when its first SELECT found nothing, and once.
  ghost predicate AskedInVain(steps: seq<Step>, caller: nat, j: int) {
    && 0 <= j < |steps| && steps[j] == Select(caller, [])
    && forall i | j < i < |steps| :: !(steps[i].Select? || steps[i].SelectAgain?) || steps[i].caller != caller
  }

  lemma {:induction false} SecondMeans(prefix: string, s: State, steps: seq<Step>, t: State, caller: nat)
    requires s.second == {} && Runs(prefix, s, steps, t)
    ensures caller in t.second <==> exists j :: AskedInVain(steps, caller, j)
    decreases |steps|
  {
    if steps != [] {
      var n := |steps| - 1;
      var u := RunsSplit(prefix, s, steps, t, n);
      SecondMeans(prefix, s, steps[..n], u, caller);
      var last := steps[n];
      assert steps[n..] == [last] && [last][1..] == [];
      assert t == Next(u, last);
      assert forall i | 0 <= i < n :: steps[..n][i] == steps[i];
      if j :| AskedInVain(steps[..n], caller, j) {
        if (last.Select? || last.SelectAgain?) && last.caller == caller {
          assert forall i | 0 <= i < n :: !AskedInVain(steps, caller, i);
        } else {
          assert AskedInVain(steps, caller, j);
        }
      }
      if last == Select(caller, []) {
        assert AskedInVain(steps, caller, n);
      }
      if j :| AskedInVain(steps, caller, j) {
        assert j < n ==> AskedInVain(steps[..n], caller, j);
      }
    }
  }

  // A second SELECT follows a first one of that caller that found nothing.
  lemma AsksAgainInVain(prefix: string, s: State, steps: seq<Step>, t: State, k: nat)
    requires s.second == {} && Runs(prefix, s, steps, t) && k < |steps| && steps[k].SelectAgain?
    ensures exists j :: AskedInVain(steps[..k], steps[k].caller, j)
  {
    var u := RunsSplit(prefix, s, steps, t, k);
    assert steps[k..][0] == steps[k];
    SecondMeans(prefix, s, steps[..k], u, steps[k].caller);
  }

  // A caller is handed one gateway of a list: before the next one it asks again.
  lemma HandedOnceAList(prefix: string, s: State, steps: seq<Step>, t: State, i: nat, j: nat)
      returns (a: nat, m: nat, b: nat)
    requires s.log == [] && Runs(prefix, s, steps, t)
    requires i < j < |t.log| && t.log[i].Handed? && t.log[j].Handed? && t.log[i].caller == t.log[j].caller
    ensures a < m < b < |steps| && steps[a] == steps[b] == TryLock(t.log[i].caller)
    ensures (steps[m].Select? || steps[m].SelectAgain?) && steps[m].caller == t.log[i].caller
  {
    var u, w;
    var caller := t.log[i].caller;
    a, u := HandedWasFree(prefix, s, steps, t, i);
    b, w := HandedWasFree(prefix, s, steps, t, j);
    LaterHanded(prefix, s, steps, a, u, b, w);
    var next := Next(u, steps[a]);
    assert steps[..b][..a + 1] == steps[..a + 1] && steps[..a + 1][..a] == steps[..a];
    var v := RunsSplit(prefix, s, steps[..b], w, a + 1);
    RunsOnce(prefix, s, steps[..a + 1], v, next, a, u);
    var c := w.pending[caller][0];
    var k, x := PendingWasGiven(prefix, next, steps[..b][a + 1..], w, caller, c);
    m := a + 1 + k;
  }

  // The later of two hand-outs is the later step.
  lemma LaterHanded(prefix: string, s: State, steps: seq<Step>, a: nat, u: State, b: nat, w: State)
    requires a < |steps| && b < |steps| && |u.log| < |w.log|
    requires Runs(prefix, s, steps[..a], u) && Runs(prefix, s, steps[..b], w)
    ensures a < b
  {
    if b <= a {
      assert steps[..a][..b] == steps[..b];
      var x := RunsSplit(prefix, s, steps[..a], u, b);
      RunsTo(prefix, s, steps[..b], x, w);
      LogGrows(prefix, x, steps[..a][b..], u);
    }
  }

  // A run's end is determined by its steps.
  lemma {:induction false} RunsTo(prefix: string, s: State, steps: seq<Step>, t: State, u: State)
    requires Runs(prefix, s, steps, t) && Runs(prefix, s, steps, u)
    ensures t == u
    decreases |steps|
  {
    if steps != [] {
      RunsTo(prefix, Next(s, steps[0]), steps[1..], t, u);
    }
  }

  lemma RunsOnce(prefix: string, s: State, steps: seq<Step>, t: State, next: State, a: nat, u: State)
    requires |steps| == a + 1 && Runs(prefix, s, steps, t) && Runs(prefix, s, steps[..a], u)
    requires next == Next(u, steps[a])
    ensures t == next
  {
    var x := RunsSplit(prefix, s, steps, t, a);
    RunsTo(prefix, s, steps[..a], x, u);
    assert steps[a..] == [steps[a]] && [steps[a]][1..] == [];
  }

  // The gateways that the reclaims of the log stop.
  function StoppedIn(log: seq<Event>): nat {
    if log == [] then 0
    else StoppedIn(log[..|log| - 1]) + if log[|log| - 1].Reclaimed? then |log[|log| - 1].ids| else 0
  }

  // From its SELECT on the scaler stops no more gateways than it was asked,
  // whatever the others do meanwhile.
  lemma {:induction false} NeverMoreThanNeeded(prefix: string, s: State, steps: seq<Step>, t: State)
    requires Runs(prefix, s, steps, t) && s.numGW >= 0
    requires forall i | 0 <= i < |steps| :: !steps[i].SelectVms?
    ensures s.log <= t.log && t.numGW >= 0
    ensures StoppedIn(t.log) + t.numGW == StoppedIn(s.log) + s.numGW
    decreases |steps|
  {
    if steps != [] {
      var next := Next(s, steps[0]);
      LogGrowsByOne(s, steps[0]);
      if |next.log| > |s.log| {
        assert next.log[..|s.log|] == s.log;
      }
      NeverMoreThanNeeded(prefix, next, steps[1..], t);
    }
  }
}
