// What the scaler's row count proves of a machine (ScalerSIP.downScale): the
// registrations it counted in its SELECT, the rows its UPDATE touched later, and
// what callers can lock in between.
module RowCount {
  import opened Allocation
  import opened LikePattern
  import opened Text

  // The machine's registrations are those of the SELECT; locks may differ.
  ghost predicate SameVm(a: Rows, b: Rows, vm: string) {
    && OnVm(a, a.Keys, vm) == OnVm(b, b.Keys, vm)
    && forall id | id in OnVm(a, a.Keys, vm) :: a[id].username == b[id].username
  }

  function LockedOn(rows: Rows, vm: string): set<nat> {
    set id | id in rows && rows[id].vm == vm && rows[id].locked
  }

  function OthersOn(rows: Rows, prefix: string, vm: string): set<nat> {
    set id | id in rows && rows[id].vm == vm && !Like(rows[id].username, Anywhere(prefix))
  }

  // What the row count really checks: the rows locked in between are exactly
  // as many as the machine's rows the SELECT did not count.
  lemma CommitExactly(atSelect: Rows, dialogs: set<Dialog>, atUpdate: Rows, prefix: string, vm: string)
    requires Idle(atSelect, dialogs, prefix, vm) != {}
    requires SameVm(atSelect, atUpdate, vm)
    ensures |Stoppable(atUpdate, vm)| == |Idle(atSelect, dialogs, prefix, vm)|
            <==> |LockedOn(atUpdate, vm)| == |OthersOn(atUpdate, prefix, vm)|
  {
    var all := OnVm(atUpdate, atUpdate.Keys, vm);
    var idle := Idle(atSelect, dialogs, prefix, vm);
    assert all == idle + OthersOn(atUpdate, prefix, vm);
    assert idle !! OthersOn(atUpdate, prefix, vm);
    assert all == Stoppable(atUpdate, vm) + LockedOn(atUpdate, vm);
    assert Stoppable(atUpdate, vm) !! LockedOn(atUpdate, vm);
  }

  // On a machine that only runs gateways, the scaler's update commits exactly
  // when no row of it is locked, so that none was held, by a caller or by an
  // earlier reclaim, at that moment of the run.
  lemma CommitMeansUnused(prefix: string, s: State, steps: seq<Step>, t: State,
                          atSelect: Rows, dialogs: set<Dialog>)
    requires Initial(s) && Runs(prefix, s, steps, t)
    requires t.vmList != [] && t.vmList[0].count <= t.numGW
    requires t.vmList[0].count == |Idle(atSelect, dialogs, prefix, t.vmList[0].vm)| > 0
    requires SameVm(atSelect, t.rows, t.vmList[0].vm)
    requires OthersOn(t.rows, prefix, t.vmList[0].vm) == {}
    ensures var vm := t.vmList[0].vm;
            var committed := Next(t, TryStop).log == t.log + [Reclaimed(vm, OnVm(t.rows, t.rows.Keys, vm))];
            && (committed <==> LockedOn(t.rows, vm) == {})
            && (committed || Next(t, TryStop).log == t.log)
            && (committed ==> forall id | id in OnVm(t.rows, t.rows.Keys, vm) ::
                  !HeldRow(t.log, id) && !HeldContact(t.log, t.rows[id].contact))
  {
    var vm := t.vmList[0].vm;
    ReachableInv(prefix, s, steps, t);
    CommitExactly(atSelect, dialogs, t.rows, prefix, vm);
    if LockedOn(t.rows, vm) == {} {
      forall id | id in OnVm(t.rows, t.rows.Keys, vm)
        ensures !t.rows[id].locked
      {
        assert id !in LockedOn(t.rows, vm);
      }
      assert Stoppable(t.rows, vm) == OnVm(t.rows, t.rows.Keys, vm);
    }
  }

  // -------------------------------------------- what can be locked meanwhile

  // Every registered contact has one row.
  ghost predicate OneRowEach(rows: Rows) {
    forall i, j | i in rows && j in rows :: rows[i].contact == rows[j].contact ==> i == j
  }

  predicate IsGateway(row: Row, prefix: string) { Like(row.username, Anywhere(prefix)) }

  // What a caller still has to try is the contact of a gateway.
  ghost predicate NamesGateway(rows: Rows, c: Candidate, prefix: string) {
    forall id | id in rows && rows[id].contact == c.contact :: IsGateway(rows[id], prefix)
  }

  ghost predicate TriesGateways(s: State, prefix: string) {
    forall caller, c | caller in s.pending && c in s.pending[caller] :: NamesGateway(s.rows, c, prefix)
  }

  // Anything between the SELECT and the update of a machine, with its
  // registrations as they were.
  predicate Spares(s: State, step: Step, vm: string) {
    match step
    case Register(_, _, _, _) => false
    case Refresh(_, _) => false
    case Unregister(_) => false
    case SelectVms(_, _) => false
    case TryStop => s.vmList != [] && s.vmList[0].vm != vm
    case _ => true
  }

  ghost predicate Meanwhile(prefix: string, vm: string, s: State, steps: seq<Step>, t: State)
    decreases |steps|
  {
    if steps == [] then s == t
    else
      && Enabled(s, steps[0], prefix) && Spares(s, steps[0], vm)
      && Meanwhile(prefix, vm, Next(s, steps[0]), steps[1..], t)
  }

  lemma {:induction false} MeanwhileJoins(prefix: string, vm: string, s: State, a: seq<Step>, t: State,
                                          b: seq<Step>, u: State)
    requires Meanwhile(prefix, vm, s, a, t) && Meanwhile(prefix, vm, t, b, u)
    ensures Meanwhile(prefix, vm, s, a + b, u)
    decreases |a|
  {
    if a == [] {
      assert a + b == b;
    } else {
      assert (a + b)[1..] == a[1..] + b;
      MeanwhileJoins(prefix, vm, Next(s, a[0]), a[1..], t, b, u);
    }
  }

  lemma MeanwhileOne(prefix: string, vm: string, s: State, step: Step)
    requires Enabled(s, step, prefix) && Spares(s, step, vm)
    ensures Meanwhile(prefix, vm, s, [step], Next(s, step))
  {
    assert [step][1..] == [];
  }

  // The same rows but for their marks.
  ghost predicate SameRows(a: Rows, b: Rows) {
    && a.Keys == b.Keys
    && forall id | id in a ::
         a[id].contact == b[id].contact && a[id].username == b[id].username && a[id].vm == b[id].vm
  }

  ghost predicate GatewaysOnly(rows: Rows, ids: set<nat>, prefix: string) {
    forall id | id in ids && id in rows :: IsGateway(rows[id], prefix)
  }

  // What is locked on the machine is gateways.
  ghost predicate Tame(s: State, prefix: string, vm: string) {
    OneRowEach(s.rows) && TriesGateways(s, prefix) && GatewaysOnly(s.rows, LockedOn(s.rows, vm), prefix)
  }

  lemma SpareKeepsRows(s: State, step: Step, vm: string)
    requires Spares(s, step, vm)
    ensures SameRows(s.rows, Next(s, step).rows)
  {
  }

  lemma SelectedName(s: State, prefix: string, busy: bool, list: seq<Candidate>, c: Candidate)
    requires OneRowEach(s.rows) && IsSelected(s.rows, s.dialogs, prefix, busy, list) && c in list
    ensures NamesGateway(s.rows, c, prefix)
  {
    var free := Free(s.rows, s.dialogs, prefix, busy);
    assert IsOneOf(s.rows, free, c);
  }

  lemma TriesKept(s: State, step: Step, prefix: string, vm: string)
    requires Enabled(s, step, prefix) && Spares(s, step, vm) && OneRowEach(s.rows) && TriesGateways(s, prefix)
    ensures TriesGateways(Next(s, step), prefix)
  {
    var t := Next(s, step);
    SpareKeepsRows(s, step, vm);
    forall caller, c | caller in t.pending && c in t.pending[caller]
      ensures NamesGateway(t.rows, c, prefix)
    {
      if step.Select? && caller == step.caller {
        SelectedName(s, prefix, true, step.list, c);
      } else if step.SelectAgain? && caller == step.caller {
        SelectedName(s, prefix, false, step.list, c);
      } else {
        assert c in s.pending[caller];
        assert NamesGateway(s.rows, c, prefix);
      }
    }
  }

  lemma LocksKept(s: State, step: Step, prefix: string, vm: string)
    requires Enabled(s, step, prefix) && Spares(s, step, vm) && Tame(s, prefix, vm)
    ensures var t := Next(s, step); GatewaysOnly(t.rows, LockedOn(t.rows, vm), prefix)
  {
    var t := Next(s, step);
    forall id | id in LockedOn(t.rows, vm)
      ensures IsGateway(t.rows[id], prefix)
    {
      if s.rows[id].locked {
        assert id in LockedOn(s.rows, vm);
      } else if step.TryLock? {
        var c := s.pending[step.caller][0];
        assert c in s.pending[step.caller];
        assert NamesGateway(s.rows, c, prefix);
      }
    }
  }

  lemma {:induction false} StaysTame(prefix: string, vm: string, s: State, steps: seq<Step>, t: State)
    requires Meanwhile(prefix, vm, s, steps, t) && Tame(s, prefix, vm)
    ensures Tame(t, prefix, vm) && SameRows(s.rows, t.rows)
    decreases |steps|
  {
    if steps != [] {
      var u := Next(s, steps[0]);
      SpareKeepsRows(s, steps[0], vm);
      TriesKept(s, steps[0], prefix, vm);
      LocksKept(s, steps[0], prefix, vm);
      StaysTame(prefix, vm, u, steps[1..], t);
    }
  }

  // ------------------------------------------------- what a commit proves

  // The scaler has just read its list, and the machine is the j-th of it: as
  // many gateways as counted, none of its rows locked, and enough asked for.
  ghost predicate JustSelected(s: State, prefix: string, vm: string, j: nat) {
    && Tame(s, prefix, vm) && LockedOn(s.rows, vm) == {}
    && j < |s.vmList| && s.vmList[j] == VmCount(vm, |Gateways(s.rows, prefix, vm)|) && s.vmList[j].count > 0
    && (forall i :: 0 <= i < j ==> s.vmList[i].vm != vm)
    && CountTo(s.vmList, j + 1) <= s.numGW
  }

  function Gateways(rows: Rows, prefix: string, vm: string): set<nat> {
    set id | id in rows && rows[id].vm == vm && IsGateway(rows[id], prefix)
  }

  function CountTo(list: seq<VmCount>, n: nat): nat
    requires n <= |list|
  {
    if n == 0 then 0 else list[0].count + CountTo(list[1..], n - 1)
  }

  // The machine's update is next, and commits.
  predicate CommitsNow(t: State, vm: string) {
    && t.vmList != [] && t.vmList[0].vm == vm && t.vmList[0].count <= t.numGW
    && |Stoppable(t.rows, vm)| == t.vmList[0].count
  }

  // Every commit that a run from there can reach finds no row of the machine
  // locked.
  ghost predicate CommitsOnlyUnused(prefix: string, vm: string, s: State) {
    forall steps, t | Meanwhile(prefix, vm, s, steps, t) && CommitsNow(t, vm) :: LockedOn(t.rows, vm) == {}
  }

  // The machine's rows are gateways or others, and locked or stoppable.
  lemma RowsOnVm(rows: Rows, prefix: string, vm: string)
    ensures |Stoppable(rows, vm)| + |LockedOn(rows, vm)| ==
            |Gateways(rows, prefix, vm)| + |OthersOn(rows, prefix, vm)|
  {
    var all := OnVm(rows, rows.Keys, vm);
    assert all == Gateways(rows, prefix, vm) + OthersOn(rows, prefix, vm);
    assert Gateways(rows, prefix, vm) !! OthersOn(rows, prefix, vm);
    assert all == Stoppable(rows, vm) + LockedOn(rows, vm);
    assert Stoppable(rows, vm) !! LockedOn(rows, vm);
  }

  lemma SameNames(a: Rows, b: Rows, prefix: string, vm: string)
    requires SameRows(a, b)
    ensures Gateways(a, prefix, vm) == Gateways(b, prefix, vm) && OthersOn(a, prefix, vm) == OthersOn(b, prefix, vm)
  {
    forall id
      ensures id in Gateways(a, prefix, vm) <==> id in Gateways(b, prefix, vm)
      ensures id in OthersOn(a, prefix, vm) <==> id in OthersOn(b, prefix, vm)
    {
      assert id in a <==> id in b;
    }
  }

  // The list only gets shorter, and the machine's entry is not passed over.
  lemma {:induction false} ListShrinks(prefix: string, vm: string, s: State, steps: seq<Step>, t: State, j: nat)
    requires Meanwhile(prefix, vm, s, steps, t)
    requires j < |s.vmList| && s.vmList[j].vm == vm && forall i :: 0 <= i < j ==> s.vmList[i].vm != vm
    ensures t.vmList != [] && t.vmList[0].vm == vm ==> t.vmList[0] == s.vmList[j]
    decreases |steps|
  {
    if steps != [] {
      var u := Next(s, steps[0]);
      if steps[0].TryStop? {
        assert u.vmList == s.vmList[1..];
        ListShrinks(prefix, vm, u, steps[1..], t, j - 1);
      } else {
        ListShrinks(prefix, vm, u, steps[1..], t, j);
      }
    }
  }

  // The rows locked meanwhile are gateways, and as many as the other rows.
  lemma {:induction false} CommitFinds(prefix: string, vm: string, s: State, j: nat, steps: seq<Step>, t: State)
    requires JustSelected(s, prefix, vm, j) && Meanwhile(prefix, vm, s, steps, t) && CommitsNow(t, vm)
    ensures var others := |OthersOn(s.rows, prefix, vm)|;
            |LockedOn(t.rows, vm)| == others <= s.vmList[j].count
  {
    StaysTame(prefix, vm, s, steps, t);
    ListShrinks(prefix, vm, s, steps, t, j);
    RowsOnVm(t.rows, prefix, vm);
    SameNames(s.rows, t.rows, prefix, vm);
    assert LockedOn(t.rows, vm) <= Gateways(t.rows, prefix, vm);
    SubsetSize(LockedOn(t.rows, vm), Gateways(t.rows, prefix, vm));
  }

  lemma SubsetSize(a: set<nat>, b: set<nat>)
    requires a <= b
    ensures |a| <= |b| && (|a| == |b| ==> a == b)
  {
    assert b == a + (b - a);
    assert b - a == {} ==> a == b;
  }

  // ------------------------------------------- a run on which the commit lies

  // One caller more asks, is given a gateway of the machine, and locks it.
  lemma OneMoreLocks(prefix: string, vm: string, s: State, callee: string) returns (steps: seq<Step>, t: State)
    requires Tame(s, prefix, vm) && s.dialogs == {Dialog(callee, vm)}
    requires forall id | id in Gateways(s.rows, prefix, vm) :: !Like(callee, Anywhere(s.rows[id].username))
    requires |LockedOn(s.rows, vm)| < |Gateways(s.rows, prefix, vm)|
    ensures Meanwhile(prefix, vm, s, steps, t) && |LockedOn(t.rows, vm)| == |LockedOn(s.rows, vm)| + 1
    ensures t.dialogs == s.dialogs && t.vmList == s.vmList && t.numGW == s.numGW
  {
    var g := UnlockedGateway(prefix, vm, s);
    var c := CandidateOf(s.rows[g]);
    GivenAlone(prefix, vm, s, callee, g);
    var u := Next(s, Select(0, [c]));
    LocksOne(prefix, vm, u, callee, g);
    t := Next(u, TryLock(0));
    steps := [Select(0, [c])] + [TryLock(0)];
    MeanwhileOne(prefix, vm, s, Select(0, [c]));
    MeanwhileOne(prefix, vm, u, TryLock(0));
    MeanwhileJoins(prefix, vm, s, [Select(0, [c])], u, [TryLock(0)], t);
  }

  lemma UnlockedGateway(prefix: string, vm: string, s: State) returns (g: nat)
    requires |LockedOn(s.rows, vm)| < |Gateways(s.rows, prefix, vm)|
    ensures g in Gateways(s.rows, prefix, vm) && !s.rows[g].locked
  {
    if Gateways(s.rows, prefix, vm) <= LockedOn(s.rows, vm) {
      SubsetSize(Gateways(s.rows, prefix, vm), LockedOn(s.rows, vm));
    }
    g :| g in Gateways(s.rows, prefix, vm) && g !in LockedOn(s.rows, vm);
  }

  lemma GivenAlone(prefix: string, vm: string, s: State, callee: string, g: nat)
    requires s.dialogs == {Dialog(callee, vm)} && g in Gateways(s.rows, prefix, vm) && !s.rows[g].locked
    requires !Like(callee, Anywhere(s.rows[g].username))
    ensures IsSelected(s.rows, s.dialogs, prefix, true, [CandidateOf(s.rows[g])])
  {
    var c, free := CandidateOf(s.rows[g]), Free(s.rows, s.dialogs, prefix, true);
    assert Dialog(callee, vm) in s.dialogs;
    assert g in free;
    assert IsOneOf(s.rows, free, c);
    forall id | id in free && id in s.rows
      ensures Listed([c], s.rows[id].vm)
    {
      assert c in [c] && c.vm == vm;
    }
  }

  lemma LocksOne(prefix: string, vm: string, u: State, callee: string, g: nat)
    requires OneRowEach(u.rows) && u.dialogs == {Dialog(callee, vm)}
    requires g in Gateways(u.rows, prefix, vm) && !u.rows[g].locked && !Like(callee, Anywhere(u.rows[g].username))
    requires 0 in u.pending && u.pending[0] == [CandidateOf(u.rows[g])]
    ensures var t := Next(u, TryLock(0));
            && |LockedOn(t.rows, vm)| == |LockedOn(u.rows, vm)| + 1
            && t.dialogs == u.dialogs && t.vmList == u.vmList && t.numGW == u.numGW
  {
    var c := CandidateOf(u.rows[g]);
    assert Lockable(u.rows, u.dialogs, c.contact, c.username) == {g};
    assert LockedOn(Locked(u.rows, {g}), vm) == LockedOn(u.rows, vm) + {g};
  }

  lemma {:induction false} ManyLock(prefix: string, vm: string, s: State, callee: string, k: nat)
      returns (steps: seq<Step>, t: State)
    requires Tame(s, prefix, vm) && s.dialogs == {Dialog(callee, vm)}
    requires forall id | id in Gateways(s.rows, prefix, vm) :: !Like(callee, Anywhere(s.rows[id].username))
    requires |LockedOn(s.rows, vm)| + k <= |Gateways(s.rows, prefix, vm)|
    ensures Meanwhile(prefix, vm, s, steps, t) && |LockedOn(t.rows, vm)| == |LockedOn(s.rows, vm)| + k
    ensures t.vmList == s.vmList && t.numGW == s.numGW
    decreases k
  {
    steps, t := [], s;
    if k > 0 {
      var first, u := OneMoreLocks(prefix, vm, s, callee);
      StaysTame(prefix, vm, s, first, u);
      SameNames(s.rows, u.rows, prefix, vm);
      var rest;
      rest, t := ManyLock(prefix, vm, u, callee, k - 1);
      steps := first + rest;
      MeanwhileJoins(prefix, vm, s, first, u, rest, t);
    }
  }

  // The scaler goes through the machines before this one.
  lemma {:induction false} GoesTo(prefix: string, vm: string, s: State, j: nat) returns (steps: seq<Step>, t: State)
    requires j < |s.vmList| && CountTo(s.vmList, j + 1) <= s.numGW && s.vmList[j].vm == vm
    requires forall i :: 0 <= i < j ==> s.vmList[i].vm != vm
    ensures Meanwhile(prefix, vm, s, steps, t) && LockedOn(t.rows, vm) == LockedOn(s.rows, vm)
    ensures t.vmList != [] && t.vmList[0] == s.vmList[j] && t.vmList[0].count <= t.numGW
    decreases j
  {
    steps, t := [], s;
    if j == 0 {
      assert CountTo(s.vmList, 1) == s.vmList[0].count + CountTo(s.vmList[1..], 0);
    } else {
      var u := Next(s, TryStop);
      MeanwhileOne(prefix, vm, s, TryStop);
      assert u.vmList == s.vmList[1..];
      assert LockedOn(u.rows, vm) == LockedOn(s.rows, vm);
      var rest;
      rest, t := GoesTo(prefix, vm, u, j - 1);
      steps := [TryStop] + rest;
      MeanwhileJoins(prefix, vm, s, [TryStop], u, rest, t);
    }
  }

  // During a call to a phone of the machine, as many callers as the machine has
  // other rows are given its gateways; the row count agrees all the same.
  lemma {:induction false} LyingRun(prefix: string, vm: string, s: State, j: nat, callee: string) returns (steps: seq<Step>, t: State)
    requires JustSelected(s, prefix, vm, j)
    requires forall id | id in Gateways(s.rows, prefix, vm) :: !Like(callee, Anywhere(s.rows[id].username))
    requires 0 < |OthersOn(s.rows, prefix, vm)| <= s.vmList[j].count
    ensures Meanwhile(prefix, vm, s, steps, t) && CommitsNow(t, vm)
    ensures |LockedOn(t.rows, vm)| == |OthersOn(s.rows, prefix, vm)|
  {
    var ring := Dialogs({Dialog(callee, vm)});
    var r := Next(s, ring);
    MeanwhileOne(prefix, vm, s, ring);
    var locks, u := ManyLock(prefix, vm, r, callee, |OthersOn(s.rows, prefix, vm)|);
    var skips;
    skips, t := GoesTo(prefix, vm, u, j);
    MeanwhileJoins(prefix, vm, s, [ring], r, locks, u);
    MeanwhileJoins(prefix, vm, s, [ring] + locks, u, skips, t);
    steps := [ring] + locks + skips;
    StaysTame(prefix, vm, s, steps, t);
    RowsOnVm(t.rows, prefix, vm);
    SameNames(s.rows, t.rows, prefix, vm);
  }

  // What the SELECT leaves.
  lemma {:induction false} SelectVmsSelects(prefix: string, s: State, vms: seq<VmCount>, asked: nat, j: nat)
    requires Enabled(s, SelectVms(vms, asked), prefix) && OneRowEach(s.rows) && TriesGateways(s, prefix)
    requires j < |vms| && CountTo(vms, j + 1) <= asked
    ensures JustSelected(Next(s, SelectVms(vms, asked)), prefix, vms[j].vm, j)
  {
    var vm, u := vms[j].vm, Next(s, SelectVms(vms, asked));
    assert vms[j].count == |Idle(s.rows, s.dialogs, prefix, vm)| > 0;
    forall id | id in s.rows && s.rows[id].vm == vm
      ensures !s.rows[id].locked
    {
      assert Idle(s.rows, s.dialogs, prefix, vm) != {};
    }
    assert Idle(s.rows, s.dialogs, prefix, vm) == Gateways(u.rows, prefix, vm);
    assert LockedOn(u.rows, vm) == {};
    assert TriesGateways(u, prefix);
  }

  // From the scaler's SELECT on, as long as registrations stay, a commit proves
  // that nothing of the machine was locked meanwhile, exactly when the machine
  // has no row but gateways or more such rows than gateways. Otherwise callers
  // can lock as many gateways as there are such rows.
  lemma {:induction false} CommitProvesUnused(prefix: string, s: State, vms: seq<VmCount>, asked: nat, j: nat, callee: string)
    requires Enabled(s, SelectVms(vms, asked), prefix) && OneRowEach(s.rows) && TriesGateways(s, prefix)
    requires j < |vms| && CountTo(vms, j + 1) <= asked
    requires forall id | id in Gateways(s.rows, prefix, vms[j].vm) :: !Like(callee, Anywhere(s.rows[id].username))
    ensures var others := |OthersOn(s.rows, prefix, vms[j].vm)|;
            CommitsOnlyUnused(prefix, vms[j].vm, Next(s, SelectVms(vms, asked))) <==>
            others == 0 || others > vms[j].count
  {
    var vm, u := vms[j].vm, Next(s, SelectVms(vms, asked));
    SelectVmsSelects(prefix, s, vms, asked, j);
    if 0 < |OthersOn(u.rows, prefix, vm)| <= vms[j].count {
      var steps, t := LyingRun(prefix, vm, u, j, callee);
      assert Meanwhile(prefix, vm, u, steps, t) && CommitsNow(t, vm);
    } else {
      forall steps, t | Meanwhile(prefix, vm, u, steps, t) && CommitsNow(t, vm)
        ensures LockedOn(t.rows, vm) == {}
      {
        CommitFinds(prefix, vm, u, j, steps, t);
      }
    }
  }

  // One gateway and one other row are enough: the caller holds the gateway when
  // its machine is given up.
  lemma GatewayAndPhone(prefix: string, gateway: Row, phone: Row)
    requires gateway.vm == phone.vm && gateway.contact != phone.contact && !gateway.locked && !phone.locked
    requires IsGateway(gateway, prefix) && !IsGateway(phone, prefix)
    requires !Like(phone.contact, Anywhere(gateway.username))
    ensures var rows := map[0 := gateway, 1 := phone];
            var s := State(rows, {0, 1}, {}, map[], {}, [], 0, []);
            var select := SelectVms([VmCount(gateway.vm, 1)], 1);
            && Initial(s) && Enabled(s, select, prefix)
            && !CommitsOnlyUnused(prefix, gateway.vm, Next(s, select))
  {
    var rows: Rows := map[0 := gateway, 1 := phone];
    var s := State(rows, {0, 1}, {}, map[], {}, [], 0, []);
    var vms := [VmCount(gateway.vm, 1)];
    TwoRows(prefix, gateway, phone, rows);
    assert CountTo(vms, 1) == vms[0].count + CountTo(vms[1..], 0);
    CommitProvesUnused(prefix, s, vms, 1, 0, phone.contact);
  }

  lemma TwoRows(prefix: string, gateway: Row, phone: Row, rows: Rows)
    requires rows == map[0 := gateway, 1 := phone] && gateway.vm == phone.vm && !gateway.locked && !phone.locked
    requires IsGateway(gateway, prefix) && !IsGateway(phone, prefix)
    ensures Gateways(rows, prefix, gateway.vm) == {0} && OthersOn(rows, prefix, gateway.vm) == {1}
    ensures IsVmList(rows, {}, prefix, [VmCount(gateway.vm, 1)])
  {
    assert Idle(rows, {}, prefix, gateway.vm) == {0};
    assert VmCount(gateway.vm, 1) in [VmCount(gateway.vm, 1)];
  }
}
