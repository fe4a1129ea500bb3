// The statements run on the `location` table, one object per database, and the
// greedy choice of machines downScale makes with them.
module LocationTable {
  import opened Allocation
  import opened LikePattern
  import opened Text

  // ------------------------------------------------------- choosing machines

  datatype Decision = Taken | Skipped | RolledBack

  // The decisions follow the list with `numGW` gateways to stop: a machine that
  // does not fit is skipped, one whose row count moved is rolled back.
  predicate Follows(list: seq<VmCount>, numGW: int, decisions: seq<Decision>)
    decreases |list|
  {
    |decisions| == |list| &&
    (list != [] ==>
       && (decisions[0] == Skipped <==> list[0].count > numGW)
       && Follows(list[1..], numGW - Stops(list[0], decisions[0]), decisions[1..]))
  }

  function Stops(v: VmCount, d: Decision): nat { if d == Taken then v.count else 0 }

  function TotalTaken(list: seq<VmCount>, decisions: seq<Decision>): nat
    requires |list| == |decisions|
  {
    if list == [] then 0 else Stops(list[0], decisions[0]) + TotalTaken(list[1..], decisions[1..])
  }

  function TakenVms(list: seq<VmCount>, decisions: seq<Decision>): seq<string>
    requires |list| == |decisions|
  {
    if list == [] then []
    else (if decisions[0] == Taken then [list[0].vm] else []) + TakenVms(list[1..], decisions[1..])
  }

  ghost predicate LargestFirst(list: seq<VmCount>) {
    forall i, j :: 0 <= i < j < |list| ==> list[i].count >= list[j].count
  }

  // Never more gateways than asked; and a machine left out because it did not
  // fit still does not fit in what remains at the end.
  lemma {:induction false} NeverMoreThanAsked(list: seq<VmCount>, numGW: nat, decisions: seq<Decision>)
    requires Follows(list, numGW, decisions)
    ensures TotalTaken(list, decisions) <= numGW
    ensures forall i :: 0 <= i < |list| && decisions[i] == Skipped ==>
              list[i].count > numGW - TotalTaken(list, decisions)
    decreases |list|
  {
    if list != [] {
      var left := numGW - Stops(list[0], decisions[0]);
      NeverMoreThanAsked(list[1..], left, decisions[1..]);
      forall i | 0 <= i < |list| && decisions[i] == Skipped
        ensures list[i].count > numGW - TotalTaken(list, decisions)
      {
        if i > 0 {
          assert list[1..][i - 1].count > left - TotalTaken(list[1..], decisions[1..]);
        }
      }
    }
  }

  lemma {:induction false} TakenAtLeast(list: seq<VmCount>, decisions: seq<Decision>, i: nat)
    requires |list| == |decisions| && i < |list| && decisions[i] == Taken
    ensures TotalTaken(list, decisions) >= list[i].count
    decreases |list|
  {
    if i > 0 {
      TakenAtLeast(list[1..], decisions[1..], i - 1);
    }
  }

  // A machine that would have fitted alone is skipped only once a larger or
  // equal one is taken.
  lemma {:induction false} SkippedAfterTaken(list: seq<VmCount>, numGW: nat, decisions: seq<Decision>, i: nat)
    requires Follows(list, numGW, decisions) && RolledBack !in decisions
    requires i < |list| && decisions[i] == Skipped && list[i].count <= numGW
    ensures exists k :: 0 <= k < i && decisions[k] == Taken
    decreases |list|
  {
    if decisions[0] != Taken {
      assert i > 0;
      SkippedAfterTaken(list[1..], numGW, decisions[1..], i - 1);
      var k :| 0 <= k < i - 1 && decisions[1..][k] == Taken;
      assert decisions[k + 1] == Taken;
    }
  }

  // With no rollback, either every machine that fits on its own is taken or
  // more than half of what was asked is.
  lemma AllThatFitOrMoreThanHalf(list: seq<VmCount>, numGW: nat, decisions: seq<Decision>)
    requires Follows(list, numGW, decisions) && LargestFirst(list) && RolledBack !in decisions
    ensures (forall i :: 0 <= i < |list| && list[i].count <= numGW ==> decisions[i] == Taken)
            || 2 * TotalTaken(list, decisions) > numGW
  {
    NeverMoreThanAsked(list, numGW, decisions);
    if i :| 0 <= i < |list| && list[i].count <= numGW && decisions[i] != Taken {
      assert decisions[i] in decisions;
      SkippedAfterTaken(list, numGW, decisions, i);
      var k :| 0 <= k < i && decisions[k] == Taken;
      TakenAtLeast(list, decisions, k);
    }
  }

  // The scaler's SELECT lists the largest machine first, so that both hold of
  // every list it can read: a machine that fits is left out only when more than
  // half of what was asked is stopped, and every machine left out has no more
  // gateways than any before it that fits.
  lemma ScalerTakesMost(rows: Rows, dialogs: set<Dialog>, prefix: string, list: seq<VmCount>,
                        numGW: nat, decisions: seq<Decision>)
    requires IsVmList(rows, dialogs, prefix, list)
    requires Follows(list, numGW, decisions) && RolledBack !in decisions
    ensures LargestFirst(list)
    ensures (forall i :: 0 <= i < |list| && |Idle(rows, dialogs, prefix, list[i].vm)| <= numGW ==> decisions[i] == Taken)
            || 2 * TotalTaken(list, decisions) > numGW
    ensures forall id | id in rows && 0 < |Idle(rows, dialogs, prefix, rows[id].vm)| <= numGW ::
              TotalTaken(list, decisions) > 0
  {
    AllThatFitOrMoreThanHalf(list, numGW, decisions);
    forall id | id in rows && 0 < |Idle(rows, dialogs, prefix, rows[id].vm)| <= numGW
      ensures TotalTaken(list, decisions) > 0
    {
      ListedTakesSome(rows, dialogs, prefix, list, numGW, decisions, id);
    }
  }

  // As long as some unused machine fits, something is stopped.
  lemma ListedTakesSome(rows: Rows, dialogs: set<Dialog>, prefix: string, list: seq<VmCount>,
                        numGW: nat, decisions: seq<Decision>, id: nat)
    requires IsVmList(rows, dialogs, prefix, list)
    requires Follows(list, numGW, decisions) && RolledBack !in decisions
    requires id in rows && 0 < |Idle(rows, dialogs, prefix, rows[id].vm)| <= numGW
    ensures TotalTaken(list, decisions) > 0
  {
    var v :| v in list && v.vm == rows[id].vm;
    var i :| 0 <= i < |list| && list[i] == v;
    AllThatFitOrMoreThanHalf(list, numGW, decisions);
    if decisions[i] == Taken {
      TakenAtLeast(list, decisions, i);
    }
  }

  lemma {:induction false} FollowsAppend(list: seq<VmCount>, numGW: int, decisions: seq<Decision>,
                                         v: VmCount, d: Decision)
    requires Follows(list, numGW, decisions)
    requires d == Skipped <==> v.count > numGW - TotalTaken(list, decisions)
    ensures Follows(list + [v], numGW, decisions + [d])
    ensures TotalTaken(list + [v], decisions + [d]) == TotalTaken(list, decisions) + Stops(v, d)
    ensures TakenVms(list + [v], decisions + [d]) ==
            TakenVms(list, decisions) + if d == Taken then [v.vm] else []
    decreases |list|
  {
    if list == [] {
      assert list + [v] == [v] && decisions + [d] == [d];
    } else {
      assert (list + [v])[1..] == list[1..] + [v];
      assert (decisions + [d])[1..] == decisions[1..] + [d];
      FollowsAppend(list[1..], numGW - Stops(list[0], decisions[0]), decisions[1..], v, d);
    }
  }

  // ------------------------------------------------------------ the database

  datatype Db = Db(rows: Rows, dialogs: set<Dialog>)

  // The rows an update changed.
  function Changed(before: Rows, after: Rows): set<nat> {
    set id | id in before && id in after && before[id] != after[id]
  }

  // The tables after what others did before each of the first k statements.
  function Elapsed(db: Db, meanwhile: (nat, Db) -> Db, k: nat): Db {
    if k == 0 then db else meanwhile(k - 1, Elapsed(db, meanwhile, k - 1))
  }

  // No row of the contact could be locked at the k-th update.
  predicate Missed(db: Db, meanwhile: (nat, Db) -> Db, c: Candidate, k: nat) {
    var at := Elapsed(db, meanwhile, k + 1);
    Lockable(at.rows, at.dialogs, c.contact, c.username) == {}
  }

  function StopOn(db: Db, vm: string): Db { db.(rows := Stopped(db.rows, Stoppable(db.rows, vm))) }

  // The tables after the first k decisions and what others did before each.
  function Applied(db: Db, list: seq<VmCount>, decisions: seq<Decision>, meanwhile: (nat, Db) -> Db, k: nat): Db
    requires k <= |list| == |decisions|
  {
    if k == 0 then db
    else
      var at := meanwhile(k - 1, Applied(db, list, decisions, meanwhile, k - 1));
      if decisions[k - 1] == Taken then StopOn(at, list[k - 1].vm) else at
  }

  // A machine that fits is taken exactly when its row count has not moved.
  predicate Counted(db: Db, list: seq<VmCount>, decisions: seq<Decision>, meanwhile: (nat, Db) -> Db, k: nat)
    requires k < |list| == |decisions|
  {
    var at := meanwhile(k, Applied(db, list, decisions, meanwhile, k));
    decisions[k] != Skipped ==>
      (decisions[k] == Taken <==> |Stoppable(at.rows, list[k].vm)| == list[k].count)
  }

  lemma {:induction false} AppliedPrefix(db: Db, list: seq<VmCount>, decisions: seq<Decision>,
                                         meanwhile: (nat, Db) -> Db, v: VmCount, d: Decision, k: nat)
    requires k <= |list| == |decisions|
    ensures Applied(db, list + [v], decisions + [d], meanwhile, k) == Applied(db, list, decisions, meanwhile, k)
  {
    if k > 0 {
      AppliedPrefix(db, list, decisions, meanwhile, v, d, k - 1);
    }
  }

  lemma CountedAppend(db: Db, list: seq<VmCount>, decisions: seq<Decision>,
                      meanwhile: (nat, Db) -> Db, v: VmCount, d: Decision)
    requires |list| == |decisions|
    requires forall k :: 0 <= k < |list| ==> Counted(db, list, decisions, meanwhile, k)
    requires var at := meanwhile(|list|, Applied(db, list, decisions, meanwhile, |list|));
             d != Skipped ==> (d == Taken <==> |Stoppable(at.rows, v.vm)| == v.count)
    ensures forall k :: 0 <= k < |list| + 1 ==> Counted(db, list + [v], decisions + [d], meanwhile, k)
  {
    forall k | 0 <= k < |list| + 1
      ensures Counted(db, list + [v], decisions + [d], meanwhile, k)
    {
      AppliedPrefix(db, list, decisions, meanwhile, v, d, k);
      if k < |list| {
        assert Counted(db, list, decisions, meanwhile, k);
      }
    }
  }

  class Location {
    var rows: Rows
    var dialogs: set<Dialog>

    function Now(): Db
      reads this
    {
      Db(rows, dialogs)
    }

    // What others do to the tables before the k-th statement of a caller.
    method Elapse(meanwhile: (nat, Db) -> Db, k: nat)
      modifies this
      ensures Now() == meanwhile(k, old(Now()))
    {
      var db := meanwhile(k, Now());
      rows, dialogs := db.rows, db.dialogs;
    }

    // One UPDATE of lockGw; the row count.
    method TryLock(c: Candidate) returns (count: nat)
      modifies this`rows
      ensures count == |Lockable(old(rows), dialogs, c.contact, c.username)|
      ensures rows == Locked(old(rows), Lockable(old(rows), dialogs, c.contact, c.username))
      ensures count > 0 ==> forall id | id in rows && rows[id].contact == c.contact :: rows[id].locked
      ensures rows.Keys == old(rows.Keys) && forall id | id in rows ::
        || rows[id] == old(rows)[id]
        || (count > 0 && rows[id] == old(rows)[id].(locked := true) && rows[id].contact == c.contact)
    {
      var ids := Lockable(rows, dialogs, c.contact, c.username);
      rows := Locked(rows, ids);
      count := |ids|;
    }

    // lockGw, once it has its list: the first contact whose update touches a
    // row is the caller's; with none, it gets nothing and changed nothing.
    method LockGw(list: seq<Candidate>, meanwhile: (nat, Db) -> Db)
        returns (chosen: Option<Candidate>, ghost turn: nat)
      modifies this
      ensures turn <= |list| && forall k :: 0 <= k < turn ==> Missed(old(Now()), meanwhile, list[k], k)
      ensures chosen.None? ==> turn == |list| && Now() == Elapsed(old(Now()), meanwhile, turn)
      ensures chosen.Some? ==> turn < |list| && chosen.value == list[turn]
      ensures chosen.Some? ==>
        var before := Elapsed(old(Now()), meanwhile, turn + 1);
        var ids := Lockable(before.rows, before.dialogs, chosen.value.contact, chosen.value.username);
        ids != {} && Now() == before.(rows := Locked(before.rows, ids))
    {
      var k := 0;
      while k < |list|
        invariant k <= |list|
        invariant Now() == Elapsed(old(Now()), meanwhile, k)
        invariant forall i :: 0 <= i < k ==> Missed(old(Now()), meanwhile, list[i], i)
      {
        Elapse(meanwhile, k);
        ghost var before := Now();
        assert before == Elapsed(old(Now()), meanwhile, k + 1);
        var count := TryLock(list[k]);
        if count > 0 {
          return Some(list[k]), k;
        }
        assert rows == before.rows;
        k := k + 1;
      }
      return None, k;
    }

    method Unlock(dstUser: string)
      modifies this`rows
      ensures rows == Unlocked(old(rows), Releasable(old(rows), dstUser))
      ensures rows.Keys == old(rows.Keys) && forall id | id in rows ::
        rows[id] == if MatchesUser(rows[id].contact, dstUser) then old(rows)[id].(locked := false) else old(rows)[id]
    {
      forall id | id in rows
        ensures Like(rows[id].contact, Anywhere(dstUser)) <==> MatchesUser(rows[id].contact, dstUser)
      {
        UserMatches(rows[id].contact, dstUser);
      }
      rows := Unlocked(rows, Releasable(rows, dstUser));
    }

    // One UPDATE of downScale, committed or rolled back on its row count. A
    // machine is stopped wholly or not at all.
    method StopVm(v: VmCount) returns (ok: bool)
      modifies this`rows
      ensures ok <==> |Stoppable(old(rows), v.vm)| == v.count
      ensures rows == if ok then Stopped(old(rows), Stoppable(old(rows), v.vm)) else old(rows)
      ensures ok ==> forall id | id in rows && rows[id].vm == v.vm :: rows[id].locked
      ensures ok ==> |Changed(old(rows), rows)| == v.count
      ensures ok ==> rows.Keys == old(rows.Keys) && forall id | id in rows ::
        rows[id] == if old(rows)[id].vm == v.vm && !old(rows)[id].locked
                    then old(rows)[id].(locked := true, toStop := true) else old(rows)[id]
    {
      var saved := rows;
      var ids := Stoppable(rows, v.vm);
      rows := Stopped(rows, ids);
      ok := |ids| == v.count;
      if !ok {
        rows := saved;
      }
      assert Changed(saved, Stopped(saved, ids)) == ids;
    }

    // downScale, once it has its list: the decisions, the tables they leave,
    // and how many rows the committed updates changed.
    method DownScale(list: seq<VmCount>, asked: nat, meanwhile: (nat, Db) -> Db)
        returns (ipList: seq<string>, decisions: seq<Decision>, ghost marked: nat)
      modifies this
      ensures Follows(list, asked, decisions) && ipList == TakenVms(list, decisions)
      ensures forall k :: 0 <= k < |list| ==> Counted(old(Now()), list, decisions, meanwhile, k)
      ensures Now() == Applied(old(Now()), list, decisions, meanwhile, |list|)
      ensures marked == TotalTaken(list, decisions) <= asked
    {
      ipList, decisions, marked := [], [], 0;
      var numGW: int := asked;
      var k := 0;
      while k < |list|
        invariant k <= |list|
        invariant Follows(list[..k], asked, decisions)
        invariant ipList == TakenVms(list[..k], decisions)
        invariant marked == TotalTaken(list[..k], decisions) && numGW == asked - marked >= 0
        invariant forall i :: 0 <= i < k ==> Counted(old(Now()), list[..k], decisions, meanwhile, i)
        invariant Now() == Applied(old(Now()), list[..k], decisions, meanwhile, k)
      {
        Elapse(meanwhile, k);
        ghost var was := Now();
        var vm := list[k];
        var decision := Skipped;
        if vm.count <= numGW {
          var ok := StopVm(vm);
          if ok {
            ipList := ipList + [vm.vm];
            numGW := numGW - vm.count;
            marked := marked + |Changed(was.rows, rows)|;
            decision := Taken;
          } else {
            decision := RolledBack;
          }
        }
        FollowsAppend(list[..k], asked, decisions, vm, decision);
        CountedAppend(old(Now()), list[..k], decisions, meanwhile, vm, decision);
        AppliedPrefix(old(Now()), list[..k], decisions, meanwhile, vm, decision, k);
        assert list[..k] + [vm] == list[..k + 1];
        decisions := decisions + [decision];
        k := k + 1;
      }
      assert list[..k] == list;
      NeverMoreThanAsked(list, asked, decisions);
    }
  }

  // A caller alone gets a gateway exactly when one is free, and the first of
  // its list: the gateways of a machine in use come first.
  lemma AloneGetsOneIfAny(rows: Rows, dialogs: set<Dialog>, prefix: string,
                          first: seq<Candidate>, second: seq<Candidate>)
    requires IsSelected(rows, dialogs, prefix, true, first) && IsSelected(rows, dialogs, prefix, false, second)
    ensures var list := if first != [] then first else second;
            && (list != [] <==> Free(rows, dialogs, prefix, true) + Free(rows, dialogs, prefix, false) != {})
            && (list != [] ==> Lockable(rows, dialogs, list[0].contact, list[0].username) != {}
                               && FewestFree(rows, Free(rows, dialogs, prefix, first != []), list[0].vm))
            && (Free(rows, dialogs, prefix, true) != {} ==> list != [] && VmInDialog(dialogs, list[0].vm))
  {
    HeadIsLockable(rows, dialogs, prefix, true, first);
    HeadIsLockable(rows, dialogs, prefix, false, second);
  }

  // No machine that has a free gateway has fewer.
  ghost predicate FewestFree(rows: Rows, free: set<nat>, vm: string) {
    forall id | id in free && id in rows :: CountOn(rows, free, vm) <= CountOn(rows, free, rows[id].vm)
  }

  lemma HeadHasFewest(rows: Rows, free: set<nat>, list: seq<Candidate>)
    requires Grouped(rows, free, list) && list != []
    ensures FewestFree(rows, free, list[0].vm)
  {
    forall id | id in free && id in rows
      ensures CountOn(rows, free, list[0].vm) <= CountOn(rows, free, rows[id].vm)
    {
      assert Listed(list, rows[id].vm);
      var j :| 0 <= j < |list| && list[j].vm == rows[id].vm;
    }
  }

  lemma HeadIsLockable(rows: Rows, dialogs: set<Dialog>, prefix: string, busy: bool, list: seq<Candidate>)
    requires IsSelected(rows, dialogs, prefix, busy, list)
    ensures list != [] <==> Free(rows, dialogs, prefix, busy) != {}
    ensures list != [] ==> Lockable(rows, dialogs, list[0].contact, list[0].username) != {}
    ensures list != [] ==> VmInDialog(dialogs, list[0].vm) == busy
    ensures list != [] ==> FewestFree(rows, Free(rows, dialogs, prefix, busy), list[0].vm)
  {
    if list != [] {
      HeadHasFewest(rows, Free(rows, dialogs, prefix, busy), list);
    }
    var ids := Free(rows, dialogs, prefix, busy);
    if list != [] {
      assert list[0] in list && IsOneOf(rows, ids, list[0]);
      var id :| id in ids && id in rows && CandidateOf(rows[id]) == list[0];
      assert id in Lockable(rows, dialogs, list[0].contact, list[0].username);
    } else {
      assert forall id | id in ids :: Listed(list, rows[id].vm);
    }
  }

  // ------------------------------------------------- lists a SELECT can return

  // Distinct machines in increasing order of a figure.
  ghost predicate Ranked(vms: seq<string>, key: string -> int) {
    forall i, j :: 0 <= i < j < |vms| ==> vms[i] != vms[j] && key(vms[i]) <= key(vms[j])
  }

  lemma {:induction false} Rank(vms: set<string>, key: string -> int) returns (list: seq<string>)
    ensures Ranked(list, key) && forall v :: v in list <==> v in vms
    decreases |vms|
  {
    list := [];
    if vms != {} {
      var v :| v in vms;
      var rest := Rank(vms - {v}, key);
      list := RankOne(rest, key, v);
    }
  }

  lemma {:induction false} RankOne(list: seq<string>, key: string -> int, v: string) returns (more: seq<string>)
    requires Ranked(list, key) && v !in list
    ensures Ranked(more, key) && forall x :: x in more <==> x in list || x == v
    decreases |list|
  {
    if list == [] || key(v) <= key(list[0]) {
      more := [v] + list;
      assert forall i :: 0 <= i < |list| ==> more[i + 1] == list[i] && list[i] in list;
    } else {
      var rest := RankOne(list[1..], key, v);
      more := [list[0]] + rest;
      assert list == [list[0]] + list[1..];
      forall x | x in rest
        ensures x != list[0] && key(list[0]) <= key(x)
      {
        if x != v {
          var i :| 0 <= i < |list[1..]| && list[1..][i] == x;
          assert list[i + 1] == x;
        }
      }
      assert forall i :: 0 < i < |more| ==> more[i] == rest[i - 1] && rest[i - 1] in rest;
    }
  }

  function VmsOf(rows: Rows, ids: set<nat>): set<string> { set id | id in ids && id in rows :: rows[id].vm }

  // Whatever the table, lockGw's SELECTs have a list to return, with as many
  // candidates as there are machines with a free gateway.
  lemma SomeSelected(rows: Rows, dialogs: set<Dialog>, prefix: string, busy: bool) returns (list: seq<Candidate>)
    ensures IsSelected(rows, dialogs, prefix, busy, list)
    ensures |list| == |VmsOf(rows, Free(rows, dialogs, prefix, busy))|
  {
    var free := Free(rows, dialogs, prefix, busy);
    var vms := Rank(VmsOf(rows, free), v => CountOn(rows, free, v));
    list := Candidates(rows, free, vms);
    forall id | id in free && id in rows
      ensures Listed(list, rows[id].vm)
    {
      assert rows[id].vm in vms;
      var i :| 0 <= i < |vms| && vms[i] == rows[id].vm;
      assert list[i] in list;
    }
    OnePerMachine(rows, free, list);
  }

  lemma {:induction false} Candidates(rows: Rows, free: set<nat>, vms: seq<string>) returns (list: seq<Candidate>)
    requires forall v | v in vms :: v in VmsOf(rows, free)
    ensures |list| == |vms| && (forall i :: 0 <= i < |vms| ==> list[i].vm == vms[i])
    ensures forall c | c in list :: IsOneOf(rows, free, c)
    decreases |vms|
  {
    list := [];
    if vms != [] {
      var n := |vms| - 1;
      assert vms[n] in vms && forall v | v in vms[..n] :: v in vms;
      var init := Candidates(rows, free, vms[..n]);
      var id :| id in free && id in rows && rows[id].vm == vms[n];
      assert IsOneOf(rows, free, CandidateOf(rows[id]));
      list := init + [CandidateOf(rows[id])];
    }
  }

  // One candidate for each machine with a free gateway, no more.
  lemma OnePerMachine(rows: Rows, free: set<nat>, list: seq<Candidate>)
    requires Grouped(rows, free, list)
    ensures |list| == |VmsOf(rows, free)|
  {
    var vms := seq(|list|, i requires 0 <= i < |list| => list[i].vm);
    forall v
      ensures v in VmsOf(rows, free) <==> v in vms
    {
      if v in vms {
        var i :| 0 <= i < |vms| && vms[i] == v;
        assert list[i] in list && IsOneOf(rows, free, list[i]);
      }
      if v in VmsOf(rows, free) {
        var id :| id in free && id in rows && rows[id].vm == v;
        assert Listed(list, v);
        var c :| c in list && c.vm == v;
        var i :| 0 <= i < |list| && list[i] == c;
        assert vms[i] == v;
      }
    }
    DistinctCount(vms, VmsOf(rows, free));
  }

  lemma {:induction false} DistinctCount(vms: seq<string>, all: set<string>)
    requires (forall i, j :: 0 <= i < j < |vms| ==> vms[i] != vms[j]) && forall v :: v in vms <==> v in all
    ensures |vms| == |all|
    decreases |vms|
  {
    if vms != [] {
      var n := |vms| - 1;
      assert vms == vms[..n] + [vms[n]] && vms[n] !in vms[..n];
      DistinctCount(vms[..n], all - {vms[n]});
    } else {
      assert all == {};
    }
  }

  // And so has the scaler's: the unused machines, each once, with their count.
  lemma SomeVmList(rows: Rows, dialogs: set<Dialog>, prefix: string) returns (list: seq<VmCount>)
    ensures IsVmList(rows, dialogs, prefix, list)
    ensures |list| == |UnusedVms(rows, dialogs, prefix)|
  {
    var vms := Rank(UnusedVms(rows, dialogs, prefix), v => -(|Idle(rows, dialogs, prefix, v)|));
    list := seq(|vms|, i requires 0 <= i < |vms| => VmCount(vms[i], |Idle(rows, dialogs, prefix, vms[i])|));
    forall i | 0 <= i < |list|
      ensures list[i].count == |Idle(rows, dialogs, prefix, list[i].vm)| > 0
    {
      assert vms[i] in vms;
    }
    forall id | id in rows && Idle(rows, dialogs, prefix, rows[id].vm) != {}
      ensures exists v | v in list :: v.vm == rows[id].vm
    {
      assert rows[id].vm in vms;
      var i :| 0 <= i < |vms| && vms[i] == rows[id].vm;
      assert list[i] in list;
    }
    DistinctCount(vms, UnusedVms(rows, dialogs, prefix));
  }

  function UnusedVms(rows: Rows, dialogs: set<Dialog>, prefix: string): set<string> {
    set id | id in rows && Idle(rows, dialogs, prefix, rows[id].vm) != {} :: rows[id].vm
  }

  // --------------------------------------------------------- what unlock frees

  predicate Plain(text: string) { forall i :: 0 <= i < |text| ==> !Special(text[i]) }

  lemma {:induction false} PlainEscaped(text: string)
    requires Plain(text)
    ensures EscapeEach(text) == text
  {
    if text != "" {
      PlainEscaped(text[1..]);
      assert text == [text[0]] + text[1..];
    }
  }

  // The user is not escaped: without wildcards in it, exactly the rows whose
  // contact contains it are unlocked, so one gateway alone exactly when no
  // other contact contains its name.
  lemma UnlocksContaining(rows: Rows, dstUser: string, id: nat)
    requires Plain(dstUser) && id in rows
    ensures forall k :: k in Releasable(rows, dstUser) <==> k in rows && Contains(rows[k].contact, dstUser)
    ensures Releasable(rows, dstUser) == {id} <==>
            forall k | k in rows :: Contains(rows[k].contact, dstUser) <==> k == id
  {
    SequentialIsSimultaneous(dstUser);
    PlainEscaped(dstUser);
    forall k | k in rows
      ensures k in Releasable(rows, dstUser) <==> Contains(rows[k].contact, dstUser)
    {
      PatternMeansContains(dstUser, rows[k].contact);
    }
  }

  // With wildcards, those in which some stretch matches the name as a pattern;
  // a name that ends inside an escape takes a '%' that ends the contact.
  ghost predicate MatchesUser(contact: string, dstUser: string) {
    if Closed(dstUser) then Within(contact, dstUser) else WithinToPercent(contact, dstUser[..|dstUser| - 1])
  }

  lemma UserMatches(contact: string, dstUser: string)
    ensures Like(contact, Anywhere(dstUser)) <==> MatchesUser(contact, dstUser)
  {
    if Closed(dstUser) {
      AnywhereMeansWithin(contact, dstUser);
    } else {
      OpenMeansAtTheEnd(contact, dstUser);
    }
  }

  // One gateway alone is unlocked, whatever the name holds, exactly when the
  // name matches within its contact and within no other.
  lemma UnlocksMatching(rows: Rows, dstUser: string, id: nat)
    requires id in rows
    ensures forall k :: k in Releasable(rows, dstUser) <==> k in rows && MatchesUser(rows[k].contact, dstUser)
    ensures Releasable(rows, dstUser) == {id} <==>
            forall k | k in rows :: MatchesUser(rows[k].contact, dstUser) <==> k == id
  {
    forall k | k in rows
      ensures k in Releasable(rows, dstUser) <==> MatchesUser(rows[k].contact, dstUser)
    {
      UserMatches(rows[k].contact, dstUser);
    }
  }

  // "gw1" unlocks "gw10" as well.
  lemma UnlocksLongerName()
    ensures Like("gw10", Anywhere("gw1"))
  {
    PlainEscaped("gw1");
    SequentialIsSimultaneous("gw1");
    PatternMeansContains("gw1", "gw10");
    assert OccursAt("gw10", "gw1", 0);
  }

  // "gw_1" unlocks every name with some character there.
  lemma UnlocksAnyCharacter()
    ensures Like("gwX1", Anywhere("gw_1"))
  {
    var p := Anywhere("gw_1");
    assert p[1..] == "gw_1%" && p[1..][1..] == "w_1%" && p[1..][1..][1..] == "_1%";
    assert "gwX1"[1..] == "wX1" && "wX1"[1..] == "X1" && "X1"[1..] == "1";
    assert "_1%"[1..] == "1%" && "1%"[1..] == "%" && "1"[1..] == "";
    AnyMatches("");
    assert Like("1", "1%") && Like("X1", "_1%") && Like("wX1", "w_1%") && Like("gwX1", "gw_1%");
  }
}
