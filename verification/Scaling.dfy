// How many gateways the media pool should have, and what one iteration of the
// scaler does about it (deploy/scaler/src/Scaler.py, ScalerMedia.py). Loads
// and targets are exact.
module Scaling {
  import opened GatewayTable
  import opened Text

  // ------------------------------------------------------ creating instances

  predicate Positive(sizes: seq<nat>) { forall i :: 0 <= i < |sizes| ==> sizes[i] > 0 }

  function Total(sizes: seq<nat>): nat {
    if sizes == [] then 0 else Total(sizes[..|sizes| - 1]) + sizes[|sizes| - 1]
  }

  // What remains of a request once the sizes were tried one after the other.
  function Leftover(n: nat, sizes: seq<nat>): nat
    requires Positive(sizes)
  {
    if sizes == [] then n else Leftover(n, sizes[..|sizes| - 1]) % sizes[|sizes| - 1]
  }

  // The CPUs an upscale of n creates.
  function Provisioned(n: nat, sizes: seq<nat>): nat
    requires Positive(sizes) && sizes != []
  {
    var left := Leftover(n, sizes);
    LeftoverAtMost(n, sizes);
    if left == 0 then n else n - left + sizes[|sizes| - 1]
  }

  lemma {:induction false} LeftoverAtMost(n: nat, sizes: seq<nat>)
    requires Positive(sizes)
    ensures Leftover(n, sizes) <= n
    ensures sizes != [] ==> Leftover(n, sizes) < sizes[|sizes| - 1]
    decreases |sizes|
  {
    if sizes != [] {
      LeftoverAtMost(n, sizes[..|sizes| - 1]);
      ModAtMost(Leftover(n, sizes[..|sizes| - 1]), sizes[|sizes| - 1]);
    }
  }

  lemma ModAtMost(a: nat, k: nat)
    requires k > 0
    ensures a % k <= a && a % k < k
  {
  }

  // upScale: the sizes come in the order their names sort in, whatever their
  // values; without any, a request that is not zero fails.
  function Copies(size: nat, n: nat): seq<nat> { seq(n, _ => size) }

  // As many of each size in turn as still fit in what the sizes before it left.
  function Fitting(n: nat, sizes: seq<nat>): seq<nat>
    requires Positive(sizes)
  {
    if sizes == [] then []
    else
      var init, size := sizes[..|sizes| - 1], sizes[|sizes| - 1];
      Fitting(n, init) + Copies(size, HowMany(Leftover(n, init), size))
  }

  function HowMany(n: nat, size: nat): nat
    requires size > 0
  {
    n / size
  }

  method UpScale(numCPU: nat, sizes: seq<nat>) returns (created: Option<seq<nat>>)
    requires Positive(sizes)
    ensures created.Some? && sizes != [] ==>
      created.value == Fitting(numCPU, sizes) + if Leftover(numCPU, sizes) == 0 then [] else [sizes[|sizes| - 1]]
    ensures created == None <==> sizes == [] && numCPU > 0
    ensures created.Some? ==> forall c | c in created.value :: c in sizes
    ensures created.Some? && sizes != [] ==> Total(created.value) == Provisioned(numCPU, sizes)
  {
    var made, rest := TrySizes(numCPU, sizes);
    if rest != 0 {
      if sizes == [] {
        return None;
      }
      made := CreateInstances(made, sizes[|sizes| - 1], 1);
      assert Copies(sizes[|sizes| - 1], 1) == [sizes[|sizes| - 1]];
      assert Times(sizes[|sizes| - 1], 1) == sizes[|sizes| - 1];
    }
    return Some(made);
  }

  // As many instances of each size in turn as still fit.
  method TrySizes(numCPU: nat, sizes: seq<nat>) returns (made: seq<nat>, rest: nat)
    requires Positive(sizes)
    ensures rest == Leftover(numCPU, sizes) && Total(made) + rest == numCPU
    ensures made == Fitting(numCPU, sizes) && forall c | c in made :: c in sizes
  {
    rest, made := numCPU, [];
    for i := 0 to |sizes|
      invariant rest == Leftover(numCPU, sizes[..i]) && made == Fitting(numCPU, sizes[..i])
      invariant Total(made) + rest == numCPU
      invariant forall c | c in made :: c in sizes
    {
      LeftoverStep(numCPU, sizes, i);
      WholePart(rest, sizes[i]);
      made := CreateInstances(made, sizes[i], rest / sizes[i]);
      rest := rest % sizes[i];
    }
    assert sizes[..|sizes|] == sizes;
  }

  method CreateInstances(before: seq<nat>, cpu: nat, instNum: nat) returns (made: seq<nat>)
    ensures made == before + Copies(cpu, instNum) && Total(made) == Total(before) + Times(cpu, instNum)
    ensures forall c | c in made :: c in before || c == cpu
  {
    made := before;
    for k := 0 to instNum
      invariant made == before + Copies(cpu, k)
    {
      OneMoreCopy(before, cpu, k);
      made := made + [cpu];
    }
    TotalOfCopies(before, cpu, instNum);
  }

  lemma OneMoreCopy(before: seq<nat>, cpu: nat, k: nat)
    ensures before + Copies(cpu, k) + [cpu] == before + Copies(cpu, k + 1)
  {
  }

  lemma {:induction false} TotalOfCopies(before: seq<nat>, cpu: nat, k: nat)
    ensures Total(before + Copies(cpu, k)) == Total(before) + Times(cpu, k)
  {
    if k == 0 {
      assert before + Copies(cpu, 0) == before;
    } else {
      TotalOfCopies(before, cpu, k - 1);
      OneMoreCopy(before, cpu, k - 1);
      var all := before + Copies(cpu, k - 1) + [cpu];
      assert all[..|all| - 1] == before + Copies(cpu, k - 1);
      OneMoreTime(cpu, k);
    }
  }

  lemma OneMoreTime(cpu: nat, k: nat)
    requires k > 0
    ensures Times(cpu, k) == Times(cpu, k - 1) + cpu
  {
  }

  lemma LeftoverStep(n: nat, sizes: seq<nat>, i: nat)
    requires i < |sizes| && Positive(sizes)
    ensures Leftover(n, sizes[..i + 1]) == Leftover(n, sizes[..i]) % sizes[i]
    ensures Fitting(n, sizes[..i + 1]) == Fitting(n, sizes[..i]) + Copies(sizes[i], HowMany(Leftover(n, sizes[..i]), sizes[i]))
  {
    assert sizes[..i + 1][..i] == sizes[..i];
  }

  // Enough, and less than one last-size instance too much.
  lemma ProvisionedBounds(n: nat, sizes: seq<nat>)
    requires Positive(sizes) && sizes != []
    ensures n <= Provisioned(n, sizes) < n + sizes[|sizes| - 1]
  {
    LeftoverAtMost(n, sizes);
  }

  function Times(k: int, q: int): int { k * q }

  // a is k times a whole number.
  ghost predicate Divides(k: nat, a: int) { exists q :: Times(k, q) == a }

  ghost predicate MultiplesOf(k: nat, sizes: seq<nat>) {
    forall i :: 0 <= i < |sizes| ==> Divides(k, sizes[i])
  }

  lemma DividesSum(k: nat, a: int, b: int)
    requires Divides(k, a) && Divides(k, b)
    ensures Divides(k, a + b) && Divides(k, a - b)
  {
    var x :| Times(k, x) == a;
    var y :| Times(k, y) == b;
    assert Times(k, x + y) == a + b && Times(k, x - y) == a - b;
  }

  lemma DividesTimes(k: nat, a: int, q: int)
    requires Divides(k, a)
    ensures Divides(k, Times(a, q))
  {
    var x :| Times(k, x) == a;
    assert Times(k, Times(x, q)) == Times(a, q);
  }

  lemma NoMultipleBetween(k: nat, gap: int)
    requires 0 < gap < k
    ensures !Divides(k, gap)
  {
    if Divides(k, gap) {
      var q :| Times(k, q) == gap;
      MultipleIsFar(k, q);
    }
  }

  lemma MultipleIsFar(k: nat, q: int)
    ensures if q >= 1 then Times(k, q) >= k else Times(k, q) <= 0
  {
  }

  lemma {:induction false} TotalDivided(k: nat, choice: seq<nat>)
    requires MultiplesOf(k, choice)
    ensures Divides(k, Total(choice))
    decreases |choice|
  {
    if choice == [] {
      assert Times(k, 0) == 0;
    } else {
      TotalDivided(k, choice[..|choice| - 1]);
      DividesSum(k, Total(choice[..|choice| - 1]), choice[|choice| - 1]);
    }
  }

  lemma WholePart(a: nat, k: nat)
    requires k > 0
    ensures a - a % k == Times(k, a / k)
  {
  }

  // Dividing by multiples of k keeps what k leaves.
  lemma {:induction false} LeftoverDivided(k: nat, n: nat, sizes: seq<nat>)
    requires Positive(sizes) && MultiplesOf(k, sizes)
    ensures Divides(k, n - Leftover(n, sizes))
    decreases |sizes|
  {
    if sizes == [] {
      assert Times(k, 0) == 0;
    } else {
      var init, last := sizes[..|sizes| - 1], sizes[|sizes| - 1];
      var before := Leftover(n, init);
      LeftoverDivided(k, n, init);
      WholePart(before, last);
      DividesTimes(k, last, before / last);
      DividesSum(k, n - before, before - before % last);
    }
  }

  // When the last size divides all the others, no choice of sizes that covers
  // the request costs less.
  lemma CheapestWhenLastDivides(n: nat, sizes: seq<nat>, choice: seq<nat>)
    requires Positive(sizes) && sizes != [] && MultiplesOf(sizes[|sizes| - 1], sizes)
    requires (forall i :: 0 <= i < |choice| ==> choice[i] in sizes) && Total(choice) >= n
    ensures Total(choice) >= Provisioned(n, sizes)
  {
    var last, p := sizes[|sizes| - 1], Provisioned(n, sizes);
    ProvisionedBounds(n, sizes);
    ProvisionedDivided(n, sizes);
    TotalDivided(last, choice);
    DividesSum(last, p, Total(choice));
    if Total(choice) < p {
      NoMultipleBetween(last, p - Total(choice));
    }
  }

  // Sizes that cover a request, as many of each as one likes.
  ghost predicate Covers(choice: seq<nat>, sizes: seq<nat>, n: nat) {
    (forall i :: 0 <= i < |choice| ==> choice[i] in sizes) && Total(choice) >= n
  }

  // What an upscale creates costs no more than any cover of the request.
  ghost predicate Cheapest(n: nat, sizes: seq<nat>)
    requires Positive(sizes) && sizes != []
  {
    forall choice :: Covers(choice, sizes, n) ==> Total(choice) >= Provisioned(n, sizes)
  }

  // The cheapest cover of every number of gateways, exactly when some size holds
  // a single gateway or the last size divides every size.
  lemma CheapestForEveryDecision(cpuPerGw: nat, sizes: seq<nat>)
    requires cpuPerGw > 0 && Positive(sizes) && sizes != [] && MultiplesOf(cpuPerGw, sizes)
    ensures (forall d: nat :: Cheapest(Times(cpuPerGw, d), sizes)) <==>
            cpuPerGw in sizes || MultiplesOf(sizes[|sizes| - 1], sizes)
  {
    var last := sizes[|sizes| - 1];
    if cpuPerGw in sizes || MultiplesOf(last, sizes) {
      forall d: nat
        ensures Cheapest(Times(cpuPerGw, d), sizes)
      {
        CheapestHere(cpuPerGw, Times(cpuPerGw, d), sizes);
      }
    } else {
      var d, choice := DearerCover(cpuPerGw, sizes);
      assert Covers(choice, sizes, Times(cpuPerGw, d));
      assert !Cheapest(Times(cpuPerGw, d), sizes);
    }
  }

  lemma CheapestHere(cpuPerGw: nat, n: nat, sizes: seq<nat>)
    requires cpuPerGw > 0 && Positive(sizes) && sizes != [] && MultiplesOf(cpuPerGw, sizes) && Divides(cpuPerGw, n)
    requires cpuPerGw in sizes || MultiplesOf(sizes[|sizes| - 1], sizes)
    ensures Cheapest(n, sizes)
  {
    forall choice | Covers(choice, sizes, n)
      ensures Total(choice) >= Provisioned(n, sizes)
    {
      if cpuPerGw in sizes {
        NothingLeft(cpuPerGw, n, sizes);
      } else {
        CheapestWhenLastDivides(n, sizes, choice);
      }
    }
  }

  // Of every number of CPUs it is, exactly when a single CPU can be had or the
  // last size divides every size.
  lemma CheapestForEveryRequest(sizes: seq<nat>)
    requires Positive(sizes) && sizes != []
    ensures (forall n: nat :: Cheapest(n, sizes)) <==> 1 in sizes || MultiplesOf(sizes[|sizes| - 1], sizes)
  {
    Units(sizes);
    CheapestForEveryDecision(1, sizes);
    if n: nat :| !Cheapest(n, sizes) {
      One(n);
    }
  }

  lemma One(n: nat)
    ensures Times(1, n) == n
  {
  }

  lemma Units(sizes: seq<nat>)
    ensures MultiplesOf(1, sizes)
  {
    forall i | 0 <= i < |sizes|
      ensures Divides(1, sizes[i])
    {
      One(sizes[i]);
    }
  }

  // Gateways that cost more than some cover of them: a single one when the last
  // size is not the least; otherwise a size it does not divide, and the last one
  // often enough for the rest to pass through every size.
  lemma DearerCover(cpuPerGw: nat, sizes: seq<nat>) returns (d: nat, choice: seq<nat>)
    requires cpuPerGw > 0 && Positive(sizes) && sizes != [] && MultiplesOf(cpuPerGw, sizes)
    requires cpuPerGw !in sizes && !MultiplesOf(sizes[|sizes| - 1], sizes)
    ensures Covers(choice, sizes, Times(cpuPerGw, d))
    ensures Total(choice) < Provisioned(Times(cpuPerGw, d), sizes)
  {
    var last := sizes[|sizes| - 1];
    if i :| 0 <= i < |sizes| && sizes[i] < last {
      d, choice := 1, [sizes[i]];
      assert Times(cpuPerGw, 1) == cpuPerGw;
      OneCostsLast(cpuPerGw, sizes, i);
    } else {
      var i :| 0 <= i < |sizes| && !Divides(last, sizes[i]);
      var n;
      n, choice := ManyAndOne(sizes, i);
      TotalDivided(cpuPerGw, choice);
      var q :| Times(cpuPerGw, q) == Total(choice);
      MultipleIsFar(cpuPerGw, q);
      d := q;
    }
  }

  lemma OneCostsLast(cpuPerGw: nat, sizes: seq<nat>, i: nat)
    requires cpuPerGw > 0 && Positive(sizes) && MultiplesOf(cpuPerGw, sizes) && cpuPerGw !in sizes
    requires i < |sizes| && sizes[i] < sizes[|sizes| - 1]
    ensures Covers([sizes[i]], sizes, cpuPerGw) && Total([sizes[i]]) < Provisioned(cpuPerGw, sizes)
  {
    assert [sizes[i]][..0] == [];
    OneIsTooSmall(cpuPerGw, sizes);
    NotSmaller(cpuPerGw, sizes[i]);
  }

  lemma NotSmaller(k: nat, size: nat)
    requires size > 0 && Divides(k, size)
    ensures size >= k
  {
    var q :| Times(k, q) == size;
    MultipleIsFar(k, q);
  }

  lemma ManyAndOne(sizes: seq<nat>, i: nat) returns (n: nat, choice: seq<nat>)
    requires Positive(sizes) && i < |sizes| && !Divides(sizes[|sizes| - 1], sizes[i])
    requires forall j :: 0 <= j < |sizes| ==> sizes[j] >= sizes[|sizes| - 1]
    ensures Covers(choice, sizes, n) && n == Total(choice) < Provisioned(n, sizes)
    ensures forall c | c in choice :: c in sizes
  {
    var last := sizes[|sizes| - 1];
    var q, r := Remains(last, sizes[i]);
    var m, k := RoomFor(sizes, q);
    assert Times(last, q + k) == Times(last, q) + Times(last, k);
    n := m + r;
    choice := Filled(sizes, i, k);
    PassesThrough(m, r, sizes);
    CostsLastMore(n, r, sizes);
  }

  lemma Filled(sizes: seq<nat>, i: nat, k: nat) returns (choice: seq<nat>)
    requires i < |sizes|
    ensures Total(choice) == sizes[i] + Times(sizes[|sizes| - 1], k)
    ensures Covers(choice, sizes, Total(choice))
  {
    choice := Repeat([sizes[i]], sizes[|sizes| - 1], k);
    assert [sizes[i]][..0] == [] && Total([sizes[i]]) == Total([]) + sizes[i];
    forall j | 0 <= j < |choice|
      ensures choice[j] in sizes
    {
      assert choice[j] in choice;
    }
  }

  lemma CostsLastMore(n: nat, r: nat, sizes: seq<nat>)
    requires Positive(sizes) && sizes != [] && Leftover(n, sizes) == r > 0
    ensures Provisioned(n, sizes) == n - r + sizes[|sizes| - 1]
  {
  }

  lemma Remains(last: nat, s: nat) returns (q: nat, r: nat)
    requires last > 0 && !Divides(last, s)
    ensures s == Times(last, q) + r && 0 < r < last
  {
    WholePart(s, last);
    q, r := s / last, s % last;
  }

  function Repeat(choice: seq<nat>, size: nat, k: nat): (r: seq<nat>)
    ensures Total(r) == Total(choice) + Times(size, k)
    ensures forall c | c in r :: c in choice || c == size
    decreases k
  {
    if k == 0 then choice
    else
      var r := Repeat(choice, size, k - 1) + [size];
      assert r[..|r| - 1] == Repeat(choice, size, k - 1);
      assert Times(size, k) == Times(size, k - 1) + size;
      r
  }

  function Product(sizes: seq<nat>): nat {
    if sizes == [] then 1 else Times(Product(sizes[..|sizes| - 1]), sizes[|sizes| - 1])
  }

  lemma {:induction false} ProductDivided(sizes: seq<nat>, i: nat)
    requires Positive(sizes) && i < |sizes|
    ensures Divides(sizes[i], Product(sizes)) && Product(sizes) > 0
    decreases |sizes|
  {
    var init, last := sizes[..|sizes| - 1], sizes[|sizes| - 1];
    if init != [] {
      ProductDivided(init, if i < |init| then i else 0);
    } else {
      assert Product(init) == 1;
    }
    if i < |init| {
      DividesTimes(sizes[i], Product(init), last);
    } else {
      assert Times(last, Product(init)) == Product(sizes);
    }
  }

  // A multiple of every size that holds q times the last one and k more.
  lemma RoomFor(sizes: seq<nat>, q: nat) returns (m: nat, k: nat)
    requires Positive(sizes) && sizes != []
    ensures m == Times(sizes[|sizes| - 1], q + k)
    ensures forall i :: 0 <= i < |sizes| ==> Divides(sizes[i], m)
  {
    var last := sizes[|sizes| - 1];
    ProductDivided(sizes, |sizes| - 1);
    var x :| Times(last, x) == Product(sizes);
    MultipleIsFar(last, x);
    m := Times(Product(sizes), q);
    GrowsBy(x, q);
    k := Times(x, q) - q;
    assert Times(Times(last, x), q) == Times(last, Times(x, q));
    forall i | 0 <= i < |sizes|
      ensures Divides(sizes[i], m)
    {
      ProductDivided(sizes, i);
      DividesTimes(sizes[i], Product(sizes), q);
    }
  }

  lemma GrowsBy(x: int, q: nat)
    requires x >= 1
    ensures Times(x, q) >= q
  {
    assert Times(x, q) - q == Times(x - 1, q);
  }

  // What is left of a multiple of every size and a little more is the little.
  lemma {:induction false} PassesThrough(m: nat, r: nat, sizes: seq<nat>)
    requires Positive(sizes) && sizes != []
    requires forall i :: 0 <= i < |sizes| ==> Divides(sizes[i], m) || m == 0
    requires forall i :: 0 <= i < |sizes| ==> r < sizes[i]
    ensures Leftover(m + r, sizes) == r
    decreases |sizes|
  {
    var init, last := sizes[..|sizes| - 1], sizes[|sizes| - 1];
    if init == [] {
      assert Times(last, 0) == 0;
      var x :| Times(last, x) == m;
      ModIs(m + r, last, x, r);
    } else {
      PassesThrough(m, r, init);
      SmallMod(r, last);
    }
  }

  lemma ModIs(a: int, s: nat, x: int, r: int)
    requires s > 0 && a == Times(s, x) + r && 0 <= r < s
    ensures a % s == r
  {
    var gap := a / s - x;
    assert a == Times(s, a / s) + a % s;
    assert Times(s, gap) == r - a % s;
    MultipleIsFar(s, gap);
    MultipleIsFar(s, -gap);
    assert Times(s, -gap) == a % s - r;
  }

  lemma ProvisionedDivided(n: nat, sizes: seq<nat>)
    requires Positive(sizes) && sizes != [] && MultiplesOf(sizes[|sizes| - 1], sizes)
    ensures Divides(sizes[|sizes| - 1], Provisioned(n, sizes))
  {
    var last := sizes[|sizes| - 1];
    LeftoverDivided(last, n, sizes);
    DividesSum(last, n - Leftover(n, sizes), last);
  }

  // Eight gateways of 4 CPUs out of sizes 24 and 16: 40 CPUs where 32 would do.
  lemma DearerThanNeeded()
    ensures Provisioned(Times(4, 8), [24, 16]) == 40
    ensures Covers([16, 16], [24, 16], Times(4, 8)) && Total([16, 16]) == 32
  {
    assert [24, 16][..1] == [24] && [24][..0] == [] && [16, 16][..1] == [16] && [16][..0] == [];
    assert Times(4, 8) == 32;
    assert Leftover(32, [24]) == 8;
    assert Leftover(32, [24, 16]) == 8;
    assert Total([16]) == 16;
  }

  // The sizes in the order their names sort in may end on one that does not
  // divide the others, and the cover still be the cheapest.
  lemma SortedByName()
    ensures (forall d: nat :: Cheapest(Times(4, d), [8, 4, 16])) && !MultiplesOf(16, [8, 4, 16])
  {
    assert Times(4, 4) == 16 && Times(4, 1) == 4 && Times(4, 2) == 8;
    assert [8, 4, 16][1] == 4;
    CheapestForEveryDecision(4, [8, 4, 16]);
    NoMultipleBetween(16, 4);
  }

  // Gateways take cpuPerGw CPUs each and sizes hold a whole number of them: an
  // upscale gives exactly the gateways asked, whatever their number, if and
  // only if some size holds a single gateway.
  lemma ExactForEveryRequest(cpuPerGw: nat, sizes: seq<nat>)
    requires cpuPerGw > 0 && Positive(sizes) && sizes != [] && MultiplesOf(cpuPerGw, sizes)
    ensures (forall d: nat :: Provisioned(Times(cpuPerGw, d), sizes) == Times(cpuPerGw, d)) <==> cpuPerGw in sizes
  {
    if cpuPerGw in sizes {
      forall d: nat
        ensures Provisioned(Times(cpuPerGw, d), sizes) == Times(cpuPerGw, d)
      {
        NothingLeft(cpuPerGw, Times(cpuPerGw, d), sizes);
      }
    } else {
      OneIsTooSmall(cpuPerGw, sizes);
      LeftoverAtMost(cpuPerGw, sizes);
      assert Times(cpuPerGw, 1) == cpuPerGw;
      assert Provisioned(Times(cpuPerGw, 1), sizes) != Times(cpuPerGw, 1);
    }
  }

  lemma {:induction false} NothingLeft(k: nat, n: nat, sizes: seq<nat>)
    requires k > 0 && Positive(sizes) && Divides(k, n) && MultiplesOf(k, sizes)
    requires k in sizes
    ensures Leftover(n, sizes) == 0
    decreases |sizes|
  {
    var init, last := sizes[..|sizes| - 1], sizes[|sizes| - 1];
    if last == k {
      LeftoverDivided(k, n, sizes);
      DividesSum(k, n, n - Leftover(n, sizes));
      LeftoverAtMost(n, sizes);
      if Leftover(n, sizes) > 0 {
        NoMultipleBetween(k, Leftover(n, sizes));
      }
    } else {
      NothingLeft(k, n, init);
    }
  }

  lemma {:induction false} OneIsTooSmall(k: nat, sizes: seq<nat>)
    requires k > 0 && Positive(sizes) && k !in sizes && MultiplesOf(k, sizes)
    ensures Leftover(k, sizes) == k
    decreases |sizes|
  {
    if sizes != [] {
      var last := sizes[|sizes| - 1];
      OneIsTooSmall(k, sizes[..|sizes| - 1]);
      if last < k {
        NoMultipleBetween(k, last);
      }
      assert k < last;
      SmallMod(k, last);
    }
  }

  lemma SmallMod(a: nat, k: nat)
    requires a < k
    ensures a % k == a
  {
  }

  // --------------------------------------------------------- the decision

  // A slot of the day: optional floors read 0 when absent.
  datatype Slot = Slot(maxGw: nat, minGw: nat, unlockedMin: nat, loadMax: real)

  function MinR(a: real, b: real): real { if a <= b then a else b }

  function MaxR(a: real, b: real): real { if a >= b then a else b }

  // math.ceil
  function Ceil(x: real): int { if x.Floor as real == x then x.Floor else x.Floor + 1 }

  // Gateways that are neither free nor waiting, unless the caller gives a figure.
  function InCallNum(given: Option<int>, current: nat, ready: nat): int {
    if given.Some? && given.value != 0 then given.value else current - ready
  }

  // A figure of zero is no figure: the table's is taken.
  lemma GivenCalls(v: int, current: nat, ready: nat)
    ensures InCallNum(None, current, ready) == InCallNum(Some(0), current, ready) == current - ready
    ensures v != 0 ==> InCallNum(Some(v), current, ready) == v
  {
  }

  function Target(slot: Slot, inCall: int): real
    requires slot.loadMax > 0.0
  {
    MinR(slot.maxGw as real,
         MaxR(MaxR(slot.minGw as real, (slot.unlockedMin + inCall) as real), inCall as real / slot.loadMax))
  }

  // How many gateways to add, or to take away when negative.
  function Increase(slot: Slot, current: nat, inCall: int): int
    requires slot.loadMax > 0.0
  {
    Ceil(Target(slot, inCall) - current as real)
  }

  lemma CeilShifts(x: real, n: int)
    ensures Ceil(x - n as real) == Ceil(x) - n
  {
    assert (x - n as real).Floor == x.Floor - n;
  }

  lemma CeilIs(x: real)
    ensures x <= Ceil(x) as real < x + 1.0
  {
  }

  // What the target is worth: between the buffer asked for and the ceiling.
  lemma TargetBounds(slot: Slot, inCall: nat)
    requires slot.loadMax > 0.0
    ensures Ceil(Target(slot, inCall)) <= slot.maxGw
    ensures slot.unlockedMin + inCall <= slot.maxGw ==> Ceil(Target(slot, inCall)) >= slot.unlockedMin + inCall
    ensures slot.unlockedMin + inCall >= slot.maxGw ==> Ceil(Target(slot, inCall)) == slot.maxGw
  {
    CeilIs(Target(slot, inCall));
  }

  // A capacity that grants the floor, the buffer and the load asked for.
  predicate Suffices(slot: Slot, inCall: nat, n: int) {
    n >= slot.minGw && n >= slot.unlockedMin + inCall && n as real * slot.loadMax >= inCall as real
  }

  // The target is the least capacity that grants all three, or the ceiling
  // when none under it does.
  lemma TargetIsLeast(slot: Slot, inCall: nat)
    requires slot.loadMax > 0.0
    ensures var n := Ceil(Target(slot, inCall));
            && n <= slot.maxGw && (n == slot.maxGw || Suffices(slot, inCall, n))
            && forall m: int | m < n :: !Suffices(slot, inCall, m)
  {
    var n, load := Ceil(Target(slot, inCall)), inCall as real / slot.loadMax;
    CeilIs(Target(slot, inCall));
    LoadGranted(n, inCall as real, slot.loadMax, load);
    forall m: int | m < n
      ensures !Suffices(slot, inCall, m)
    {
      LoadGranted(m, inCall as real, slot.loadMax, load);
    }
  }

  lemma LoadGranted(n: int, calls: real, loadMax: real, load: real)
    requires loadMax > 0.0 && load == calls / loadMax
    ensures n as real * loadMax >= calls <==> n as real >= load
  {
    var gap := n as real - load;
    assert load * loadMax == calls;
    assert gap * loadMax == n as real * loadMax - calls;
    assert gap >= 0.0 ==> gap * loadMax >= 0.0;
    assert gap < 0.0 ==> gap * loadMax < 0.0;
  }

  // scale(), for the media pool: the capacities are read, then at most one of
  // upScale and downScale is called.
  method Scale(redis: Redis, slot: Slot, order: seq<string>, sizes: seq<nat>, cpuPerGw: nat,
               now: string, incallsNum: Option<int>)
      returns (created: Option<seq<nat>>, gone: seq<string>)
    requires slot.loadMax > 0.0 && ScanOf(order, redis.entries) && Positive(sizes)
    modifies redis
    ensures var t := old(redis.entries);
            var d := Increase(slot, |t|, InCallNum(incallsNum, |t|, |IdleIn(t)|));
            if d > 0 then
              && redis.entries == t && gone == []
              && (created == None <==> sizes == [] && cpuPerGw > 0)
              && (created.Some? ==> forall c | c in created.value :: c in sizes)
              && (created.Some? && sizes != [] ==> Total(created.value) == Provisioned(Times(cpuPerGw, d), sizes))
            else
              && created == Some([]) && gone == Reclaimable(t, order, -d)
              && redis.entries == Next(t, DownScale(order, -d, now))
  {
    var current := redis.CurrentCapacity(order);
    var ready := redis.ReadyCapacity(order);
    var increase := Increase(slot, current, InCallNum(incallsNum, current, ready));
    created, gone := Some([]), [];
    if increase > 0 {
      var cpus := Times(cpuPerGw, increase);
      assert cpus > 0 <==> cpuPerGw > 0;
      created := UpScale(cpus, sizes);
    }
    if increase < 0 {
      gone := redis.ReclaimGateways(order, -increase, now);
    }
    if increase == 0 {
      NothingReclaimed(redis.entries, order, now);
    }
  }

  lemma NothingReclaimed(t: Table, order: seq<string>, now: string)
    ensures Reclaimable(t, order, 0) == [] && Next(t, DownScale(order, 0, now)) == t
  {
  }

  // ------------------------------------------------------- one iteration

  // gw_ip.split(":", 1)[0]: what the provider is asked to destroy.
  function Host(e: Entry): string {
    match Position(e.ip, ':') case Some(i) => e.ip[..i] case None => e.ip
  }

  // The host is the address up to its first colon.
  lemma HostIs(e: Entry, host: string, port: string)
    requires ':' !in host
    ensures e.ip == host || e.ip == host + ":" + port ==> Host(e) == host
  {
    if e.ip == host + ":" + port {
      assert e.ip[|host|] == ':' && forall j :: 0 <= j < |host| ==> e.ip[j] == host[j];
      PositionIs(e.ip, ':', |host|);
      assert e.ip[..|host|] == host;
    }
  }

  // Destroying the addresses of some gateways takes every gateway there.
  function Lost(t: Table, ids: set<string>): set<string> {
    set id | id in t && Host(t[id]) in HostsOf(t, ids)
  }

  function HostsOf(t: Table, ids: set<string>): set<string> { set r | r in ids && r in t :: Host(t[r]) }

  // A decision fully applied: the gateways the created CPUs hold have
  // registered, or those at the destroyed addresses have left the table.
  ghost predicate Settled(d: int, cpuPerGw: nat, sizes: seq<nat>,
                          t: Table, t': Table, order: seq<string>, added: set<string>)
    requires Positive(sizes) && sizes != []
  {
    if d > 0 then
      && Times(cpuPerGw, |added|) == Provisioned(Times(cpuPerGw, d), sizes)
      && added !! t.Keys && t'.Keys == t.Keys + added
      && (forall id | id in t :: t'[id] == t[id]) && (forall id | id in added :: Idle(t'[id]))
    else
      t' == t - Lost(t, IdsOf(Reclaimable(t, order, -d)))
  }

  lemma CountOfDistinct(order: seq<string>)
    requires forall i, j :: 0 <= i < j < |order| ==> order[i] != order[j]
    ensures |IdsOf(order)| == |order|
    decreases |order|
  {
    if order != [] {
      var init, last := order[..|order| - 1], order[|order| - 1];
      CountOfDistinct(init);
      assert IdsOf(order) == IdsOf(init) + {last} && last !in IdsOf(init);
    }
  }

  // What remains is as many gateways fewer as were reclaimed, exactly when they
  // had their addresses to themselves.
  lemma AfterReclaim(t: Table, t': Table, order: seq<string>, n: nat, gone: set<string>)
    requires ScanOf(order, t) && gone == IdsOf(Reclaimable(t, order, n))
    requires t' == t - Lost(t, gone)
    ensures |gone| == (if n <= |IdleIn(t)| then n else |IdleIn(t)|)
    ensures |t'| == |t| - |gone| <==> Lost(t, gone) == gone
    ensures Lost(t, gone) == gone ==> |t'| - |IdleIn(t')| == |t| - |IdleIn(t)|
  {
    ReclaimedIds(t, order, n);
    LostHolds(t, gone);
    Without(t, t', Lost(t, gone));
    SameSize(gone, Lost(t, gone));
    if Lost(t, gone) == gone {
      RemoveIdle(t, t', gone);
    }
  }

  lemma LostHolds(t: Table, ids: set<string>)
    requires ids <= t.Keys
    ensures ids <= Lost(t, ids) <= t.Keys
  {
  }

  lemma Without(t: Table, t': Table, lost: set<string>)
    requires t' == t - lost && lost <= t.Keys
    ensures |t'| == |t| - |lost|
  {
    assert t'.Keys == t.Keys - lost;
  }

  lemma SameSize(a: set<string>, b: set<string>)
    requires a <= b
    ensures |a| == |b| <==> a == b
  {
    assert b == a + (b - a);
    assert b - a == {} ==> a == b;
  }

  ghost predicate CallsKept(t: Table, t': Table) {
    forall id | id in t && !Idle(t[id]) :: id in t' && t'[id] == t[id]
  }

  lemma ReclaimedIds(t: Table, order: seq<string>, n: nat)
    requires ScanOf(order, t)
    ensures var gone := IdsOf(Reclaimable(t, order, n));
            gone <= IdleIn(t) && |gone| == if n <= |IdleIn(t)| then n else |IdleIn(t)|
  {
    ReclaimableIdle(t, order, n);
    ReclaimableCount(t, order, n);
    CountOfDistinct(Reclaimable(t, order, n));
    assert IdleAmong(t, order) == IdleIn(t);
  }

  lemma {:induction false} RemoveIdle(t: Table, t': Table, gone: set<string>)
    requires gone <= IdleIn(t) && t' == t - gone
    ensures |t'| == |t| - |gone| && |IdleIn(t')| == |IdleIn(t)| - |gone|
    ensures forall id | id in t && !Idle(t[id]) :: id in t' && t'[id] == t[id]
  {
    assert t'.Keys == t.Keys - gone && gone <= t.Keys;
    assert IdleIn(t') == IdleIn(t) - gone;
  }

  lemma {:induction false} AfterCreation(t: Table, t': Table, added: set<string>)
    requires added !! t.Keys && t'.Keys == t.Keys + added
    requires (forall id | id in t :: t'[id] == t[id]) && (forall id | id in added :: Idle(t'[id]))
    ensures |t'| == |t| + |added| && |t'| - |IdleIn(t')| == |t| - |IdleIn(t)|
  {
    assert IdleIn(t') == IdleIn(t) + added;
  }

  // Where an iteration leaves the pool.
  predicate Landed(slot: Slot, target: int, inCall: int, capacity: nat, idle: nat) {
    && capacity - idle == inCall
    && capacity == (if inCall <= slot.maxGw then target else inCall)
    && (capacity <= slot.maxGw || capacity == inCall)
    && (slot.maxGw <= slot.unlockedMin + inCall ==> capacity >= slot.maxGw)
    && (slot.maxGw > slot.unlockedMin + inCall ==> idle >= slot.unlockedMin)
  }

  // An increase reaches the target and exceeds it by less than one last-size
  // instance, and by nothing when some size holds a single gateway.
  ghost predicate RoseTo(slot: Slot, target: int, cpuPerGw: nat, sizes: seq<nat>, t: Table, t': Table)
    requires sizes != []
  {
    && target <= |t'| && Times(cpuPerGw, |t'| - target) < sizes[|sizes| - 1]
    && |t'| - |IdleIn(t')| == |t| - |IdleIn(t)| && CallsKept(t, t')
    && (cpuPerGw in sizes && MultiplesOf(cpuPerGw, sizes) ==>
          Landed(slot, target, |t| - |IdleIn(t)|, |t'|, |IdleIn(t')|))
  }

  // A decrease lands on the target, or on what the calls themselves take when
  // they alone exceed the ceiling, exactly when no other gateway shares an
  // address with a reclaimed one; it leaves every call alone exactly when no
  // gateway in a call, or otherwise not idle, does.
  ghost predicate FellTo(slot: Slot, target: int, t: Table, t': Table, order: seq<string>) {
    var gone := IdsOf(Reclaimable(t, order, |t| - target));
    && (Landed(slot, target, |t| - |IdleIn(t)|, |t'|, |IdleIn(t')|) <==> Lost(t, gone) == gone)
    && (CallsKept(t, t') <==> NoCallAt(t, HostsOf(t, gone)))
  }

  ghost predicate NoCallAt(t: Table, hosts: set<string>) {
    forall id | id in t && !Idle(t[id]) :: Host(t[id]) !in hosts
  }

  lemma CallsKeptIs(t: Table, ids: set<string>)
    ensures CallsKept(t, t - Lost(t, ids)) <==> NoCallAt(t, HostsOf(t, ids))
  {
    if CallsKept(t, t - Lost(t, ids)) {
      forall id | id in t && !Idle(t[id])
        ensures Host(t[id]) !in HostsOf(t, ids)
      {
        assert id in t - Lost(t, ids);
      }
    }
  }

  // Where one decision, fully applied, leaves the pool.
  lemma {:induction false} LandsOnTarget(slot: Slot, target: int, cpuPerGw: nat, sizes: seq<nat>,
                      t: Table, t': Table, order: seq<string>, added: set<string>)
    requires slot.loadMax > 0.0 && ScanOf(order, t) && cpuPerGw > 0 && Positive(sizes) && sizes != []
    requires target == Ceil(Target(slot, |t| - |IdleIn(t)|))
    requires Settled(Increase(slot, |t|, InCallNum(None, |t|, |IdleIn(t)|)), cpuPerGw, sizes, t, t', order, added)
    ensures target > |t| ==> RoseTo(slot, target, cpuPerGw, sizes, t, t')
    ensures target <= |t| ==> FellTo(slot, target, t, t', order)
  {
    DecidesTarget(slot, target, t);
    if target > |t| {
      LandsAfterIncrease(slot, target, cpuPerGw, sizes, t, t', order, added);
    } else {
      LandsAfterDecrease(slot, target, cpuPerGw, sizes, t, t', order, added);
    }
  }

  predicate Bounded(slot: Slot, inCall: int, target: int) {
    && target <= slot.maxGw
    && (slot.unlockedMin + inCall <= slot.maxGw ==> target >= slot.unlockedMin + inCall)
    && (slot.unlockedMin + inCall >= slot.maxGw ==> target == slot.maxGw)
  }

  lemma DecidesTarget(slot: Slot, target: int, t: Table)
    requires slot.loadMax > 0.0 && target == Ceil(Target(slot, |t| - |IdleIn(t)|))
    ensures |IdleIn(t)| <= |t| && Bounded(slot, |t| - |IdleIn(t)|, target)
    ensures Increase(slot, |t|, InCallNum(None, |t|, |IdleIn(t)|)) == target - |t|
  {
    IdleWithin(t);
    IncreaseIs(slot, |t|, |t| - |IdleIn(t)|);
    TargetBounds(slot, |t| - |IdleIn(t)|);
  }

  lemma LandsAfterIncrease(slot: Slot, target: int, cpuPerGw: nat, sizes: seq<nat>,
                           t: Table, t': Table, order: seq<string>, added: set<string>)
    requires cpuPerGw > 0 && Positive(sizes) && sizes != [] && target > |t|
    requires Bounded(slot, |t| - |IdleIn(t)|, target)
    requires Settled(target - |t|, cpuPerGw, sizes, t, t', order, added)
    ensures RoseTo(slot, target, cpuPerGw, sizes, t, t')
  {
    AfterCreation(t, t', added);
    CreatedEnough(cpuPerGw, sizes, target - |t|, |added|);
  }

  lemma LandsAfterDecrease(slot: Slot, target: int, cpuPerGw: nat, sizes: seq<nat>,
                           t: Table, t': Table, order: seq<string>, added: set<string>)
    requires ScanOf(order, t) && Positive(sizes) && sizes != [] && target <= |t|
    requires |IdleIn(t)| <= |t| && Bounded(slot, |t| - |IdleIn(t)|, target)
    requires Settled(target - |t|, cpuPerGw, sizes, t, t', order, added)
    ensures FellTo(slot, target, t, t', order)
  {
    var gone := IdsOf(Reclaimable(t, order, |t| - target));
    AfterReclaim(t, t', order, |t| - target, gone);
    LandsBelow(slot, target, |t|, |IdleIn(t)|, |gone|, |t'|, |IdleIn(t')|, Lost(t, gone) == gone);
    CallsKeptIs(t, gone);
  }

  lemma LandsBelow(slot: Slot, target: int, capacity: nat, idle: nat, gone: nat, left: nat, leftIdle: nat, alone: bool)
    requires idle <= capacity && target <= capacity && Bounded(slot, capacity - idle, target)
    requires gone == if capacity - target <= idle then capacity - target else idle
    requires left == capacity - gone <==> alone
    requires alone ==> left - leftIdle == capacity - idle
    ensures Landed(slot, target, capacity - idle, left, leftIdle) <==> alone
  {
  }

  // No downscale the scaler can decide takes a call, whatever the order of the
  // scan, if and only if no idle gateway shares its address with another that
  // is not.
  lemma NoDecisionTakesACall(t: Table)
    ensures (forall slot, order :: KeepsCalls(slot, t, order)) <==> Apart(t)
  {
    if Apart(t) {
      forall slot, order
        ensures KeepsCalls(slot, t, order)
      {
        if slot.loadMax > 0.0 && ScanOf(order, t) && Decrease(slot, t) >= 0 {
          ApartKeepsCalls(t, order, Decrease(slot, t));
        }
      }
    } else {
      var slot, order := TakesEveryIdle(t);
      assert !KeepsCalls(slot, t, order);
    }
  }

  // No idle gateway is at the address of one that is not.
  ghost predicate Apart(t: Table) {
    forall a, b | a in t && b in t && Idle(t[a]) && !Idle(t[b]) :: Host(t[a]) != Host(t[b])
  }

  function Decrease(slot: Slot, t: Table): int
    requires slot.loadMax > 0.0
  {
    -Increase(slot, |t|, InCallNum(None, |t|, |IdleIn(t)|))
  }

  ghost predicate KeepsCalls(slot: Slot, t: Table, order: seq<string>) {
    slot.loadMax > 0.0 && ScanOf(order, t) && Decrease(slot, t) >= 0 ==>
      CallsKept(t, t - Lost(t, IdsOf(Reclaimable(t, order, Decrease(slot, t)))))
  }

  lemma ApartKeepsCalls(t: Table, order: seq<string>, n: nat)
    requires ScanOf(order, t) && Apart(t)
    ensures CallsKept(t, t - Lost(t, IdsOf(Reclaimable(t, order, n))))
  {
    var gone := IdsOf(Reclaimable(t, order, n));
    ReclaimedIds(t, order, n);
    CallsKeptIs(t, gone);
    forall id | id in t && !Idle(t[id])
      ensures Host(t[id]) !in HostsOf(t, gone)
    {
      assert forall r | r in gone :: r in IdleIn(t);
    }
  }

  // With room for the calls alone, every idle gateway is reclaimed.
  lemma TakesEveryIdle(t: Table) returns (slot: Slot, order: seq<string>)
    requires !Apart(t)
    ensures !KeepsCalls(slot, t, order)
  {
    IdleWithin(t);
    var calls: nat := |t| - |IdleIn(t)|;
    slot := Slot(calls, calls, 0, 1.0);
    order := SomeScan(t.Keys);
    assert Target(slot, calls) == calls as real;
    assert Decrease(slot, t) == |IdleIn(t)|;
    ReclaimedIds(t, order, |IdleIn(t)|);
    var gone := IdsOf(Reclaimable(t, order, |IdleIn(t)|));
    SameSize(gone, IdleIn(t));
    var a, b :| a in t && b in t && Idle(t[a]) && !Idle(t[b]) && Host(t[a]) == Host(t[b]);
    assert a in gone;
    CallsKeptIs(t, gone);
  }

  lemma {:induction false} SomeScan(ids: set<string>) returns (order: seq<string>)
    ensures forall i, j :: 0 <= i < j < |order| ==> order[i] != order[j]
    ensures forall id :: id in order <==> id in ids
  {
    order := [];
    if ids != {} {
      var id :| id in ids;
      var rest := SomeScan(ids - {id});
      order := [id] + rest;
    }
  }

  // Room for the one call and an idle gateway beside it: the idle one is
  // reclaimed, and the call goes with it.
  lemma DownscaleTakesACall(slot: Slot, a: string, b: string, idle: Entry, inCall: Entry)
    requires slot == Slot(10, 0, 0, 1.0) && a != b
    requires Idle(idle) && inCall.state == Started && Host(idle) == Host(inCall)
    ensures var t := map[a := idle, b := inCall];
            && Increase(slot, |t|, InCallNum(None, |t|, |IdleIn(t)|)) == -1
            && b !in t - Lost(t, IdsOf(Reclaimable(t, [a, b], 1)))
  {
    var t: Table := map[a := idle, b := inCall];
    assert IdleIn(t) == {a} && t.Keys == {a, b};
    assert |t| == |t.Keys| == 2;
    assert Target(slot, 1) == 1.0;
    ReclaimedIds(t, [a, b], 1);
    SameSize(IdsOf(Reclaimable(t, [a, b], 1)), {a});
  }

  lemma CreatedEnough(cpuPerGw: nat, sizes: seq<nat>, d: nat, added: nat)
    requires cpuPerGw > 0 && Positive(sizes) && sizes != []
    requires Times(cpuPerGw, added) == Provisioned(Times(cpuPerGw, d), sizes)
    ensures d <= added && Times(cpuPerGw, added - d) < sizes[|sizes| - 1]
    ensures cpuPerGw in sizes && MultiplesOf(cpuPerGw, sizes) ==> added == d
  {
    ProvisionedBounds(Times(cpuPerGw, d), sizes);
    assert Times(cpuPerGw, added - d) == Times(cpuPerGw, added) - Times(cpuPerGw, d);
    MultipleIsFar(cpuPerGw, added - d);
    if cpuPerGw in sizes && MultiplesOf(cpuPerGw, sizes) {
      NothingLeft(cpuPerGw, Times(cpuPerGw, d), sizes);
    }
  }

  // Every increase the scaler can decide gives exactly the gateways asked, if
  // and only if some size holds a single one.
  lemma ExactForEveryDecision(cpuPerGw: nat, sizes: seq<nat>)
    requires cpuPerGw > 0 && Positive(sizes) && sizes != [] && MultiplesOf(cpuPerGw, sizes)
    ensures (forall slot, current, inCall :: Exact(slot, current, inCall, cpuPerGw, sizes)) <==> cpuPerGw in sizes
  {
    ExactForEveryRequest(cpuPerGw, sizes);
    if forall slot, current, inCall :: Exact(slot, current, inCall, cpuPerGw, sizes) {
      forall d: nat
        ensures Provisioned(Times(cpuPerGw, d), sizes) == Times(cpuPerGw, d)
      {
        var slot := Slot(d, d, 0, 1.0);
        assert Exact(slot, 0, 0, cpuPerGw, sizes);
        assert Target(slot, 0) == d as real;
        LeftoverAtMost(0, sizes);
        assert Times(cpuPerGw, 0) == 0;
      }
    }
  }

  ghost predicate Exact(slot: Slot, current: nat, inCall: nat, cpuPerGw: nat, sizes: seq<nat>)
    requires Positive(sizes) && sizes != []
  {
    slot.loadMax > 0.0 && Increase(slot, current, inCall) > 0 ==>
      var cpus := Times(cpuPerGw, Increase(slot, current, inCall));
      cpus >= 0 && Provisioned(cpus, sizes) == cpus
  }

  // What an increase created in excess, the next iteration at the same load
  // asks back, and finds free.
  lemma NextTakesTheExcess(slot: Slot, inCall: nat, capacity: nat)
    requires slot.loadMax > 0.0 && inCall <= slot.maxGw && capacity >= Ceil(Target(slot, inCall))
    ensures var target := Ceil(Target(slot, inCall));
            && inCall <= target <= slot.maxGw
            && Increase(slot, capacity, InCallNum(None, capacity, capacity - inCall)) == target - capacity
  {
    TargetBounds(slot, inCall);
    IncreaseIs(slot, capacity, inCall);
  }

  // Nine calls of ten allowed, sizes of two gateways: one is asked for, two
  // come, and the pool is above its ceiling.
  lemma OvershootsTheCeiling(slot: Slot)
    requires slot == Slot(10, 0, 1, 1.0)
    ensures Increase(slot, 9, InCallNum(None, 9, 0)) == 1
    ensures Provisioned(Times(4, 1), [8]) == Times(4, 2) && 9 + 2 > slot.maxGw
  {
    assert 9 as real / 1.0 == 9.0;
    assert [8][..0] == [];
    assert Times(4, 1) == 4 && Times(4, 2) == 8;
    assert Leftover(4, [8][..0]) == 4;
    assert Leftover(4, [8]) == 4;
  }

  // Two gateways created on one machine where one was wanted: the next
  // iteration takes one back, which takes both, and the pool is as before.
  lemma GoesRoundInCircles(slot: Slot, t: Table, t': Table, order: seq<string>, a: string, b: string)
    requires slot.loadMax > 0.0 && |t| <= slot.maxGw && IdleIn(t) == {} && ScanOf(order, t') && a != b
    requires Increase(slot, |t|, InCallNum(None, |t|, 0)) == 1
    requires a !in t && b !in t && t'.Keys == t.Keys + {a, b} && Idle(t'[a]) && Idle(t'[b])
    requires forall id | id in t :: t'[id] == t[id] && Host(t[id]) != Host(t'[a])
    requires Host(t'[a]) == Host(t'[b])
    ensures Increase(slot, |t'|, InCallNum(None, |t'|, |IdleIn(t')|)) == -1
    ensures t' - Lost(t', IdsOf(Reclaimable(t', order, 1))) == t
  {
    TwoIdle(t, t', a, b);
    IncreaseIs(slot, |t|, |t|);
    IncreaseIs(slot, |t'|, |t|);
    ReclaimedIds(t', order, 1);
    var gone := IdsOf(Reclaimable(t', order, 1));
    OneOfTwo(gone, a, b);
    TakesBoth(t, t', gone, a, b);
  }

  // So a pool of which one free gateway is wanted, with sizes of two, is
  // created and destroyed over and over.
  lemma NeverSettles(slot: Slot, e: Entry, a: string, b: string)
    requires slot == Slot(10, 0, 1, 1.0) && Idle(e) && a != b
    ensures var t := map[a := e, b := e];
            && Increase(slot, 0, InCallNum(None, 0, 0)) == 1 && Provisioned(Times(4, 1), [8]) == Times(4, |t|)
            && Increase(slot, |t|, InCallNum(None, |t|, |IdleIn(t)|)) == -1
            && t - Lost(t, IdsOf(Reclaimable(t, [a, b], 1))) == map[]
  {
    var t: Table := map[a := e, b := e];
    OvershootsTheCeiling(slot);
    GoesRoundInCircles(slot, map[], t, [a, b], a, b);
    TwoIdle(map[], t, a, b);
  }

  lemma TwoIdle(t: Table, t': Table, a: string, b: string)
    requires IdleIn(t) == {} && a != b && a !in t && b !in t && t'.Keys == t.Keys + {a, b}
    requires Idle(t'[a]) && Idle(t'[b]) && forall id | id in t :: t'[id] == t[id]
    ensures IdleIn(t') == {a, b} && |IdleIn(t')| == 2 && |t'| == |t| + 2
  {
    forall id | id in t
      ensures !Idle(t[id])
    {
      assert id !in IdleIn(t);
    }
    assert |t'.Keys| == |t.Keys| + |{a, b}|;
  }

  lemma TakesBoth(t: Table, t': Table, gone: set<string>, a: string, b: string)
    requires t'.Keys == t.Keys + {a, b} && a !in t && b !in t && (gone == {a} || gone == {b})
    requires forall id | id in t :: t'[id] == t[id] && Host(t[id]) != Host(t'[a])
    requires Host(t'[a]) == Host(t'[b])
    ensures t' - Lost(t', gone) == t
  {
    LostThere(t, t', gone, a, b);
    assert (t' - Lost(t', gone)).Keys == t.Keys;
  }

  lemma LostThere(t: Table, t': Table, gone: set<string>, a: string, b: string)
    requires t'.Keys == t.Keys + {a, b} && (gone == {a} || gone == {b})
    requires forall id | id in t :: t'[id] == t[id] && Host(t[id]) != Host(t'[a])
    requires Host(t'[a]) == Host(t'[b])
    ensures Lost(t', gone) == {a, b}
  {
    assert HostsOf(t', gone) == {Host(t'[a])};
  }

  lemma OneOfTwo(s: set<string>, a: string, b: string)
    requires s <= {a, b} && |s| == 1
    ensures s == {a} || s == {b}
  {
    if a in s {
      SameSize({a}, s);
    } else {
      SameSize(s, {b});
    }
  }

  // From where a decision lands, the next iteration at the same load decides
  // nothing, exactly when the calls fit under the ceiling; beyond it, every
  // iteration asks again to take gateways away and finds none free.
  lemma NextDecidesNothing(slot: Slot, inCall: nat, capacity: nat, idle: nat)
    requires slot.loadMax > 0.0 && Landed(slot, Ceil(Target(slot, inCall)), inCall, capacity, idle)
    ensures Increase(slot, capacity, InCallNum(None, capacity, idle)) == 0 <==> inCall <= slot.maxGw
    ensures inCall > slot.maxGw ==> idle == 0 && Increase(slot, capacity, InCallNum(None, capacity, idle)) < 0
  {
    IncreaseIs(slot, capacity, inCall);
    TargetBounds(slot, inCall);
  }

  lemma IncreaseIs(slot: Slot, current: nat, inCall: int)
    requires slot.loadMax > 0.0
    ensures Increase(slot, current, inCall) == Ceil(Target(slot, inCall)) - current
  {
    CeilShifts(Target(slot, inCall), current);
  }

  lemma IdleWithin(t: Table)
    ensures |IdleIn(t)| <= |t|
  {
    Subset(IdleIn(t), t.Keys);
  }

  lemma Subset(a: set<string>, b: set<string>)
    requires a <= b
    ensures |a| <= |b|
  {
    assert b == a + (b - a);
  }

  // While the reclaimed entries are still in the table they count as calls.
  lemma ReclaimedCountAsCalls(t: Table, order: seq<string>, n: nat, now: string)
    requires ScanOf(order, t) && n <= |IdleIn(t)|
    ensures var u := Reclaimed(t, Reclaimable(t, order, n), now);
            |u| == |t| && InCallNum(None, |u|, |IdleIn(u)|) == InCallNum(None, |t|, |IdleIn(t)|) + n
  {
    var ids := Reclaimable(t, order, n);
    ReclaimedIds(t, order, n);
    MarkedStopping(t, ids, now);
  }

  lemma MarkedStopping(t: Table, ids: seq<string>, now: string)
    requires IdsOf(ids) <= IdleIn(t)
    ensures var u := Reclaimed(t, ids, now);
            |u| == |t| && |IdleIn(u)| == |IdleIn(t)| - |IdsOf(ids)|
  {
    var u := Reclaimed(t, ids, now);
    assert u.Keys == t.Keys;
    assert IdleIn(u) == IdleIn(t) - IdsOf(ids);
  }

  // So an iteration that runs too early undoes the previous one: five free
  // gateways, one wanted, four reclaimed; seen as four calls, they ask for more.
  lemma TooEarlyIterationAddsBack(slot: Slot)
    requires slot == Slot(10, 0, 1, 0.75)
    ensures Increase(slot, 5, InCallNum(None, 5, 5)) == -4
    ensures Increase(slot, 5, InCallNum(None, 5, 1)) == 1
  {
    assert 4 as real / 0.75 > 5.3 && 4 as real / 0.75 < 5.4;
  }
}
