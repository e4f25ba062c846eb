/**
 * The fiscal lines of one payment: the items as they are when the payment covers exactly their total,
 * otherwise the amount shared among them by largest remainder. Money is in whole kurus.
 */
module PaymentLines {
  import opened Common

  /** One order item of the check, as the payment screen lists it. */
  datatype PayableItem = PayableItem(id: string, productId: string, name: string, quantity: nat, unitPrice: nat)

  datatype PaymentLine = PaymentLine(productId: string, name: string, unitPriceMinor: int, quantityMilli: int)

  function ItemTotal(item: PayableItem): nat {
    item.quantity * item.unitPrice
  }

  /** unit price times thousandths, rounded half up. */
  function LineTotal(line: PaymentLine): int {
    (2 * line.unitPriceMinor * line.quantityMilli + 1000) / 2000
  }

  function Sum(s: seq<int>): int {
    if s == [] then 0 else Sum(s[..|s| - 1]) + s[|s| - 1]
  }

  function ItemTotals(items: seq<PayableItem>): (ts: seq<int>)
    ensures |ts| == |items| && forall i :: 0 <= i < |items| ==> ts[i] == ItemTotal(items[i])
  {
    seq(|items|, i requires 0 <= i < |items| => ItemTotal(items[i]))
  }

  function LineTotals(lines: seq<PaymentLine>): (ts: seq<int>)
    ensures |ts| == |lines| && forall i :: 0 <= i < |lines| ==> ts[i] == LineTotal(lines[i])
  {
    seq(|lines|, i requires 0 <= i < |lines| => LineTotal(lines[i]))
  }

  // ---------------------------------------------------------------- sums

  lemma SumGrows(s: seq<int>, x: int)
    ensures Sum(s + [x]) == Sum(s) + x
  {
    assert (s + [x])[..|s|] == s;
  }

  lemma {:induction false} SumNonNegative(s: seq<int>)
    requires forall i :: 0 <= i < |s| ==> s[i] >= 0
    ensures Sum(s) >= 0
  {
    if s != [] {
      SumNonNegative(s[..|s| - 1]);
    }
  }

  lemma {:induction false} SumUpdate(s: seq<int>, i: nat, x: int)
    requires i < |s|
    ensures Sum(s[i := x]) == Sum(s) - s[i] + x
  {
    var n := |s| - 1;
    if i < n {
      SumUpdate(s[..n], i, x);
      assert s[i := x][..n] == s[..n][i := x];
    } else {
      assert s[i := x][..n] == s[..n];
    }
  }

  /** Pointwise less or equal, and somewhere less. */
  lemma {:induction false} SumCompare(a: seq<int>, b: seq<int>)
    requires |a| == |b| && forall i :: 0 <= i < |a| ==> a[i] <= b[i]
    ensures Sum(a) <= Sum(b)
    ensures (exists i :: 0 <= i < |a| && a[i] < b[i]) ==> Sum(a) < Sum(b)
  {
    if a != [] {
      SumCompare(a[..|a| - 1], b[..|b| - 1]);
      if i :| 0 <= i < |a| && a[i] < b[i] {
        assert i < |a| - 1 ==> a[..|a| - 1][i] < b[..|b| - 1][i];
      }
    }
  }

  /** a == b + k * c pointwise carries over to the sums. */
  lemma {:induction false} SumLinear(a: seq<int>, b: seq<int>, c: seq<int>, j: int, k: int)
    requires |a| == |b| == |c| && forall i :: 0 <= i < |a| ==> j * a[i] == b[i] + k * c[i]
    ensures j * Sum(a) == Sum(b) + k * Sum(c)
  {
    if a != [] {
      var n := |a| - 1;
      SumLinear(a[..n], b[..n], c[..n], j, k);
      assert j * a[n] == b[n] + k * c[n];
      calc {
        j * Sum(a);
        j * (Sum(a[..n]) + a[n]);
        j * Sum(a[..n]) + j * a[n];
        Sum(b[..n]) + k * Sum(c[..n]) + b[n] + k * c[n];
        Sum(b) + (k * Sum(c[..n]) + k * c[n]);
        Sum(b) + k * (Sum(c[..n]) + c[n]);
        Sum(b) + k * Sum(c);
      }
    }
  }

  // ---------------------------------------------------------------- the specification

  function ShareFloor(t: int, amount: int, total: int): int
    requires total > 0
  {
    amount * t / total
  }

  function ShareRest(t: int, amount: int, total: int): (r: int)
    requires total > 0
    ensures 0 <= r < total && amount * t == ShareFloor(t, amount, total) * total + r
  {
    amount * t % total
  }

  function Floors(ts: seq<int>, amount: int, total: int): (s: seq<int>)
    requires total > 0
    ensures |s| == |ts| && forall i :: 0 <= i < |ts| ==> s[i] == ShareFloor(ts[i], amount, total)
  {
    seq(|ts|, i requires 0 <= i < |ts| => ShareFloor(ts[i], amount, total))
  }

  function Rests(ts: seq<int>, amount: int, total: int): (s: seq<int>)
    requires total > 0
    ensures |s| == |ts| && forall i :: 0 <= i < |ts| ==> s[i] == ShareRest(ts[i], amount, total)
  {
    seq(|ts|, i requires 0 <= i < |ts| => ShareRest(ts[i], amount, total))
  }

  /** The order in which leftover kurus are handed out. */
  predicate Ahead(rests: seq<int>, i: nat, j: nat)
    requires i < |rests| && j < |rests|
  {
    rests[i] > rests[j] || (rests[i] == rests[j] && i < j)
  }

  /** Each item gets its share rounded down or one kurus more, and the largest remainders get the extra ones. */
  ghost predicate LargestRemainder(ts: seq<int>, amount: int, total: int, alloc: seq<int>)
    requires total > 0
  {
    && |alloc| == |ts|
    && Sum(alloc) == amount
    && (forall i :: 0 <= i < |ts| ==> alloc[i] - ShareFloor(ts[i], amount, total) in {0, 1})
    && (forall i, j :: (0 <= i < |ts| && 0 <= j < |ts| && Bumped(ts, amount, total, alloc, i)
                        && !Bumped(ts, amount, total, alloc, j)) ==>
          Ahead(Rests(ts, amount, total), i, j))
  }

  predicate Bumped(ts: seq<int>, amount: int, total: int, alloc: seq<int>, i: nat)
    requires total > 0 && i < |ts| && i < |alloc|
  {
    alloc[i] == ShareFloor(ts[i], amount, total) + 1
  }

  /** Totals that a payment screen can produce. */
  ghost predicate Totals(ts: seq<int>, amount: int, total: int) {
    amount > 0 && total > 0 && total == Sum(ts) && forall i :: 0 <= i < |ts| ==> ts[i] >= 0
  }

  lemma Quotient(total: int, left: int, s: int, n: int)
    requires total > 0 && left * total == s && 0 <= s <= n * total
    ensures 0 <= left <= n
  {
    if left < 0 {
      MulMonotone(left, -1, total);
    } else if left > n {
      MulMonotone(n + 1, left, total);
      Distribute(n, 1, total);
    }
  }

  lemma RestsAreLeftover(ts: seq<int>, amount: int, total: int)
    requires Totals(ts, amount, total)
    ensures (amount - Sum(Floors(ts, amount, total))) * total == Sum(Rests(ts, amount, total))
  {
    var floors, rests := Floors(ts, amount, total), Rests(ts, amount, total);
    SumLinear(ts, rests, floors, amount, total);
    assert amount * total == Sum(rests) + total * Sum(floors);
    Distribute(amount, Sum(floors), total);
  }

  /** What is left after rounding down is at most one kurus per item. */
  lemma Leftover(ts: seq<int>, amount: int, total: int)
    requires Totals(ts, amount, total)
    ensures 0 <= amount - Sum(Floors(ts, amount, total)) <= |ts|
  {
    var rests := Rests(ts, amount, total);
    var caps := seq(|ts|, i requires 0 <= i < |ts| => total);
    RestsAreLeftover(ts, amount, total);
    SumNonNegative(rests);
    SumCompare(rests, caps);
    SumConstant(caps, total);
    Quotient(total, amount - Sum(Floors(ts, amount, total)), Sum(rests), |ts|);
  }

  lemma {:induction false} SumConstant(s: seq<int>, x: int)
    requires forall i :: 0 <= i < |s| ==> s[i] == x
    ensures Sum(s) == |s| * x
  {
    if s != [] {
      SumConstant(s[..|s| - 1], x);
      assert (|s| - 1) * x + x == |s| * x;
    }
  }

  /** The extra kurus of an allocation, one per bumped item. */
  function Bumps(ts: seq<int>, amount: int, total: int, alloc: seq<int>): (b: seq<int>)
    requires total > 0 && |alloc| == |ts|
    ensures |b| == |ts| && forall i :: 0 <= i < |ts| ==> b[i] == alloc[i] - ShareFloor(ts[i], amount, total)
  {
    seq(|ts|, i requires 0 <= i < |ts| => alloc[i] - ShareFloor(ts[i], amount, total))
  }

  lemma BumpsAreLeftover(ts: seq<int>, amount: int, total: int, alloc: seq<int>)
    requires total > 0 && LargestRemainder(ts, amount, total, alloc)
    ensures Sum(Bumps(ts, amount, total, alloc)) == amount - Sum(Floors(ts, amount, total))
  {
    SumLinear(alloc, Bumps(ts, amount, total, alloc), Floors(ts, amount, total), 1, 1);
  }

  /** The rule leaves no choice: two allocations that follow it are the same. */
  lemma AllocationUnique(ts: seq<int>, amount: int, total: int, a: seq<int>, b: seq<int>)
    requires total > 0 && LargestRemainder(ts, amount, total, a) && LargestRemainder(ts, amount, total, b)
    ensures a == b
  {
    var x, y := Bumps(ts, amount, total, a), Bumps(ts, amount, total, b);
    BumpsAreLeftover(ts, amount, total, a);
    BumpsAreLeftover(ts, amount, total, b);
    NoStrictGain(ts, amount, total, a, b);
    NoStrictGain(ts, amount, total, b, a);
    forall i | 0 <= i < |ts| ensures a[i] == b[i] {
      assert x[i] == y[i];
    }
  }

  /** If `a` bumps an item that `b` does not, `b` bumps one that `a` does not, and each is ahead of the other. */
  lemma NoStrictGain(ts: seq<int>, amount: int, total: int, a: seq<int>, b: seq<int>)
    requires total > 0 && LargestRemainder(ts, amount, total, a) && LargestRemainder(ts, amount, total, b)
    requires Sum(Bumps(ts, amount, total, a)) == Sum(Bumps(ts, amount, total, b))
    ensures forall i :: 0 <= i < |ts| ==> Bumps(ts, amount, total, a)[i] <= Bumps(ts, amount, total, b)[i]
  {
    var x, y := Bumps(ts, amount, total, a), Bumps(ts, amount, total, b);
    forall i | 0 <= i < |ts| ensures x[i] <= y[i] {
      if x[i] > y[i] {
        forall j | 0 <= j < |ts| ensures y[j] <= x[j] {
          assert Bumped(ts, amount, total, a, i) && !Bumped(ts, amount, total, b, i);
          assert Bumped(ts, amount, total, b, j) && !Bumped(ts, amount, total, a, j) ==>
            Ahead(Rests(ts, amount, total), i, j) && Ahead(Rests(ts, amount, total), j, i);
        }
        SumCompare(y, x);
      }
    }
  }

  function Scaled(s: seq<int>, k: int): (r: seq<int>)
    ensures |r| == |s| && forall i :: 0 <= i < |s| ==> r[i] == k * s[i]
  {
    seq(|s|, i requires 0 <= i < |s| => k * s[i])
  }

  lemma {:induction false} SumScaled(s: seq<int>, k: int)
    ensures Sum(Scaled(s, k)) == k * Sum(s)
  {
    if s != [] {
      var n := |s| - 1;
      SumScaled(s[..n], k);
      assert Scaled(s, k)[..n] == Scaled(s[..n], k);
      Distribute(Sum(s[..n]), s[n], k);
    }
  }

  /** If a bumped item has no remainder, unbumped ones have none either. */
  lemma RestsBelowBumps(ts: seq<int>, amount: int, total: int, alloc: seq<int>, k: nat)
    requires total > 0 && LargestRemainder(ts, amount, total, alloc)
    requires k < |ts| && Bumped(ts, amount, total, alloc, k) && ShareRest(ts[k], amount, total) == 0
    ensures Sum(Rests(ts, amount, total)) <= (total - 1) * Sum(Bumps(ts, amount, total, alloc))
  {
    var rests, bumps := Rests(ts, amount, total), Bumps(ts, amount, total, alloc);
    forall i | 0 <= i < |ts| ensures rests[i] <= Scaled(bumps, total - 1)[i] {
      if !Bumped(ts, amount, total, alloc, i) {
        assert Ahead(rests, k, i) && bumps[i] == 0;
      } else {
        assert bumps[i] == 1;
      }
    }
    SumCompare(rests, Scaled(bumps, total - 1));
    SumScaled(bumps, total - 1);
  }

  lemma SomeBump(ts: seq<int>, amount: int, total: int, alloc: seq<int>, k: nat)
    requires total > 0 && LargestRemainder(ts, amount, total, alloc) && k < |ts| && Bumped(ts, amount, total, alloc, k)
    ensures Sum(Bumps(ts, amount, total, alloc)) > 0
  {
    var bumps := Bumps(ts, amount, total, alloc);
    var none := seq(|ts|, i requires 0 <= i < |ts| => 0);
    assert none[k] < bumps[k];
    SumConstant(none, 0);
    SumCompare(none, bumps);
  }

  /** An extra kurus goes only to an item with a remainder. */
  lemma BumpsNeedRemainder(ts: seq<int>, amount: int, total: int, alloc: seq<int>, k: nat)
    requires Totals(ts, amount, total) && LargestRemainder(ts, amount, total, alloc)
    requires k < |ts| && Bumped(ts, amount, total, alloc, k)
    ensures ShareRest(ts[k], amount, total) > 0
  {
    if ShareRest(ts[k], amount, total) == 0 {
      var left := Sum(Bumps(ts, amount, total, alloc));
      RestsBelowBumps(ts, amount, total, alloc, k);
      SomeBump(ts, amount, total, alloc, k);
      BumpsAreLeftover(ts, amount, total, alloc);
      RestsAreLeftover(ts, amount, total);
      Distribute(total, 1, left);
      assert false;
    }
  }

  /** The arithmetic of one share: f rounded down, r its remainder, b the extra kurus. */
  lemma ShareBounds(t: int, amount: int, total: int, f: int, r: int, b: int)
    requires t >= 0 && amount > 0 && 0 <= r < total && amount * t == f * total + r
    requires b == 0 || (b == 1 && r > 0)
    ensures amount * t - total < (f + b) * total < amount * t + total
    ensures f >= 0
    ensures amount <= total ==> f + b <= t
    ensures t == 0 ==> f + b == 0
  {
    Distribute(f, b, total);
    MulMonotone(0, amount, t);
    if f < 0 {
      MulMonotone(f, -1, total);
    }
    if amount <= total && f + b > t {
      MulMonotone(amount, total, t);
      MulMonotone(t + 1, f + b, total);
      Distribute(t, 1, total);
    }
    if t == 0 && f > 0 {
      MulMonotone(1, f, total);
    }
  }

  /**
   * Fairness of the shares: each lies within one kurus of its exact proportion, none is negative, a free
   * item gets nothing, and no share exceeds its item's own total when the amount does not exceed the
   * items' total.
   */
  lemma SharesAreFair(ts: seq<int>, amount: int, total: int, alloc: seq<int>, i: nat)
    requires Totals(ts, amount, total) && LargestRemainder(ts, amount, total, alloc) && i < |ts|
    ensures amount * ts[i] - total < alloc[i] * total < amount * ts[i] + total
    ensures alloc[i] >= 0
    ensures amount <= total ==> alloc[i] <= ts[i]
    ensures ts[i] == 0 ==> alloc[i] == 0
  {
    var f, r := ShareFloor(ts[i], amount, total), ShareRest(ts[i], amount, total);
    if Bumped(ts, amount, total, alloc, i) {
      BumpsNeedRemainder(ts, amount, total, alloc, i);
    }
    ShareBounds(ts[i], amount, total, f, r, alloc[i] - f);
  }

  /** The rule in numbers: whole shares rounded down, and one kurus more for the largest remainders, ties by index. */
  lemma LargestRemainderMeans(ts: seq<int>, amount: int, total: int, alloc: seq<int>)
    requires total > 0 && |alloc| == |ts|
    ensures LargestRemainder(ts, amount, total, alloc) <==>
      && Sum(alloc) == amount
      && (forall i :: 0 <= i < |ts| ==> amount * ts[i] / total <= alloc[i] <= amount * ts[i] / total + 1)
      && forall i, j :: (0 <= i < |ts| && 0 <= j < |ts| && alloc[i] > amount * ts[i] / total
                         && alloc[j] <= amount * ts[j] / total) ==>
           (amount * ts[i] % total > amount * ts[j] % total
            || (amount * ts[i] % total == amount * ts[j] % total && i < j))
  {
    hide Sum;
    hide ShareFloor;
    hide ShareRest;
    forall i | 0 <= i < |ts|
      ensures ShareFloor(ts[i], amount, total) == amount * ts[i] / total
      ensures Rests(ts, amount, total)[i] == amount * ts[i] % total
    {
      QuotientAndRest(ts[i], amount, total);
    }
    if LargestRemainder(ts, amount, total, alloc) {
      forall i, j | 0 <= i < |ts| && 0 <= j < |ts|
        && alloc[i] > ShareFloor(ts[i], amount, total) && alloc[j] <= ShareFloor(ts[j], amount, total)
        ensures Ahead(Rests(ts, amount, total), i, j)
      {
        assert Bumped(ts, amount, total, alloc, i) && !Bumped(ts, amount, total, alloc, j);
      }
    }
  }

  lemma QuotientAndRest(t: int, amount: int, total: int)
    requires total > 0
    ensures ShareFloor(t, amount, total) == amount * t / total && ShareRest(t, amount, total) == amount * t % total
  {
  }

  // ---------------------------------------------------------------- the program

  predicate Before(rests: seq<int>, i: nat, j: nat) {
    i < |rests| && j < |rests| && Ahead(rests, i, j)
  }

  /** The indices 0..n, each once, best remainder first. */
  ghost predicate RankedIndices(rests: seq<int>, order: seq<nat>, n: nat) {
    && |order| == n <= |rests|
    && (forall k :: 0 <= k < n ==> order[k] < n)
    && (forall a, b :: 0 <= a < b < n ==> Before(rests, order[a], order[b]))
    && (forall i :: 0 <= i < n ==> i in order)
  }

  /** Sorting the indices by remainder, largest first, ties by index. */
  method SortByRest(rests: seq<int>) returns (order: seq<nat>)
    ensures RankedIndices(rests, order, |rests|)
  {
    order := [];
    for i := 0 to |rests|
      invariant RankedIndices(rests, order, i)
    {
      var p := 0;
      while p < i && !Ahead(rests, i, order[p])
        invariant 0 <= p <= i
        invariant forall a :: 0 <= a < p ==> Before(rests, order[a], i)
      {
        assert order[p] != i;
        p := p + 1;
      }
      ghost var previous := order;
      order := order[..p] + [i] + order[p..];
      forall x | 0 <= x < i + 1 ensures x in order {
        if x < i {
          assert x in previous;
          var k :| 0 <= k < i && previous[k] == x;
          assert order[if k < p then k else k + 1] == x;
        } else {
          assert order[p] == i;
        }
      }
    }
  }

  /** One bump per index handed out so far. */
  ghost predicate HandedOut(floors: seq<int>, order: seq<nat>, k: nat, alloc: seq<int>) {
    && |alloc| == |floors| && k <= |order|
    && (forall i :: 0 <= i < |floors| ==> alloc[i] == floors[i] + if i in order[..k] then 1 else 0)
  }

  method Allocate(ts: seq<int>, amount: int, total: int) returns (alloc: seq<int>)
    requires Totals(ts, amount, total)
    ensures LargestRemainder(ts, amount, total, alloc)
  {
    var floors, rests := Floors(ts, amount, total), Rests(ts, amount, total);
    var sum := 0;
    for i := 0 to |floors|
      invariant sum == Sum(floors[..i])
    {
      assert floors[..i + 1][..i] == floors[..i];
      sum := sum + floors[i];
    }
    assert floors[..|floors|] == floors;
    var leftover := amount - sum;
    Leftover(ts, amount, total);
    var order := SortByRest(rests);
    alloc := floors;
    var k := 0;
    while k < |order| && leftover > 0
      invariant 0 <= k <= |order|
      invariant leftover == amount - Sum(floors) - k >= 0
      invariant Sum(alloc) == Sum(floors) + k
      invariant HandedOut(floors, order, k, alloc)
    {
      SumUpdate(alloc, order[k], alloc[order[k]] + 1);
      assert order[k] !in order[..k] && order[..k + 1] == order[..k] + [order[k]];
      alloc := alloc[order[k] := alloc[order[k]] + 1];
      leftover := leftover - 1;
      k := k + 1;
    }
    HandedOutIsLargestRemainder(ts, amount, total, alloc, order, k);
  }

  lemma HandedOutIsLargestRemainder(ts: seq<int>, amount: int, total: int, alloc: seq<int>, order: seq<nat>, k: nat)
    requires total > 0 && RankedIndices(Rests(ts, amount, total), order, |ts|)
    requires HandedOut(Floors(ts, amount, total), order, k, alloc) && Sum(alloc) == amount
    ensures LargestRemainder(ts, amount, total, alloc)
  {
    var rests := Rests(ts, amount, total);
    forall i, j | 0 <= i < |ts| && 0 <= j < |ts| && Bumped(ts, amount, total, alloc, i)
      && !Bumped(ts, amount, total, alloc, j)
      ensures Ahead(rests, i, j)
    {
      var a :| 0 <= a < k && order[..k][a] == i;
      assert j in order;
      var b :| 0 <= b < |ts| && order[b] == j;
      assert j !in order[..k];
      forall x | 0 <= x < k ensures order[x] != j {
        assert order[x] in order[..k];
      }
      assert Before(rests, order[a], order[b]);
    }
  }

  /** Each item as one unit at its share; items without a share are dropped. */
  function ShareLines(items: seq<PayableItem>, alloc: seq<int>): seq<PaymentLine>
    requires |alloc| == |items|
  {
    if items == [] then []
    else
      var n := |items| - 1;
      var lines := ShareLines(items[..n], alloc[..n]);
      if alloc[n] > 0 then lines + [PaymentLine(items[n].productId, items[n].name, alloc[n], 1000)] else lines
  }

  function WholeLine(item: PayableItem): PaymentLine {
    PaymentLine(item.productId, item.name, item.unitPrice, item.quantity * 1000)
  }

  /** The lines are the positive shares, each as one unit at its share. */
  lemma {:induction false} ShareLinesAre(items: seq<PayableItem>, alloc: seq<int>, line: PaymentLine)
    requires |alloc| == |items|
    ensures line in ShareLines(items, alloc) <==>
      exists i :: (0 <= i < |items| && alloc[i] > 0
                   && line == PaymentLine(items[i].productId, items[i].name, alloc[i], 1000))
  {
    if items != [] {
      var n := |items| - 1;
      ShareLinesAre(items[..n], alloc[..n], line);
      if i :| (0 <= i < |items| && alloc[i] > 0
               && line == PaymentLine(items[i].productId, items[i].name, alloc[i], 1000))
      {
        assert i < n ==> items[..n][i] == items[i] && alloc[..n][i] == alloc[i];
      }
      if i :| (0 <= i < n && alloc[..n][i] > 0
               && line == PaymentLine(items[..n][i].productId, items[..n][i].name, alloc[..n][i], 1000))
      {
        assert items[..n][i] == items[i] && alloc[..n][i] == alloc[i];
      }
    }
  }

  /** A line total is unit price times thousandths to the nearest kurus, halves up. */
  lemma LineTotalIsNearest(line: PaymentLine)
    ensures -500 <= line.unitPriceMinor * line.quantityMilli - 1000 * LineTotal(line) < 500
  {
  }

  lemma LineTotalsGrow(lines: seq<PaymentLine>, line: PaymentLine)
    ensures Sum(LineTotals(lines + [line])) == Sum(LineTotals(lines)) + LineTotal(line)
  {
    assert LineTotals(lines + [line]) == LineTotals(lines) + [LineTotal(line)];
    SumGrows(LineTotals(lines), LineTotal(line));
  }

  lemma {:induction false} ShareLinesSum(items: seq<PayableItem>, alloc: seq<int>)
    requires |alloc| == |items| && forall i :: 0 <= i < |alloc| ==> alloc[i] >= 0
    ensures Sum(LineTotals(ShareLines(items, alloc))) == Sum(alloc)
  {
    if items != [] {
      var n := |items| - 1;
      ShareLinesSum(items[..n], alloc[..n]);
      if alloc[n] > 0 {
        LineTotalsGrow(ShareLines(items[..n], alloc[..n]),
                       PaymentLine(items[n].productId, items[n].name, alloc[n], 1000));
      }
    }
  }

  lemma WholeLineTotal(item: PayableItem)
    ensures LineTotal(WholeLine(item)) == ItemTotal(item)
  {
    var u, q := item.unitPrice, item.quantity;
    assert 2 * u * (q * 1000) == 2000 * (q * u);
  }

  /**
   * The fiscal lines of a payment: nothing for a non-positive amount or a free check, the items as they
   * are when the amount is their total, otherwise largest-remainder shares. Whenever there are lines they
   * add up to the amount to the kurus.
   */
  method BuildPaymentLines(items: seq<PayableItem>, amount: int) returns (lines: seq<PaymentLine>)
    ensures var total := Sum(ItemTotals(items));
      && (amount <= 0 || total <= 0 ==> lines == [])
      && (amount > 0 && total > 0 && amount == total ==>
            |lines| == |items| && forall i :: 0 <= i < |items| ==>
              lines[i] == PaymentLine(items[i].productId, items[i].name, items[i].unitPrice, items[i].quantity * 1000))
      && (amount > 0 && total > 0 && amount != total ==>
            exists alloc :: LargestRemainder(ItemTotals(items), amount, total, alloc)
              && lines == ShareLines(items, alloc))
      && (amount > 0 && total > 0 ==> Sum(LineTotals(lines)) == amount)
  {
    var ts := ItemTotals(items);
    var total := 0;
    for i := 0 to |items|
      invariant total == Sum(ts[..i])
    {
      assert ts[..i + 1][..i] == ts[..i];
      total := total + ItemTotal(items[i]);
    }
    assert ts[..|ts|] == ts;
    if amount <= 0 || total <= 0 {
      return [];
    }
    if amount == total {
      lines := seq(|items|, i requires 0 <= i < |items| => WholeLine(items[i]));
      forall i | 0 <= i < |items| ensures LineTotals(lines)[i] == ts[i] {
        WholeLineTotal(items[i]);
      }
      assert LineTotals(lines) == ts;
      return;
    }
    var alloc := Allocate(ts, amount, total);
    forall i | 0 <= i < |ts| ensures alloc[i] >= 0 {
      SharesAreFair(ts, amount, total, alloc, i);
    }
    ShareLinesSum(items, alloc);
    lines := ShareLines(items, alloc);
  }
}
