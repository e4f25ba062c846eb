/**
 * How the payments of one check settle it: full, split, per item or custom amounts, cash rounding, and
 * payments that fail or are voided later. Money is in whole kurus.
 */
module PaymentPlan {
  import opened Common
  import opened PaymentLines

  // ---------------------------------------------------------------- amounts

  function Max(a: int, b: int): int {
    if a >= b then a else b
  }

  function Min(a: int, b: int): int {
    if a <= b then a else b
  }

  function RemainingBalance(checkTotal: int, paidSoFar: int): int {
    Max(0, checkTotal - paidSoFar)
  }

  function ClampToRemaining(entered: int, remaining: int): int {
    Max(0, Min(entered, remaining))
  }

  /** One of `parts` equal shares, rounded up. */
  function SplitSuggestion(remaining: int, parts: int): int {
    if parts <= 0 then remaining else (remaining + parts - 1) / parts
  }

  datatype PayMethod = Cash | Card

  datatype RoundingPolicy = RoundingPolicy(cashEnabled: bool, cardEnabled: bool, stepMinor: int, maxPerCheckMinor: int)

  datatype RoundingOffer = RoundingOffer(rounded: int, rounding: int)

  datatype Charge = Charge(amount: int, rounding: int)

  predicate RoundingEnabledFor(policy: RoundingPolicy, m: PayMethod) {
    match m
    case Cash => policy.cashEnabled
    case Card => policy.cardEnabled
  }

  function OfferRounding(due: int, remaining: int, policy: RoundingPolicy, conceded: int): Option<RoundingOffer> {
    if !policy.cashEnabled && !policy.cardEnabled then None
    else if policy.stepMinor <= 0 then None
    else if due <= 0 || due != remaining then None
    else
      var rounded := due / policy.stepMinor * policy.stepMinor;
      var rounding := due - rounded;
      if rounding <= 0 || rounded <= 0 then None
      else if conceded + rounding > policy.maxPerCheckMinor then None
      else Some(RoundingOffer(rounded, rounding))
  }

  function ChargeFor(m: PayMethod, due: int, offer: Option<RoundingOffer>, policy: RoundingPolicy): Charge {
    if offer.Some? && RoundingEnabledFor(policy, m) then Charge(offer.value.rounded, offer.value.rounding)
    else Charge(due, 0)
  }

  // ---------------------------------------------------------------- items and units

  datatype ItemQty = ItemQty(id: string, qty: int)

  /** A payment holds or has settled its money and units until it fails or is voided. */
  datatype Status = Live | Released

  datatype Payment = Payment(charge: Charge, status: Status, items: seq<ItemQty>)

  /** Units of one order item in an allocation list. */
  function UnitsIn(items: seq<ItemQty>, id: string): nat {
    if items == [] then 0
    else
      var last := items[|items| - 1];
      UnitsIn(items[..|items| - 1], id) + if last.id == id && last.qty > 0 then last.qty else 0
  }

  /** Units of one order item covered by live payments. */
  function UnitsPaid(payments: seq<Payment>, id: string): nat {
    if payments == [] then 0
    else
      var last := payments[|payments| - 1];
      UnitsPaid(payments[..|payments| - 1], id) + if last.status.Live? then UnitsIn(last.items, id) else 0
  }

  function Get(m: map<string, int>, id: string): int {
    if id in m then m[id] else 0
  }

  /** The map of covered units, payment by payment and item by item. */
  method PaidQtyBy(tracked: seq<Payment>) returns (paid: map<string, int>)
    ensures forall id :: Get(paid, id) == UnitsPaid(tracked, id)
  {
    paid := map[];
    for i := 0 to |tracked|
      invariant forall id :: Get(paid, id) == UnitsPaid(tracked[..i], id)
    {
      assert tracked[..i + 1][..i] == tracked[..i];
      if tracked[i].status.Released? {
        continue;
      }
      var items := tracked[i].items;
      for j := 0 to |items|
        invariant forall id :: Get(paid, id) == UnitsPaid(tracked[..i], id) + UnitsIn(items[..j], id)
      {
        assert items[..j + 1][..j] == items[..j];
        if items[j].qty > 0 {
          paid := paid[items[j].id := Get(paid, items[j].id) + items[j].qty];
        }
      }
      assert items[..|items|] == items;
    }
    assert tracked[..|tracked|] == tracked;
  }

  function UnpaidUnits(item: PayableItem, paid: map<string, int>): int {
    Max(0, item.quantity - Get(paid, item.id))
  }

  function SelectedUnits(item: PayableItem, paid: map<string, int>, selection: map<string, int>): int {
    Max(0, Min(Get(selection, item.id), UnpaidUnits(item, paid)))
  }

  /** The items reduced to the given units each; items without units are dropped. */
  function WithQuantities(items: seq<PayableItem>, units: seq<int>): seq<PayableItem>
    requires |units| == |items|
  {
    if items == [] then []
    else
      var n := |items| - 1;
      var rest := WithQuantities(items[..n], units[..n]);
      if units[n] > 0 then rest + [items[n].(quantity := units[n])] else rest
  }

  function Unpaid(items: seq<PayableItem>, paid: map<string, int>): (units: seq<int>)
    ensures |units| == |items| && forall i :: 0 <= i < |items| ==> units[i] == UnpaidUnits(items[i], paid)
  {
    seq(|items|, i requires 0 <= i < |items| => UnpaidUnits(items[i], paid))
  }

  function UnpaidItems(items: seq<PayableItem>, paid: map<string, int>): seq<PayableItem> {
    WithQuantities(items, Unpaid(items, paid))
  }

  function Selected(items: seq<PayableItem>, paid: map<string, int>, selection: map<string, int>): (units: seq<int>)
    ensures |units| == |items| && forall i :: 0 <= i < |items| ==> units[i] == SelectedUnits(items[i], paid, selection)
  {
    seq(|items|, i requires 0 <= i < |items| => SelectedUnits(items[i], paid, selection))
  }

  function SelectedItems(items: seq<PayableItem>, paid: map<string, int>,
                         selection: map<string, int>): seq<PayableItem> {
    WithQuantities(items, Selected(items, paid, selection))
  }

  function SelectionTotal(items: seq<PayableItem>, paid: map<string, int>, selection: map<string, int>): int {
    Sum(ItemTotals(SelectedItems(items, paid, selection)))
  }

  function Allocations(chosen: seq<PayableItem>): (a: seq<ItemQty>)
    ensures |a| == |chosen| && forall i :: 0 <= i < |a| ==> a[i] == ItemQty(chosen[i].id, chosen[i].quantity)
  {
    seq(|chosen|, i requires 0 <= i < |chosen| => ItemQty(chosen[i].id, chosen[i].quantity))
  }

  function SelectionAllocations(items: seq<PayableItem>, paid: map<string, int>,
                                selection: map<string, int>): seq<ItemQty> {
    Allocations(SelectedItems(items, paid, selection))
  }

  datatype DueMode = Full | Split(parts: int) | Items(selection: map<string, int>) | Custom(entered: int)

  /** What the next payment settles. */
  function DueFor(mode: DueMode, remaining: int, items: seq<PayableItem>, paid: map<string, int>): int {
    match mode
    case Full => remaining
    case Split(parts) => ClampToRemaining(SplitSuggestion(remaining, parts), remaining)
    case Items(selection) => ClampToRemaining(SelectionTotal(items, paid, selection), remaining)
    case Custom(entered) => ClampToRemaining(entered, remaining)
  }

  /** The items the fiscal lines of the payment are built from. */
  function CoveredItems(mode: DueMode, items: seq<PayableItem>, paid: map<string, int>): seq<PayableItem> {
    match mode
    case Items(selection) => SelectedItems(items, paid, selection)
    case _ =>
      var unpaid := UnpaidItems(items, paid);
      if unpaid != [] then unpaid else items
  }

  // ---------------------------------------------------------------- runs of payments

  datatype Check = Check(items: seq<PayableItem>, policy: RoundingPolicy, payments: seq<Payment>)

  /** The server's sum over every item of every order. */
  function CheckTotal(c: Check): int {
    Sum(ItemTotals(c.items))
  }

  /** Money taken and rounding conceded by live payments. */
  function Settled(payments: seq<Payment>): int {
    if payments == [] then 0
    else
      var last := payments[|payments| - 1];
      Settled(payments[..|payments| - 1]) + if last.status.Live? then last.charge.amount + last.charge.rounding else 0
  }

  function Conceded(payments: seq<Payment>): int {
    if payments == [] then 0
    else
      var last := payments[|payments| - 1];
      Conceded(payments[..|payments| - 1]) + if last.status.Live? then last.charge.rounding else 0
  }

  function Remaining(c: Check): int {
    RemainingBalance(CheckTotal(c), Settled(c.payments))
  }

  /** The covered units as a map over the check's items. */
  function PaidMap(c: Check): (paid: map<string, int>)
    ensures forall i :: 0 <= i < |c.items| ==> Get(paid, c.items[i].id) == UnitsPaid(c.payments, c.items[i].id)
  {
    map id | id in (set i | 0 <= i < |c.items| :: c.items[i].id) :: UnitsPaid(c.payments, id)
  }

  /** The waiter adds items, the cashier takes a payment, a payment fails or is voided. */
  datatype Step =
    | Order(more: seq<PayableItem>)
    | Pay(m: PayMethod, mode: DueMode, applyRounding: bool)
    | Release(k: nat)

  function NextCharge(c: Check, m: PayMethod, mode: DueMode, applyRounding: bool): Charge {
    var remaining := Remaining(c);
    var due := DueFor(mode, remaining, c.items, PaidMap(c));
    var offer := if applyRounding then OfferRounding(due, remaining, c.policy, Conceded(c.payments)) else None;
    ChargeFor(m, due, offer, c.policy)
  }

  predicate Enabled(c: Check, step: Step) {
    match step
    case Order(_) => true
    case Pay(_, mode, _) => DueFor(mode, Remaining(c), c.items, PaidMap(c)) > 0
    case Release(k) => k < |c.payments|
  }

  function Do(c: Check, step: Step): Check
    requires Enabled(c, step)
  {
    match step
    case Order(more) => c.(items := c.items + more)
    case Pay(m, mode, applyRounding) =>
      var units := if mode.Items? then SelectionAllocations(c.items, PaidMap(c), mode.selection) else [];
      c.(payments := c.payments + [Payment(NextCharge(c, m, mode, applyRounding), Live, units)])
    case Release(k) => c.(payments := c.payments[k := c.payments[k].(status := Released)])
  }

  ghost predicate IsRun(states: seq<Check>, steps: seq<Step>) {
    && |states| == |steps| + 1
    && states[0].payments == []
    && forall i :: 0 <= i < |steps| ==> Enabled(states[i], steps[i]) && states[i + 1] == Do(states[i], steps[i])
  }

  lemma ItemTotalsNonNegative(items: seq<PayableItem>)
    ensures Sum(ItemTotals(items)) >= 0
  {
    SumNonNegative(ItemTotals(items));
  }

  /** A charge settles exactly what was due, never more than what remains, and rounding closes the check. */
  lemma ChargeSettlesDue(c: Check, m: PayMethod, mode: DueMode, applyRounding: bool)
    requires Enabled(c, Pay(m, mode, applyRounding))
    ensures var charge := NextCharge(c, m, mode, applyRounding);
      var due := DueFor(mode, Remaining(c), c.items, PaidMap(c));
      && charge.amount + charge.rounding == due <= Remaining(c) == CheckTotal(c) - Settled(c.payments)
      && charge.amount > 0 && charge.rounding >= 0
      && (charge.rounding > 0 ==>
            && due == Remaining(c) && RoundingEnabledFor(c.policy, m)
            && charge.amount % c.policy.stepMinor == 0 && charge.rounding < c.policy.stepMinor
            && Conceded(c.payments) + charge.rounding <= c.policy.maxPerCheckMinor)
  {
    var remaining := Remaining(c);
    SuggestionWithin(remaining, if mode.Split? then mode.parts else 1);
    if c.policy.stepMinor > 0 {
      var due := DueFor(mode, remaining, c.items, PaidMap(c));
      RoundsDown(due, c.policy.stepMinor);
    }
  }

  /**
   * Rounding is granted exactly when it was asked for and every rule allows it, and then it is the rest below
   * one step.
   */
  lemma RoundingExactly(c: Check, m: PayMethod, mode: DueMode, applyRounding: bool)
    requires Enabled(c, Pay(m, mode, applyRounding))
    ensures var due := DueFor(mode, Remaining(c), c.items, PaidMap(c)); var step := c.policy.stepMinor;
      NextCharge(c, m, mode, applyRounding).rounding
      == if applyRounding && (if m.Cash? then c.policy.cashEnabled else c.policy.cardEnabled) && step > 0
           && due == Remaining(c) && due >= step
           && Conceded(c.payments) + due % step <= c.policy.maxPerCheckMinor then due % step else 0
  {
    var due := DueFor(mode, Remaining(c), c.items, PaidMap(c));
    if c.policy.stepMinor > 0 {
      Rest(due, c.policy.stepMinor);
    }
  }

  lemma Rest(due: int, step: int)
    requires step > 0 && due > 0
    ensures due - due / step * step == due % step && (due / step * step > 0 <==> due >= step)
  {
    var q := due / step;
    assert due == step * q + due % step;
    if q >= 1 {
      MulMonotone(1, q, step);
    } else if q < 0 {
      MulMonotone(q, -1, step);
    }
  }

  lemma RoundsDown(due: int, step: int)
    requires step > 0
    ensures (due / step * step) % step == 0 && 0 <= due - due / step * step < step
  {
    assert due - due / step * step == due % step;
    MultipleHasNoRest(due / step, step);
  }

  lemma MultipleHasNoRest(q: int, step: int)
    requires step > 0
    ensures q * step % step == 0
  {
    var m := q * step;
    assert m == step * (m / step) + m % step;
    if m % step != 0 {
      var d := q - m / step;
      assert d * step == m % step;
      if d >= 1 {
        MulMonotone(1, d, step);
      } else {
        MulMonotone(d, 0, step);
      }
      assert false;
    }
  }

  lemma SuggestionWithin(remaining: int, parts: int)
    requires remaining >= 0
    ensures 0 <= SplitSuggestion(remaining, parts)
    ensures parts > 0 ==> SplitSuggestion(remaining, parts) * parts >= remaining
    ensures remaining > 0 ==> SplitSuggestion(remaining, parts) > 0
  {
    if parts > 0 {
      var q := (remaining + parts - 1) / parts;
      assert remaining + parts - 1 == parts * q + (remaining + parts - 1) % parts;
      if q < 0 {
        MulMonotone(q, -1, parts);
      } else if q == 0 {
        assert parts * q == 0;
      }
    }
  }

  // ---------------------------------------------------------------- all runs

  /** Units of one order item on the check. */
  function UnitsOf(items: seq<PayableItem>, id: string): nat {
    if items == [] then 0
    else
      var last := items[|items| - 1];
      UnitsOf(items[..|items| - 1], id) + if last.id == id then last.quantity else 0
  }

  predicate Sound(p: Payment) {
    p.charge.amount >= 0 && p.charge.rounding >= 0
  }

  ghost predicate Invariant(c: Check) {
    && (forall k :: 0 <= k < |c.payments| ==> Sound(c.payments[k]))
    && Settled(c.payments) <= CheckTotal(c)
    && 0 <= Conceded(c.payments) <= Max(0, c.policy.maxPerCheckMinor)
    && (forall id :: UnitsPaid(c.payments, id) <= UnitsOf(c.items, id))
  }

  lemma AddPayment(payments: seq<Payment>, p: Payment, id: string)
    ensures Settled(payments + [p])
         == Settled(payments) + if p.status.Live? then p.charge.amount + p.charge.rounding else 0
    ensures Conceded(payments + [p]) == Conceded(payments) + if p.status.Live? then p.charge.rounding else 0
    ensures UnitsPaid(payments + [p], id)
         == UnitsPaid(payments, id) + if p.status.Live? then UnitsIn(p.items, id) else 0
  {
    assert (payments + [p])[..|payments|] == payments;
  }

  /** Releasing a payment only frees money and units. */
  lemma {:induction false} ReleaseFrees(payments: seq<Payment>, k: nat, id: string)
    requires k < |payments| && forall i :: 0 <= i < |payments| ==> Sound(payments[i])
    ensures var after := payments[k := payments[k].(status := Released)];
      && Settled(after) <= Settled(payments)
      && 0 <= Conceded(after) <= Conceded(payments)
      && UnitsPaid(after, id) <= UnitsPaid(payments, id)
  {
    var n := |payments| - 1;
    var after := payments[k := payments[k].(status := Released)];
    if k < n {
      ReleaseFrees(payments[..n], k, id);
      assert after[..n] == payments[..n][k := payments[k].(status := Released)];
    } else {
      assert after[..n] == payments[..n];
      AmountsNonNegative(payments[..n]);
    }
  }

  lemma {:induction false} AmountsNonNegative(payments: seq<Payment>)
    requires forall i :: 0 <= i < |payments| ==> Sound(payments[i])
    ensures Conceded(payments) >= 0 && Settled(payments) >= 0
  {
    if payments != [] {
      AmountsNonNegative(payments[..|payments| - 1]);
    }
  }

  lemma {:induction false} TotalsAppend(items: seq<PayableItem>, more: seq<PayableItem>, id: string)
    ensures Sum(ItemTotals(items + more)) == Sum(ItemTotals(items)) + Sum(ItemTotals(more))
    ensures UnitsOf(items + more, id) == UnitsOf(items, id) + UnitsOf(more, id)
  {
    if more == [] {
      assert items + more == items;
    } else {
      var n := |more| - 1;
      TotalsAppend(items, more[..n], id);
      assert (items + more)[..|items| + n] == items + more[..n];
      assert ItemTotals(items + more)[..|items| + n] == ItemTotals(items + more[..n]);
      assert ItemTotals(more)[..n] == ItemTotals(more[..n]);
    }
  }

  lemma UnitsGrow(chosen: seq<PayableItem>, item: PayableItem, id: string)
    ensures UnitsIn(Allocations(chosen + [item]), id)
         == UnitsIn(Allocations(chosen), id) + if item.id == id then item.quantity else 0
  {
    assert Allocations(chosen + [item])[..|chosen|] == Allocations(chosen);
  }

  /** A selection never reaches past the units still unpaid, item by item. */
  lemma {:induction false} SelectionWithin(items: seq<PayableItem>, paid: map<string, int>,
                                           selection: map<string, int>, id: string)
    requires Get(paid, id) >= 0
    ensures UnitsIn(Allocations(WithQuantities(items, Selected(items, paid, selection))), id) + Get(paid, id)
         <= Max(Get(paid, id), UnitsOf(items, id))
  {
    if items != [] {
      var n := |items| - 1;
      SelectionWithin(items[..n], paid, selection, id);
      var units := Selected(items, paid, selection);
      assert units[..n] == Selected(items[..n], paid, selection);
      if units[n] > 0 {
        UnitsGrow(WithQuantities(items[..n], units[..n]), items[n].(quantity := units[n]), id);
      }
    }
  }

  lemma {:induction false} NoUnitsOutside(items: seq<PayableItem>, units: seq<int>, id: string)
    requires |units| == |items| && UnitsOf(items, id) == 0 && forall i :: 0 <= i < |items| ==>
      units[i] <= items[i].quantity
    ensures UnitsIn(Allocations(WithQuantities(items, units)), id) == 0
  {
    if items != [] {
      var n := |items| - 1;
      NoUnitsOutside(items[..n], units[..n], id);
      if units[n] > 0 {
        UnitsGrow(WithQuantities(items[..n], units[..n]), items[n].(quantity := units[n]), id);
      }
    }
  }

  lemma {:induction false} UnitsOnCheck(items: seq<PayableItem>, id: string)
    requires UnitsOf(items, id) > 0
    ensures exists i :: 0 <= i < |items| && items[i].id == id
  {
    var n := |items| - 1;
    if items[n].id != id {
      UnitsOnCheck(items[..n], id);
      var i :| 0 <= i < n && items[..n][i].id == id;
      assert items[i].id == id;
    }
  }

  /** A payment's units, added to those already covered, stay within the item's units. */
  lemma PaymentUnitsWithin(c: Check, selection: map<string, int>, id: string)
    requires UnitsPaid(c.payments, id) <= UnitsOf(c.items, id)
    ensures UnitsPaid(c.payments, id)
      + UnitsIn(SelectionAllocations(c.items, PaidMap(c), selection), id) <= UnitsOf(c.items, id)
  {
    var paid := PaidMap(c);
    var units := Selected(c.items, paid, selection);
    if UnitsOf(c.items, id) > 0 {
      UnitsOnCheck(c.items, id);
      SelectionWithin(c.items, paid, selection, id);
    } else {
      UnitsPaidByMap(c);
      NoUnitsOutside(c.items, units, id);
    }
  }

  lemma UnitsPaidByMap(c: Check)
    ensures forall i :: 0 <= i < |c.items| ==> Get(PaidMap(c), c.items[i].id) >= 0
  {
  }

  lemma PaymentKeepsInvariant(c: Check, p: Payment)
    requires Invariant(c) && Sound(p) && p.status.Live?
    requires p.charge.amount + p.charge.rounding <= CheckTotal(c) - Settled(c.payments)
    requires Conceded(c.payments) + p.charge.rounding <= Max(0, c.policy.maxPerCheckMinor)
    requires forall id :: UnitsPaid(c.payments, id) + UnitsIn(p.items, id) <= UnitsOf(c.items, id)
    ensures Invariant(c.(payments := c.payments + [p]))
  {
    AddPayment(c.payments, p, "");
    forall id ensures UnitsPaid(c.payments + [p], id) <= UnitsOf(c.items, id) {
      AddPayment(c.payments, p, id);
    }
  }

  lemma PayKeepsInvariant(c: Check, m: PayMethod, mode: DueMode, applyRounding: bool)
    requires Invariant(c) && Enabled(c, Pay(m, mode, applyRounding))
    ensures Invariant(Do(c, Pay(m, mode, applyRounding)))
  {
    hide Invariant;
    hide NextCharge;
    hide DueFor;
    var units := if mode.Items? then SelectionAllocations(c.items, PaidMap(c), mode.selection) else [];
    ChargeSettlesDue(c, m, mode, applyRounding);
    ConcededWithin(c);
    forall id ensures UnitsPaid(c.payments, id) + UnitsIn(units, id) <= UnitsOf(c.items, id) {
      UnitsWithin(c, id);
      if mode.Items? {
        PaymentUnitsWithin(c, mode.selection, id);
      }
    }
    PaymentKeepsInvariant(c, Payment(NextCharge(c, m, mode, applyRounding), Live, units));
  }

  lemma ConcededWithin(c: Check)
    requires Invariant(c)
    ensures Conceded(c.payments) <= Max(0, c.policy.maxPerCheckMinor)
  {
  }

  lemma UnitsWithin(c: Check, id: string)
    requires Invariant(c)
    ensures UnitsPaid(c.payments, id) <= UnitsOf(c.items, id)
  {
  }

  lemma StepKeepsInvariant(c: Check, step: Step)
    requires Invariant(c) && Enabled(c, step)
    ensures Invariant(Do(c, step))
  {
    match step
    case Order(more) =>
      ItemTotalsNonNegative(more);
      forall id ensures UnitsPaid(c.payments, id) <= UnitsOf(c.items + more, id) {
        TotalsAppend(c.items, more, id);
      }
      TotalsAppend(c.items, more, "");
    case Pay(m, mode, applyRounding) =>
      PayKeepsInvariant(c, m, mode, applyRounding);
    case Release(k) =>
      ReleaseFrees(c.payments, k, "");
      forall id ensures UnitsPaid(Do(c, step).payments, id) <= UnitsOf(c.items, id) {
        ReleaseFrees(c.payments, k, id);
      }
  }

  /**
   * In every run of payments, releases and further orders: the check is never oversettled, what remains is
   * exactly total minus settled, rounding never concedes more than the ceiling, and live item payments
   * never cover more units of an item than were ordered.
   */
  lemma {:induction false} RunNeverOversettles(states: seq<Check>, steps: seq<Step>)
    requires IsRun(states, steps)
    ensures forall i :: 0 <= i < |states| ==>
      && Settled(states[i].payments) + Remaining(states[i]) == CheckTotal(states[i])
      && 0 <= Conceded(states[i].payments) <= Max(0, states[i].policy.maxPerCheckMinor)
      && forall id :: UnitsPaid(states[i].payments, id) <= UnitsOf(states[i].items, id)
  {
    forall i | 0 <= i < |states| ensures Invariant(states[i]) {
      InvariantAt(states, steps, i);
    }
  }

  lemma {:induction false} InvariantAt(states: seq<Check>, steps: seq<Step>, i: nat)
    requires IsRun(states, steps) && i < |states|
    ensures Invariant(states[i])
  {
    if i == 0 {
      ItemTotalsNonNegative(states[0].items);
    } else {
      InvariantAt(states, steps, i - 1);
      StepKeepsInvariant(states[i - 1], steps[i - 1]);
    }
  }

  /** Each payment lowers the remainder by what was due; a full or rounded payment leaves nothing. */
  lemma PaymentLowersRemaining(states: seq<Check>, steps: seq<Step>, i: nat)
    requires IsRun(states, steps) && i < |steps| && steps[i].Pay?
    ensures var c := states[i]; var due := DueFor(steps[i].mode, Remaining(c), c.items, PaidMap(c));
      && Remaining(states[i + 1]) == Remaining(c) - due
      && (steps[i].mode.Full? || Conceded(states[i + 1].payments) > Conceded(c.payments) ==>
        Remaining(states[i + 1]) == 0)
  {
    var c := states[i];
    InvariantAt(states, steps, i);
    InvariantAt(states, steps, i + 1);
    ChargeSettlesDue(c, steps[i].m, steps[i].mode, steps[i].applyRounding);
    AddPayment(c.payments, states[i + 1].payments[|c.payments|], "");
  }

  // ---------------------------------------------------------------- paying by item

  /** What a selection takes of an item: the selected units that are still unpaid, none for a negative selection. */
  ghost function Takes(c: Check, selection: map<string, int>, i: nat): int
    requires i < |c.items|
  {
    var selected := if c.items[i].id in selection then selection[c.items[i].id] else 0;
    var unpaid := c.items[i].quantity - UnitsPaid(c.payments, c.items[i].id);
    var taken := if selected < unpaid then selected else unpaid;
    if taken < 0 then 0 else taken
  }

  ghost function Worths(c: Check, selection: map<string, int>): (s: seq<int>)
    ensures |s| == |c.items|
    ensures forall i :: 0 <= i < |s| ==> s[i] == c.items[i].unitPrice * Takes(c, selection, i)
  {
    seq(|c.items|, i requires 0 <= i < |c.items| => c.items[i].unitPrice * Takes(c, selection, i))
  }

  lemma {:induction false} WorthOfUnits(items: seq<PayableItem>, units: seq<int>, worths: seq<int>)
    requires |units| == |items| == |worths|
    requires forall i :: 0 <= i < |items| ==> worths[i] == items[i].unitPrice * (if units[i] > 0 then units[i] else 0)
    ensures Sum(ItemTotals(WithQuantities(items, units))) == Sum(worths)
  {
    if items != [] {
      var n := |items| - 1;
      WorthOfUnits(items[..n], units[..n], worths[..n]);
      if units[n] > 0 {
        ItemTotalsGrow(WithQuantities(items[..n], units[..n]), items[n].(quantity := units[n]));
      } else {
        assert worths[n] == items[n].unitPrice * 0;
      }
    }
  }

  lemma {:induction false} UnitsOfItem(items: seq<PayableItem>, units: seq<int>, i: nat)
    requires |units| == |items| && i < |items|
    requires forall j, k :: 0 <= j < k < |items| ==> items[j].id != items[k].id
    ensures UnitsIn(Allocations(WithQuantities(items, units)), items[i].id) == if units[i] > 0 then units[i] else 0
  {
    var n := |items| - 1;
    var chosen := WithQuantities(items[..n], units[..n]);
    if units[n] > 0 {
      UnitsGrow(chosen, items[n].(quantity := units[n]), items[i].id);
    }
    if i < n {
      UnitsOfItem(items[..n], units[..n], i);
    } else {
      NoneOfOther(items[..n], units[..n], items[i].id);
    }
  }

  lemma {:induction false} NoneOfOther(items: seq<PayableItem>, units: seq<int>, id: string)
    requires |units| == |items| && forall j :: 0 <= j < |items| ==> items[j].id != id
    ensures UnitsIn(Allocations(WithQuantities(items, units)), id) == 0
  {
    if items != [] {
      var n := |items| - 1;
      NoneOfOther(items[..n], units[..n], id);
      if units[n] > 0 {
        UnitsGrow(WithQuantities(items[..n], units[..n]), items[n].(quantity := units[n]), id);
      }
    }
  }

  /**
   * An item payment is for what was selected: its due is the lesser of what remains and the selected unpaid
   * units at their prices, and it records exactly those units of each item.
   */
  lemma ItemPaymentIsExact(c: Check, m: PayMethod, selection: map<string, int>, applyRounding: bool, i: nat)
    requires forall j, k :: 0 <= j < k < |c.items| ==> c.items[j].id != c.items[k].id
    requires i < |c.items|
    ensures var worth := Sum(Worths(c, selection));
      DueFor(Items(selection), Remaining(c), c.items, PaidMap(c)) == if worth < Remaining(c) then worth
        else Remaining(c)
    ensures UnitsIn(SelectionAllocations(c.items, PaidMap(c), selection), c.items[i].id) == Takes(c, selection, i)
    ensures var step := Pay(m, Items(selection), applyRounding);
      Enabled(c, step) ==>
        UnitsPaid(Do(c, step).payments, c.items[i].id)
        == UnitsPaid(c.payments, c.items[i].id) + Takes(c, selection, i)
  {
    hide Takes;
    hide PaidMap;
    hide UnitsPaid;
    hide NextCharge;
    hide Worths;
    var units := Selected(c.items, PaidMap(c), selection);
    TakenUnits(c, selection, units);
    WorthOfUnits(c.items, units, Worths(c, selection));
    ItemTotalsNonNegative(SelectedItems(c.items, PaidMap(c), selection));
    UnitsOfItem(c.items, units, i);
    AddPayment(c.payments, Payment(NextCharge(c, m, Items(selection), applyRounding), Live,
                                   SelectionAllocations(c.items, PaidMap(c), selection)), c.items[i].id);
  }

  lemma TakenUnits(c: Check, selection: map<string, int>, units: seq<int>)
    requires units == Selected(c.items, PaidMap(c), selection)
    ensures forall j :: 0 <= j < |c.items| ==> (if units[j] > 0 then units[j] else 0) == Takes(c, selection, j)
  {
  }

  /** What a full and a custom payment settle. */
  lemma AmountsDue(c: Check, entered: int)
    ensures DueFor(Full, Remaining(c), c.items, PaidMap(c)) == Remaining(c)
    ensures DueFor(Custom(entered), Remaining(c), c.items, PaidMap(c))
         == if entered < 0 then 0 else if entered < Remaining(c) then entered else Remaining(c)
    ensures Remaining(c) == if Settled(c.payments) < CheckTotal(c) then CheckTotal(c) - Settled(c.payments) else 0
  {
  }

  // ---------------------------------------------------------------- splitting a check

  /** Paying person by person: while two or more are left, a share of the rest, then everything. */
  predicate IsSplit(steps: seq<Step>, start: nat, parts: nat, k: nat)
    requires k <= parts && start + k <= |steps|
  {
    forall i :: start <= i < start + k ==>
      steps[i].Pay? && steps[i].mode == if parts - (i - start) >= 2 then Split(parts - (i - start)) else Full
  }

  /** What person k of a split pays for a quotient q and remainder s, and what the people before k paid. */
  function Share(q: nat, s: nat, k: nat): nat {
    if k < s then q + 1 else q
  }

  function Shared(q: nat, s: nat, k: nat): nat {
    if k == 0 then 0 else Shared(q, s, k - 1) + Share(q, s, k - 1)
  }

  lemma {:induction false} SharedIs(q: nat, s: nat, k: nat)
    ensures Shared(q, s, k) == k * q + Min(k, s)
  {
    if k > 0 {
      SharedIs(q, s, k - 1);
      Distribute(k, 1, q);
    }
  }

  lemma RestIs(owed: nat, parts: nat, k: nat, q: nat, s: nat, left: nat)
    requires owed == parts * q + s && left == parts - k
    ensures owed - Shared(q, s, k) == left * q + (s - Min(k, s))
  {
    SharedIs(q, s, k);
    Distribute(parts, k, q);
  }

  /** Rounding up: `extra` kurus over q each make one more each at most. */
  lemma SuggestionIs(rest: int, left: nat, q: nat, extra: nat)
    requires extra < left && rest == left * q + extra
    ensures rest >= 0 && SplitSuggestion(rest, left) == q + (if extra > 0 then 1 else 0) <= rest
  {
    MulMonotone(1, left, q);
    Distribute(q, 1, left);
    if extra > 0 {
      QuotientIs(rest + left - 1, left, q + 1, extra - 1);
    } else {
      QuotientIs(rest + left - 1, left, q, left - 1);
    }
  }

  lemma QuotientIs(x: int, d: int, q: int, r: int)
    requires d > 0 && x == d * q + r && 0 <= r < d
    ensures x / d == q
  {
    var e := x / d - q;
    assert x == d * (x / d) + x % d;
    Distribute(x / d, q, d);
    assert e * d == r - x % d;
    if e >= 1 {
      MulMonotone(1, e, d);
    } else if e <= -1 {
      MulMonotone(e, -1, d);
    }
  }

  /** With k of the people gone, the next one's due is their share. */
  lemma ShareDue(mode: DueMode, rest: int, items: seq<PayableItem>, paid: map<string, int>, owed: nat, parts: nat,
                 k: nat, q: nat, s: nat)
    requires k < parts && mode == if parts - k >= 2 then Split(parts - k) else Full
    requires owed == parts * q + s && s < parts && rest == owed - Shared(q, s, k)
    ensures DueFor(mode, rest, items, paid) == Share(q, s, k)
  {
    hide Shared;
    hide SplitSuggestion;
    var left := parts - k;
    RestIs(owed, parts, k, q, s, left);
    SuggestionIs(rest, left, q, s - Min(k, s));
    if mode.Full? {
      assert left == 1;
    }
  }

  /** One person of a split pays: a share of the rest while others are left, the rest otherwise. */
  lemma SharePaid(states: seq<Check>, steps: seq<Step>, i: nat, owed: nat, parts: nat, k: nat, q: nat, s: nat)
    requires IsRun(states, steps) && i < |steps| && k < parts && steps[i].Pay?
    requires steps[i].mode == if parts - k >= 2 then Split(parts - k) else Full
    requires owed == parts * q + s && s < parts && Remaining(states[i]) == owed - Shared(q, s, k)
    ensures Remaining(states[i + 1]) == Remaining(states[i]) - Share(q, s, k)
  {
    PaymentLowersRemaining(states, steps, i);
    ShareDue(steps[i].mode, Remaining(states[i]), states[i].items, PaidMap(states[i]), owed, parts, k, q, s);
  }

  /**
   * Splitting what is owed among n people takes from each the n-th part rounded down, from the first
   * `owed % n` of them one kurus more, and after the n-th nothing is owed.
   */
  lemma {:induction false} SplitIsFair(states: seq<Check>, steps: seq<Step>, start: nat, parts: nat, k: nat, q: nat,
                                       s: nat)
    requires IsRun(states, steps) && k <= parts && start + k <= |steps| && IsSplit(steps, start, parts, k)
    requires Remaining(states[start]) == parts * q + s && s < parts
    ensures Remaining(states[start + k]) == Remaining(states[start]) - Shared(q, s, k)
    ensures k > 0 ==> Remaining(states[start + k - 1]) - Remaining(states[start + k]) == Share(q, s, k - 1)
    ensures k == parts ==> Remaining(states[start + k]) == 0
  {
    if k > 0 {
      SplitIsFair(states, steps, start, parts, k - 1, q, s);
      SharePaid(states, steps, start + k - 1, Remaining(states[start]), parts, k - 1, q, s);
    }
    if k == parts {
      SharedIs(q, s, parts);
    }
  }

  lemma ClampedShare(owed: int, share: int, k: nat, rest: int)
    requires share >= 0 && rest == Max(0, owed - k * share)
    ensures rest - ClampToRemaining(share, rest) == Max(0, owed - (k + 1) * share)
  {
    Distribute(k, 1, share);
  }

  lemma FixedSharePaid(states: seq<Check>, steps: seq<Step>, i: nat, owed: int, share: int, k: nat)
    requires IsRun(states, steps) && i < |steps| && steps[i].Pay? && steps[i].mode == Custom(share)
    requires share >= 0 && Remaining(states[i]) == Max(0, owed - k * share)
    ensures Remaining(states[i + 1]) == Max(0, owed - (k + 1) * share)
  {
    PaymentLowersRemaining(states, steps, i);
    ClampedShare(owed, share, k, Remaining(states[i]));
  }

  lemma {:induction false} FixedShareLeaves(states: seq<Check>, steps: seq<Step>, start: nat, k: nat, owed: int,
                                            share: int)
    requires IsRun(states, steps) && start + k <= |steps| && share >= 0 && owed == Remaining(states[start])
    requires forall i :: start <= i < start + k ==> steps[i].Pay? && steps[i].mode == Custom(share)
    ensures Remaining(states[start + k]) == Max(0, owed - k * share)
  {
    hide IsRun;
    if k > 0 {
      FixedShareLeaves(states, steps, start, k - 1, owed, share);
      FixedSharePaid(states, steps, start + k - 1, owed, share, k - 1);
    }
  }

  /**
   * The same share entered again and again, each time cut to what remains: after k payments exactly k shares
   * are gone, or everything. There are never more than n payments, none is left to make exactly when nothing
   * is owed any more, and that is the case after the n-th at the latest.
   */
  lemma FixedShareCloses(states: seq<Check>, steps: seq<Step>, start: nat, parts: nat, k: nat, share: int)
    requires IsRun(states, steps) && 0 < parts && start + k <= |steps|
    requires share == SplitSuggestion(Remaining(states[start]), parts)
    requires forall i :: start <= i < start + k ==> steps[i].Pay? && steps[i].mode == Custom(share)
    ensures Remaining(states[start + k]) == Max(0, Remaining(states[start]) - k * share)
    ensures k <= parts && (k == parts ==> Remaining(states[start + k]) == 0)
    ensures forall m, r :: Enabled(states[start + k], Pay(m, Custom(share), r)) <==> Remaining(states[start + k]) > 0
  {
    assert |states| == |steps| + 1;
    hide IsRun;
    hide Enabled;
    hide Max;
    hide Remaining;
    hide SplitSuggestion;
    var owed := Remaining(states[start]);
    OwedIsNat(states[start]);
    SuggestionWithin(owed, parts);
    FixedShareLeaves(states, steps, start, k, owed, share);
    FixedShareWithin(states, steps, start, parts, k, share, owed, Remaining(states[start + k]));
    NextShareEnabled(states[start + k], share);
  }

  /** No more shares fit in what is owed than it was divided by. */
  lemma FixedShareWithin(states: seq<Check>, steps: seq<Step>, start: nat, parts: nat, k: nat, share: int, owed: int,
                         rest: int)
    requires IsRun(states, steps) && 0 < parts && start + k <= |steps| && owed == Remaining(states[start])
    requires owed >= 0 && share >= 0 && share * parts >= owed && (owed > 0 ==> share > 0)
    requires forall i :: start <= i < start + k ==> steps[i].Pay? && steps[i].mode == Custom(share)
    requires rest == Max(0, owed - k * share)
    ensures k <= parts && (k == parts ==> rest == 0) && (rest > 0 ==> share > 0)
  {
    hide Enabled;
    hide Max;
    hide Remaining;
    if k > 0 {
      FixedShareLeaves(states, steps, start, k - 1, owed, share);
      StillOwed(states, steps, start + k - 1, share);
    }
    SharesUsedUp(owed, parts, share, k, rest);
  }

  lemma OwedIsNat(c: Check)
    ensures Remaining(c) >= 0
  {
  }

  lemma SharesUsedUp(owed: int, parts: nat, share: int, k: nat, rest: int)
    requires owed >= 0 && parts > 0 && share >= 0 && share * parts >= owed && (owed > 0 ==> share > 0)
    requires rest == Max(0, owed - k * share) && (k > 0 ==> Max(0, owed - (k - 1) * share) > 0)
    ensures k <= parts && (k == parts ==> rest == 0) && (rest > 0 ==> share > 0)
  {
    MulMonotone(0, k, share);
    if k > parts {
      MulMonotone(parts, k - 1, share);
    }
  }

  lemma NextShareEnabled(c: Check, share: int)
    requires Remaining(c) > 0 ==> share > 0
    ensures forall m, r :: Enabled(c, Pay(m, Custom(share), r)) <==> Remaining(c) > 0
  {
  }

  /** A payment of a share is made only while something is owed. */
  lemma StillOwed(states: seq<Check>, steps: seq<Step>, i: nat, share: int)
    requires IsRun(states, steps) && i < |steps| && steps[i].Pay? && steps[i].mode == Custom(share)
    ensures Remaining(states[i]) > 0
  {
    assert Enabled(states[i], steps[i]);
  }

  // ---------------------------------------------------------------- fiscal lines of a payment

  predicate SomePriced(items: seq<PayableItem>, units: seq<int>)
    requires |units| == |items|
  {
    exists i :: 0 <= i < |items| && units[i] > 0 && items[i].unitPrice > 0
  }

  lemma SomePricedGrows(items: seq<PayableItem>, units: seq<int>)
    requires |units| == |items| > 0
    ensures var n := |items| - 1;
      SomePriced(items, units) <==> SomePriced(items[..n], units[..n]) || (units[n] > 0 && items[n].unitPrice > 0)
  {
    var n := |items| - 1;
    if SomePriced(items[..n], units[..n]) {
      var i :| 0 <= i < n && units[..n][i] > 0 && items[..n][i].unitPrice > 0;
      assert units[i] > 0 && items[i].unitPrice > 0;
    }
    if SomePriced(items, units) {
      var i :| 0 <= i < |items| && units[i] > 0 && items[i].unitPrice > 0;
      assert i < n ==> units[..n][i] > 0 && items[..n][i].unitPrice > 0;
    }
  }

  lemma ItemTotalsGrow(items: seq<PayableItem>, item: PayableItem)
    ensures Sum(ItemTotals(items + [item])) == Sum(ItemTotals(items)) + ItemTotal(item)
  {
    assert ItemTotals(items + [item]) == ItemTotals(items) + [ItemTotal(item)];
    SumGrows(ItemTotals(items), ItemTotal(item));
  }

  lemma {:induction false} CoveredTotal(items: seq<PayableItem>, units: seq<int>)
    requires |units| == |items|
    ensures Sum(ItemTotals(WithQuantities(items, units))) >= 0
    ensures Sum(ItemTotals(WithQuantities(items, units))) > 0 <==> SomePriced(items, units)
  {
    if items != [] {
      var n := |items| - 1;
      CoveredTotal(items[..n], units[..n]);
      SomePricedGrows(items, units);
      if units[n] > 0 {
        ItemTotalsGrow(WithQuantities(items[..n], units[..n]), items[n].(quantity := units[n]));
        MulMonotone(1, units[n], items[n].unitPrice);
      }
    }
  }

  lemma {:induction false} CoveredEmpty(items: seq<PayableItem>, units: seq<int>)
    requires |units| == |items|
    ensures WithQuantities(items, units) == [] <==> forall i :: 0 <= i < |units| ==> units[i] <= 0
  {
    if items != [] {
      var n := |items| - 1;
      CoveredEmpty(items[..n], units[..n]);
      assert units == units[..n] + [units[n]];
    }
  }

  /**
   * A payment has fiscal lines, which then add up to its amount, exactly when it is an item payment, a
   * priced unit is still unpaid, or no unit at all is. What fails is the remaining case.
   */
  lemma LinesExistExactly(states: seq<Check>, steps: seq<Step>, i: nat)
    requires IsRun(states, steps) && i < |steps| && steps[i].Pay?
    ensures var c := states[i]; var unpaid := Unpaid(c.items, PaidMap(c));
      Sum(ItemTotals(CoveredItems(steps[i].mode, c.items, PaidMap(c)))) > 0 <==>
        (steps[i].mode.Items? || SomePriced(c.items, unpaid) || forall k :: 0 <= k < |unpaid| ==> unpaid[k] == 0)
  {
    var c, mode := states[i], steps[i].mode;
    if !mode.Items? {
      InvariantAt(states, steps, i);
      AmountsNonNegative(c.payments);
      CoveredTotal(c.items, Unpaid(c.items, PaidMap(c)));
      CoveredEmpty(c.items, Unpaid(c.items, PaidMap(c)));
      SuggestionWithin(Remaining(c), if mode.Split? then mode.parts else 1);
    }
  }

  const MEAL := PayableItem("meal", "m", "Meal", 1, 100)
  const WATER := PayableItem("water", "w", "Water", 1, 0)

  /**
   * The remaining case happens: half the meal is paid as an amount, the other half as the item, and the
   * first payment is voided. Only the free water is unpaid, so paying the rest has no lines.
   */
  lemma VoidLeavesPaymentWithoutLines(policy: RoundingPolicy)
    ensures exists states: seq<Check>, steps: seq<Step> ::
      && IsRun(states, steps) && |steps| == 4 && steps[3] == Pay(Card, Full, false)
      && NextCharge(states[3], Card, Full, false) == Charge(50, 0)
      && Sum(ItemTotals(CoveredItems(Full, states[3].items, PaidMap(states[3])))) == 0
  {
    hide IsRun;
    hide NextCharge;
    hide DueFor;
    hide PaidMap;
    hide CoveredItems;
    var steps := [Pay(Card, Custom(50), false), Pay(Card, Items(map["meal" := 1]), false), Release(0),
                  Pay(Card, Full, false)];
    var half := Payment(Charge(50, 0), Live, []);
    var meal := Payment(Charge(50, 0), Live, [ItemQty("meal", 1)]);
    var c0 := Check([MEAL, WATER], policy, []);
    var c1 := c0.(payments := [half]);
    var c2 := c0.(payments := [half, meal]);
    var c3 := c0.(payments := [half.(status := Released), meal]);
    ExampleTotal(c0);
    HalfPaid(c0, c1, half);
    MealPaid(c1, c2, half, meal);
    assert c2.payments[0 := half.(status := Released)] == c3.payments;
    OnlyWaterLeft(c3, half, meal);
    FourSteps([c0, c1, c2, c3, Do(c3, steps[3])], steps);
  }

  lemma FourSteps(states: seq<Check>, steps: seq<Step>)
    requires |states| == 5 && |steps| == 4 && states[0].payments == []
    requires Enabled(states[0], steps[0]) && states[1] == Do(states[0], steps[0])
    requires Enabled(states[1], steps[1]) && states[2] == Do(states[1], steps[1])
    requires Enabled(states[2], steps[2]) && states[3] == Do(states[2], steps[2])
    requires Enabled(states[3], steps[3]) && states[4] == Do(states[3], steps[3])
    ensures IsRun(states, steps)
  {
  }

  lemma HalfPaid(c0: Check, c1: Check, half: Payment)
    requires c0.items == [MEAL, WATER] && c0.payments == [] && CheckTotal(c0) == 100
    requires half == Payment(Charge(50, 0), Live, []) && c1 == c0.(payments := [half])
    ensures Enabled(c0, Pay(Card, Custom(50), false)) && Do(c0, Pay(Card, Custom(50), false)) == c1
  {
    assert [] + [half] == [half];
  }

  lemma MealPaid(c1: Check, c2: Check, half: Payment, meal: Payment)
    requires c1.items == [MEAL, WATER] && c1.payments == [half] && CheckTotal(c1) == 100
    requires half == Payment(Charge(50, 0), Live, []) && meal == Payment(Charge(50, 0), Live, [ItemQty("meal", 1)])
    requires c2 == c1.(payments := [half, meal])
    ensures var step := Pay(Card, Items(map["meal" := 1]), false); Enabled(c1, step) && Do(c1, step) == c2
  {
    var paid, selection := PaidMap(c1), map["meal" := 1];
    AddPayment([], half, "meal");
    assert [] + [half] == [half] && [half] + [meal] == [half, meal];
    assert c1.items[0].id == "meal" && Get(paid, "meal") == 0;
    assert Selected(c1.items, paid, selection) == [1, 0];
    MealOnly([1, 0]);
    ItemTotalsGrow([], MEAL);
    assert [] + [MEAL] == [MEAL];
    assert Allocations([MEAL]) == [ItemQty("meal", 1)];
    var step := Pay(Card, Items(selection), false);
    assert Remaining(c1) == 50 == DueFor(step.mode, 50, c1.items, paid);
    assert NextCharge(c1, Card, step.mode, false) == Charge(50, 0);
  }

  lemma WithOneMore(items: seq<PayableItem>, units: seq<int>, item: PayableItem, n: int)
    requires |units| == |items|
    ensures WithQuantities(items + [item], units + [n])
         == if n > 0 then WithQuantities(items, units) + [item.(quantity := n)] else WithQuantities(items, units)
  {
    assert (items + [item])[..|items|] == items && (units + [n])[..|units|] == units;
  }

  lemma MealOnly(units: seq<int>)
    requires units == [1, 0]
    ensures WithQuantities([MEAL, WATER], units) == [MEAL]
  {
    WithOneMore([], [], MEAL, 1);
    WithOneMore([MEAL], [1], WATER, 0);
    assert [] + [MEAL] == [MEAL] && [] + [1] == [1] && [MEAL] + [WATER] == [MEAL, WATER] && [1] + [0] == units;
  }

  lemma OnlyWaterLeft(c3: Check, half: Payment, meal: Payment)
    requires half == Payment(Charge(50, 0), Live, []) && meal == Payment(Charge(50, 0), Live, [ItemQty("meal", 1)])
    requires c3.items == [MEAL, WATER] && c3.payments == [half.(status := Released), meal] && CheckTotal(c3) == 100
    ensures Enabled(c3, Pay(Card, Full, false)) && NextCharge(c3, Card, Full, false) == Charge(50, 0)
    ensures Sum(ItemTotals(CoveredItems(Full, c3.items, PaidMap(c3)))) == 0
  {
    var gone := half.(status := Released);
    AddPayment([], gone, "meal");
    AddPayment([gone], meal, "meal");
    AddPayment([], gone, "water");
    AddPayment([gone], meal, "water");
    assert [] + [gone] == [gone] && [gone] + [meal] == [gone, meal];
    assert [ItemQty("meal", 1)][..0] == [];
    var unpaid := Unpaid(c3.items, PaidMap(c3));
    assert c3.items[0].id == "meal" && c3.items[1].id == "water";
    assert unpaid == [0, 1];
    CoveredTotal(c3.items, unpaid);
    CoveredEmpty(c3.items, unpaid);
    assert unpaid[1] == 1;
  }

  lemma ExampleTotal(c: Check)
    requires c.items == [MEAL, WATER]
    ensures CheckTotal(c) == 100
  {
    assert ItemTotals(c.items) == [100, 0];
    SumGrows([100], 0);
    SumGrows([], 100);
    assert [100] + [0] == [100, 0] && [] + [100] == [100];
  }
}
