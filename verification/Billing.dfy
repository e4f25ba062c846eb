/** Invoices: VAT split out of inclusive prices, totals, and the yearly numbering. Money is in whole kurus. */
module Billing {
  import opened Common
  import opened Backoff

  datatype ItemRequest = ItemRequest(quantity: int, unitPrice: int, taxRateBps: int)

  datatype Item = Item(quantity: int, unitPrice: int, taxRateBps: int, lineTotal: int, taxAmount: int)

  datatype Totals = Totals(excludingTax: int, tax: int, total: int)

  const MAX_INT64 := 0x7fff_ffff_ffff_ffff

  // ---------------------------------------------------------------- one line

  /** Division that truncates toward zero. */
  function Quotient(a: int, b: int): int
    requires b > 0
  {
    if a >= 0 then a / b else -(-a / b)
  }

  function TaxOf(gross: int, bps: int): int
    requires bps >= 0
  {
    var divisor := 10000 + bps;
    Quotient(Wrap64(Wrap64(gross * bps) + divisor / 2), divisor)
  }

  /** Net and tax of an inclusive amount. */
  function SplitTaxInclusive(gross: int, bps: int): (int, int)
    requires bps >= 0
  {
    (gross - TaxOf(gross, bps), TaxOf(gross, bps))
  }

  /** Amounts the program's 64-bit arithmetic does not overflow on. */
  predicate Fits(gross: int, bps: int) {
    gross >= 0 && bps >= 0 && gross * bps + 10000 + bps <= MAX_INT64
  }

  lemma Half(n: int, d: int, t: int)
    requires n >= 0 && d > 0 && t == (n + d / 2) / d
    ensures -d <= 2 * (n - t * d) < d && t >= 0
  {
    var m := n + d / 2;
    assert m == d * t + m % d;
    if t < 0 {
      MulMonotone(t, -1, d);
    }
  }

  /**
   * The tax is the exact share gross * bps / (10000 + bps) rounded half up: the share is less than half a
   * kurus above it and at most half a kurus below. It never exceeds the gross amount.
   */
  lemma SplitIsHalfUp(gross: int, bps: int)
    requires gross >= 0 && bps >= 0 && gross * bps + 10000 + bps <= 0x7fff_ffff_ffff_ffff
    ensures var (net, tax) := SplitTaxInclusive(gross, bps); var d := 10000 + bps;
      net + tax == gross && -d <= 2 * (gross * bps - tax * d) < d && 0 <= tax <= gross
  {
    var d, tax := 10000 + bps, TaxOf(gross, bps);
    MulMonotone(0, gross, bps);
    Half(gross * bps, d, tax);
    if tax > gross {
      MulMonotone(gross + 1, tax, d);
      Expand(gross, bps);
    }
  }

  lemma Expand(gross: int, bps: int)
    ensures (gross + 1) * (10000 + bps) == gross * 10000 + gross * bps + 10000 + bps
  {
  }

  function ExactTax(gross: int, bps: int): real
    requires bps >= 0
  {
    (gross * bps) as real / (10000 + bps) as real
  }

  lemma NearExact(gross: int, bps: int)
    requires Fits(gross, bps)
    ensures -0.5 <= ExactTax(gross, bps) - TaxOf(gross, bps) as real < 0.5
  {
    SplitIsHalfUp(gross, bps);
    InReals(gross * bps, 10000 + bps, TaxOf(gross, bps));
  }

  lemma InReals(n: int, d: int, t: int)
    requires d > 0 && -d <= 2 * (n - t * d) < d
    ensures -0.5 <= n as real / d as real - t as real < 0.5
  {
    var x, y, td := n as real / d as real, d as real, t * d;
    assert td as real == t as real * y by {
      ProductInReals(t, d);
    }
    var e, twice := x - t as real, 2 * (n - td);
    assert x * y == n as real;
    assert e * y == n as real - td as real;
    assert twice as real == 2.0 * (n as real - td as real);
    assert (-d) as real <= twice as real < y;
    if e < -0.5 {
      RealMul(e, -0.5, y);
    } else if e >= 0.5 {
      RealMul(0.5, e, y);
    }
  }

  lemma ProductInReals(t: int, d: int)
    ensures (t * d) as real == t as real * d as real
  {
  }

  lemma RealMul(a: real, b: real, y: real)
    requires y > 0.0
    ensures a < b ==> a * y < b * y
    ensures a <= b ==> a * y <= b * y
  {
  }

  // ---------------------------------------------------------------- an invoice

  function Gross(r: ItemRequest): int {
    Wrap64(r.quantity * r.unitPrice)
  }

  function BuiltItem(r: ItemRequest): Item
    requires r.taxRateBps >= 0
  {
    var (net, tax) := SplitTaxInclusive(Gross(r), r.taxRateBps);
    Item(r.quantity, r.unitPrice, r.taxRateBps, net, tax)
  }

  /** Quantity and price are not negative, and the line fits 64 bits. */
  predicate FitsLine(r: ItemRequest) {
    r.quantity >= 0 && r.unitPrice >= 0 && r.quantity * r.unitPrice <= MAX_INT64
      && Fits(r.quantity * r.unitPrice, r.taxRateBps)
  }

  function GrossSum(reqs: seq<ItemRequest>): int {
    if reqs == [] then 0 else GrossSum(reqs[..|reqs| - 1]) + reqs[|reqs| - 1].quantity * reqs[|reqs| - 1].unitPrice
  }

  function ExactTaxSum(reqs: seq<ItemRequest>): real
    requires forall i :: 0 <= i < |reqs| ==> FitsLine(reqs[i])
  {
    if reqs == [] then 0.0
    else
      var r := reqs[|reqs| - 1];
      assert FitsLine(r);
      ExactTaxSum(reqs[..|reqs| - 1]) + ExactTax(r.quantity * r.unitPrice, r.taxRateBps)
  }

  method BuildItems(reqs: seq<ItemRequest>) returns (items: seq<Item>)
    requires forall i :: 0 <= i < |reqs| ==> reqs[i].taxRateBps >= 0
    ensures |items| == |reqs| && forall i :: 0 <= i < |items| ==> items[i] == BuiltItem(reqs[i])
  {
    items := [];
    for i := 0 to |reqs|
      invariant |items| == i && forall k :: 0 <= k < i ==> items[k] == BuiltItem(reqs[k])
    {
      var gross := Wrap64(reqs[i].quantity * reqs[i].unitPrice);
      var (net, tax) := SplitTaxInclusive(gross, reqs[i].taxRateBps);
      items := items + [Item(reqs[i].quantity, reqs[i].unitPrice, reqs[i].taxRateBps, net, tax)];
    }
  }

  function TaxSum(reqs: seq<ItemRequest>): int
    requires forall i :: 0 <= i < |reqs| ==> FitsLine(reqs[i])
  {
    if reqs == [] then 0
    else
      var r := reqs[|reqs| - 1];
      assert FitsLine(r);
      TaxSum(reqs[..|reqs| - 1]) + TaxOf(r.quantity * r.unitPrice, r.taxRateBps)
  }

  /** The taxes of n lines are together within half a kurus per line of their exact sum. */
  lemma {:induction false} TaxSumNearExact(reqs: seq<ItemRequest>)
    requires forall i :: 0 <= i < |reqs| ==> FitsLine(reqs[i])
    ensures -0.5 * |reqs| as real <= ExactTaxSum(reqs) - TaxSum(reqs) as real <= 0.5 * |reqs| as real
  {
    if reqs != [] {
      var r := reqs[|reqs| - 1];
      assert FitsLine(r);
      TaxSumNearExact(reqs[..|reqs| - 1]);
      NearExact(r.quantity * r.unitPrice, r.taxRateBps);
    }
  }

  /**
   * The invoice totals: they add up to the sum of quantity times price, and the tax is within half a kurus
   * per line.
   */
  method CalculateTotals(items: seq<Item>, ghost reqs: seq<ItemRequest>) returns (t: Totals)
    requires |items| == |reqs| && forall i :: 0 <= i < |reqs| ==> FitsLine(reqs[i]) && items[i] == BuiltItem(reqs[i])
    requires GrossSum(reqs) <= MAX_INT64
    ensures t.total == t.excludingTax + t.tax == GrossSum(reqs)
    ensures t.excludingTax >= 0 && t.tax >= 0
    ensures -0.5 * |items| as real <= ExactTaxSum(reqs) - t.tax as real <= 0.5 * |items| as real
  {
    var net, tax := 0, 0;
    for i := 0 to |items|
      invariant net >= 0 && tax >= 0 && net + tax == GrossSum(reqs[..i])
      invariant tax == TaxSum(reqs[..i])
    {
      assert reqs[..i + 1][..i] == reqs[..i];
      SplitIsHalfUp(reqs[i].quantity * reqs[i].unitPrice, reqs[i].taxRateBps);
      PartOfSum(reqs, i + 1);
      net := Wrap64(net + items[i].lineTotal);
      tax := Wrap64(tax + items[i].taxAmount);
    }
    assert reqs[..|reqs|] == reqs;
    TaxSumNearExact(reqs);
    t := Totals(net, tax, Wrap64(net + tax));
  }

  lemma {:induction false} PartOfSum(reqs: seq<ItemRequest>, k: nat)
    requires k <= |reqs| && forall i :: 0 <= i < |reqs| ==> FitsLine(reqs[i])
    ensures 0 <= GrossSum(reqs[..k]) <= GrossSum(reqs)
  {
    if k == |reqs| {
      assert reqs[..k] == reqs;
      if k > 0 {
        PartOfSum(reqs[..k - 1], k - 1);
        assert reqs[..k - 1][..k - 1] == reqs[..k - 1];
        assert FitsLine(reqs[k - 1]);
      }
    } else {
      var front := reqs[..|reqs| - 1];
      PartOfSum(front, k);
      assert front[..k] == reqs[..k];
      assert FitsLine(reqs[|reqs| - 1]);
    }
  }

  // ---------------------------------------------------------------- numbering

  datatype Invoice = Invoice(tenant: nat, year: int, key: string, number: nat)

  predicate HasKey(invoices: seq<Invoice>, tenant: nat, key: string) {
    exists i :: 0 <= i < |invoices| && invoices[i].tenant == tenant && invoices[i].key == key
  }

  /** The numbers a tenant's invoices of a year carry, oldest first. */
  function NumbersOf(invoices: seq<Invoice>, tenant: nat, year: int): seq<nat> {
    if invoices == [] then []
    else
      var last := invoices[|invoices| - 1];
      if last.tenant == tenant && last.year == year
      then NumbersOf(invoices[..|invoices| - 1], tenant, year) + [last.number]
      else NumbersOf(invoices[..|invoices| - 1], tenant, year)
  }

  /** Requests served one at a time; a known key returns its invoice and adds none. */
  function Generate(invoices: seq<Invoice>, tenant: nat, year: int, key: string): seq<Invoice> {
    if HasKey(invoices, tenant, key) then invoices
    else invoices + [Invoice(tenant, year, key, |NumbersOf(invoices, tenant, year)| + 1)]
  }

  datatype Request = Request(tenant: nat, year: int, key: string)

  function AfterAll(reqs: seq<Request>): seq<Invoice> {
    if reqs == [] then []
    else
      var last := reqs[|reqs| - 1];
      Generate(AfterAll(reqs[..|reqs| - 1]), last.tenant, last.year, last.key)
  }

  lemma NumbersGrow(invoices: seq<Invoice>, inv: Invoice, tenant: nat, year: int)
    ensures NumbersOf(invoices + [inv], tenant, year)
         == if inv.tenant == tenant && inv.year == year then NumbersOf(invoices, tenant, year) + [inv.number]
           else NumbersOf(invoices, tenant, year)
  {
    assert (invoices + [inv])[..|invoices|] == invoices;
  }

  /** After any requests a tenant's numbers of a year are 1, 2, ..., n in order, and no key has two invoices. */
  lemma {:induction false} NumbersAreConsecutive(reqs: seq<Request>, tenant: nat, year: int)
    ensures forall k :: 0 <= k < |NumbersOf(AfterAll(reqs), tenant, year)| ==>
      NumbersOf(AfterAll(reqs), tenant, year)[k] == k + 1
    ensures forall i, j :: 0 <= i < j < |AfterAll(reqs)| ==>
      !(AfterAll(reqs)[i].tenant == AfterAll(reqs)[j].tenant && AfterAll(reqs)[i].key == AfterAll(reqs)[j].key)
    ensures forall q :: q in reqs ==> HasKey(AfterAll(reqs), q.tenant, q.key)
  {
    if reqs != [] {
      var n := |reqs| - 1;
      var before, last := AfterAll(reqs[..n]), reqs[n];
      NumbersAreConsecutive(reqs[..n], tenant, year);
      if !HasKey(before, last.tenant, last.key) {
        var next := |NumbersOf(before, last.tenant, last.year)| + 1;
        NumbersGrow(before, Invoice(last.tenant, last.year, last.key, next), tenant, year);
      }
      forall q | q in reqs ensures HasKey(AfterAll(reqs), q.tenant, q.key) {
        KeyStays(before, last, q, reqs);
      }
    }
  }

  lemma KeyStays(before: seq<Invoice>, last: Request, q: Request, reqs: seq<Request>)
    requires reqs != [] && q in reqs && last == reqs[|reqs| - 1] && before == AfterAll(reqs[..|reqs| - 1])
    requires q in reqs[..|reqs| - 1] ==> HasKey(before, q.tenant, q.key)
    ensures HasKey(AfterAll(reqs), q.tenant, q.key)
  {
    var after := AfterAll(reqs);
    if HasKey(before, q.tenant, q.key) {
      var i :| 0 <= i < |before| && before[i].tenant == q.tenant && before[i].key == q.key;
      assert after[i] == before[i];
    } else {
      assert q == last;
      assert after[|before|].key == q.key;
    }
  }
}
