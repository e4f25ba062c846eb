/** The pending round against the server: what the counter shows for a whole cart is what the order is charged. */
module CounterCart {
  import opened Common
  import opened Catalog
  import opened OptionTree
  import opened PriceLines
  import opened Options
  import opened MenuPricing
  import Cart
  import LineKey
  import Numpad

  // ---------------------------------------------------------------- ids as text, and back

  function Text(id: Id): string {
    Numpad.Decimal(id)
  }

  ghost function IdOf(text: string): Id {
    if Numpad.Digits(text) then Numpad.Value(text) else 0
  }

  /** The picker's choices as the cart holds them. */
  function Rendered(picked: seq<Choice>): (r: seq<Cart.Chosen>)
    ensures |r| == |picked| && forall i :: 0 <= i < |r| ==> r[i] == Cart.Chosen(Text(picked[i].id), picked[i].delta)
  {
    seq(|picked|, i requires 0 <= i < |picked| => Cart.Chosen(Text(picked[i].id), picked[i].delta))
  }

  /** The option ids of a line as the server reads them. */
  ghost function SentIds(modifiers: seq<Cart.Chosen>): (ids: seq<Id>)
    ensures |ids| == |modifiers| && forall i :: 0 <= i < |ids| ==> ids[i] == IdOf(modifiers[i].id)
  {
    seq(|modifiers|, i requires 0 <= i < |modifiers| => IdOf(modifiers[i].id))
  }

  /** A round as an order: product, quantity and option ids of every line. */
  ghost function Sent(lines: seq<Cart.Line>): (r: seq<CartLine>)
    ensures |r| == |lines|
    ensures forall i :: 0 <= i < |r| ==> r[i] == SentLine(lines[i])
  {
    seq(|lines|, i requires 0 <= i < |lines| => SentLine(lines[i]))
  }

  ghost function SentLine(l: Cart.Line): CartLine {
    CartLine(l.product, l.quantity, SentIds(l.modifiers))
  }

  lemma RenderedReadsBack(picked: seq<Choice>)
    ensures SentIds(Rendered(picked)) == Options.Ids(picked)
  {
    forall i | 0 <= i < |picked| ensures IdOf(Text(picked[i].id)) == picked[i].id {
      Numpad.DecimalReadsBack(picked[i].id);
    }
  }

  /** Every answer of a picker is one the cart takes. */
  lemma RenderedIsClean(picked: seq<Choice>)
    ensures LineKey.Clean(Cart.Ids(Rendered(picked)))
  {
    forall i | 0 <= i < |picked| ensures LineKey.CleanId(Text(picked[i].id)) {
      var text := Text(picked[i].id);
      assert forall k :: 0 <= k < |text| ==> Numpad.IsDigit(text[k]);
    }
  }

  lemma {:induction false} RenderedCosts(base: int, picked: seq<Choice>)
    ensures base + Cart.DeltaSum(Rendered(picked)) == UnitPriceWith(base, picked)
  {
    if picked != [] {
      var n := |picked| - 1;
      RenderedCosts(base, picked[..n]);
      assert Rendered(picked)[..n] == Rendered(picked[..n]);
    }
  }

  // ---------------------------------------------------------------- what the screen adds

  /** What the picker hands over for a product after some taps. */
  ghost predicate IsAnswer(p: ProductOptions, taps: seq<Tap>, modifiers: seq<Cart.Chosen>) {
    && Built(p.groups).Some?
    && (forall k :: 0 <= k < |taps| ==> OnScreen(Built(p.groups).value, taps[k]))
    && modifiers == Rendered(Picked(Built(p.groups).value, AfterTaps(Built(p.groups).value, taps)))
  }

  /** A listed product at its listed price, without options or with an answer of its picker. */
  ghost predicate FromScreen(db: Tables, listing: seq<ListedProduct>, tree: seq<ProductOptions>, product: Id,
                             price: int, modifiers: seq<Cart.Chosen>) {
    && product in db.products && db.products[product].active
    && (exists shown: ListedProduct :: shown in listing && shown.id == product && shown.price == price)
    && (modifiers == [] || exists i, taps ::
          0 <= i < |tree| && tree[i].product == product && IsAnswer(tree[i], taps, modifiers))
  }

  /** What the counter lets the cashier do: the products come from one listing and one option tree. */
  ghost predicate Offered(db: Tables, listing: seq<ListedProduct>, tree: seq<ProductOptions>, step: Cart.Step) {
    step.Add? ==> step.quantity >= 1 && FromScreen(db, listing, tree, step.product, step.price, step.modifiers)
  }

  /** A run of the counter from an empty round. */
  ghost predicate IsCounterRun(db: Tables, listing: seq<ListedProduct>, tree: seq<ProductOptions>,
                               states: seq<Cart.State>, steps: seq<Cart.Step>) {
    && |states| == |steps| + 1 && states[0] == Cart.State([], 0)
    && forall i :: 0 <= i < |steps| ==>
         Offered(db, listing, tree, steps[i]) && states[i + 1] == Cart.Do(states[i], steps[i])
  }

  /** Any listed active product can be added at its listed price, plain or with any answer of its picker. */
  lemma ScreenOffers(db: Tables, listing: seq<ListedProduct>, tree: seq<ProductOptions>, shown: ListedProduct, i: nat,
                     taps: seq<Tap>, modifiers: seq<Cart.Chosen>, note: string, quantity: int, seat: int)
    requires shown in listing && shown.id in db.products && db.products[shown.id].active && quantity >= 1
    ensures Offered(db, listing, tree, Cart.Add(shown.id, shown.price, [], note, quantity, seat))
    ensures i < |tree| && tree[i].product == shown.id && IsAnswer(tree[i], taps, modifiers) ==>
      Offered(db, listing, tree, Cart.Add(shown.id, shown.price, modifiers, note, quantity, seat))
  {
  }

  /** Every run of the counter is one of the cart: what the picker hands over has well-formed option ids. */
  lemma CounterRunIsCartRun(db: Tables, listing: seq<ListedProduct>, tree: seq<ProductOptions>,
                            states: seq<Cart.State>, steps: seq<Cart.Step>)
    requires IsCounterRun(db, listing, tree, states, steps)
    ensures Cart.IsRun(states, steps)
  {
    forall i | 0 <= i < |steps| ensures Cart.Enabled(steps[i]) {
      var step := steps[i];
      assert Offered(db, listing, tree, step);
      if step.Add? && step.modifiers != [] {
        var j, taps :| 0 <= j < |tree| && tree[j].product == step.product && IsAnswer(tree[j], taps, step.modifiers);
        RenderedIsClean(Picked(Built(tree[j].groups).value, AfterTaps(Built(tree[j].groups).value, taps)));
      }
    }
  }

  // ---------------------------------------------------------------- what the server knows of every line

  /** The product is priced as the line says, its options are allowed, and their deltas are the catalog's. */
  ghost predicate Backed(db: Tables, priced: map<Id, PricedProduct>, product: Id, price: int,
                         modifiers: seq<Cart.Chosen>) {
    && product in priced && priced[product].price == price
    && Allowed(db, product, SentIds(modifiers))
    && Cart.DeltaSum(modifiers) == PriceLines.DeltaSum(db, SentIds(modifiers))
  }

  ghost predicate AllBacked(db: Tables, priced: map<Id, PricedProduct>, lines: seq<Cart.Line>) {
    forall i :: 0 <= i < |lines| ==> Backed(db, priced, lines[i].product, lines[i].price, lines[i].modifiers)
  }

  lemma AnswerIsBacked(db: Tables, branch: Id, p: ProductOptions, taps: seq<Tap>, modifiers: seq<Cart.Chosen>)
    requires Consistent(db) && IsProduct(db, branch, p) && IsAnswer(p, taps, modifiers)
    ensures Allowed(db, p.product, SentIds(modifiers))
    ensures Cart.DeltaSum(modifiers) == PriceLines.DeltaSum(db, SentIds(modifiers))
  {
    var groups := Built(p.groups).value;
    var picked := Picked(groups, AfterTaps(groups, taps));
    TapsAreAllowed(db, branch, p, groups, taps, 0);
    RenderedReadsBack(picked);
    RenderedCosts(0, picked);
  }

  lemma ScreenIsBacked(db: Tables, branch: Id, products: seq<Id>, listing: seq<ListedProduct>, rows: seq<Row>,
                       product: Id, price: int, modifiers: seq<Cart.Chosen>)
    requires Consistent(db) && IsProductListing(db, branch, products, listing) && IsListing(db, branch, rows)
    requires FromScreen(db, listing, Fold(rows), product, price, modifiers)
    ensures Backed(db, PriceCatalogProducts(db, branch, products), product, price, modifiers)
  {
    var shown :| shown in listing && shown.id == product && shown.price == price;
    assert AppliedTo(db, branch, product, listing);
    ListedIsCharged(db, branch, products, listing, shown);
    if modifiers == [] {
      assert SentIds(modifiers) == [];
    } else {
      ListingFoldsToTree(db, branch, rows);
      var i, taps :| 0 <= i < |Fold(rows)| && Fold(rows)[i].product == product
        && IsAnswer(Fold(rows)[i], taps, modifiers);
      AnswerIsBacked(db, branch, Fold(rows)[i], taps, modifiers);
    }
  }

  /** No step changes the product, price or options of a line; only adding brings new ones. */
  lemma StepKeepsBacked(db: Tables, priced: map<Id, PricedProduct>, s: Cart.State, step: Cart.Step)
    requires AllBacked(db, priced, s.lines)
    requires step.Add? ==> Backed(db, priced, step.product, step.price, step.modifiers)
    ensures AllBacked(db, priced, Cart.Do(s, step).lines)
  {
    hide Backed;
    match step
    case Add(_, _, _, _, _, _) =>
    case ChangeQuantity(_, _) =>
    case Remove(clientId) =>
      Cart.RemoveLeavesOthers(s.lines, clientId);
      var left := Cart.RemoveFrom(s.lines, clientId);
      forall i | 0 <= i < |left| ensures Backed(db, priced, left[i].product, left[i].price, left[i].modifiers) {
        assert left[i] in left;
      }
    case EditNote(_, _) =>
  }

  lemma {:induction false} RunKeepsBacked(db: Tables, branch: Id, products: seq<Id>, listing: seq<ListedProduct>,
                                          rows: seq<Row>, states: seq<Cart.State>, steps: seq<Cart.Step>, k: nat)
    requires Consistent(db) && IsProductListing(db, branch, products, listing) && IsListing(db, branch, rows)
    requires IsCounterRun(db, listing, Fold(rows), states, steps) && k < |states|
    ensures AllBacked(db, PriceCatalogProducts(db, branch, products), states[k].lines)
  {
    if k > 0 {
      RunKeepsBacked(db, branch, products, listing, rows, states, steps, k - 1);
      var step := steps[k - 1];
      if step.Add? {
        ScreenIsBacked(db, branch, products, listing, rows, step.product, step.price, step.modifiers);
      }
      StepKeepsBacked(db, PriceCatalogProducts(db, branch, products), states[k - 1], step);
    }
  }

  // ---------------------------------------------------------------- the charge

  /** The server's line is the cart's: same product and units, at the unit price the counter shows. */
  predicate ChargedFor(priced: PricedLine, l: Cart.Line) {
    priced.product == l.product && priced.quantity == l.quantity && priced.unit == Cart.UnitPrice(l)
  }

  function Charged(priced: seq<PricedLine>): int {
    if priced == [] then 0
    else Charged(priced[..|priced| - 1]) + priced[|priced| - 1].unit * priced[|priced| - 1].quantity
  }

  lemma BackedIsPriced(db: Tables, priced: map<Id, PricedProduct>, l: Cart.Line)
    requires Backed(db, priced, l.product, l.price, l.modifiers)
    ensures var r := PriceLine(db, priced, SentLine(l));
      if Cart.UnitPrice(l) < 0 then r == Err(NegativePrice) else r.Ok? && ChargedFor(r.value, l)
  {
    hide Allowed;
    LineAcceptedExactly(db, priced, SentLine(l));
  }

  lemma {:induction false} ChargedIsTotal(priced: seq<PricedLine>, lines: seq<Cart.Line>)
    requires |priced| == |lines| && forall i :: 0 <= i < |lines| ==> ChargedFor(priced[i], lines[i])
    ensures Charged(priced) == Cart.Total(lines)
  {
    if lines != [] {
      var n := |lines| - 1;
      ChargedIsTotal(priced[..n], lines[..n]);
      assert ChargedFor(priced[n], lines[n]);
    }
  }

  /** The first refusal is for a price below zero, if all refusals are. */
  lemma {:induction false} OnlyNegativePrices(db: Tables, priced: map<Id, PricedProduct>, lines: seq<CartLine>, k: nat)
    requires k <= |lines|
    requires forall i :: 0 <= i < k ==>
      PriceLine(db, priced, lines[i]).Ok? || PriceLine(db, priced, lines[i]) == Err(NegativePrice)
    ensures PriceUpTo(db, priced, lines, k).Ok? || PriceUpTo(db, priced, lines, k) == Err(NegativePrice)
  {
    if k > 0 {
      OnlyNegativePrices(db, priced, lines, k - 1);
    }
  }

  /** A round of backed lines is charged line by line, and in all, as the counter shows it. */
  lemma BackedRoundIsCharged(db: Tables, priced: map<Id, PricedProduct>, lines: seq<Cart.Line>)
    requires AllBacked(db, priced, lines) && lines != [] && forall i :: 0 <= i < |lines| ==> lines[i].quantity >= 1
    ensures var r := PriceCart(db, priced, Sent(lines));
      if exists i :: 0 <= i < |lines| && Cart.UnitPrice(lines[i]) < 0 then r == Err(NegativePrice)
      else r.Ok? && |r.value| == |lines| && (forall i :: 0 <= i < |lines| ==> ChargedFor(r.value[i], lines[i]))
           && Charged(r.value) == Cart.Total(lines)
  {
    hide Backed;
    hide PriceLine;
    hide ChargedFor;
    forall i | 0 <= i < |lines|
      ensures var r := PriceLine(db, priced, Sent(lines)[i]);
        if Cart.UnitPrice(lines[i]) < 0 then r == Err(NegativePrice) else r.Ok? && ChargedFor(r.value, lines[i])
    {
      BackedIsPriced(db, priced, lines[i]);
    }
    CartIsPositional(db, priced, Sent(lines), |lines|);
    OnlyNegativePrices(db, priced, Sent(lines), |lines|);
    var r := PriceUpTo(db, priced, Sent(lines), |lines|);
    if r.Ok? {
      forall i | 0 <= i < |lines| ensures ChargedFor(r.value[i], lines[i]) && Cart.UnitPrice(lines[i]) >= 0 {
        assert PriceLine(db, priced, Sent(lines)[i]).Ok?;
      }
      ChargedIsTotal(r.value, lines);
    }
  }

  /**
   * At any moment of any run at the counter over one catalog state, the server charges the round line by line
   * at the unit price the cart shows, and in all what the cart shows as its total; it refuses the round only
   * when it is empty or some line's price is below zero.
   */
  lemma CartIsChargedAsShown(db: Tables, branch: Id, products: seq<Id>, listing: seq<ListedProduct>, rows: seq<Row>,
                             states: seq<Cart.State>, steps: seq<Cart.Step>, k: nat)
    requires Consistent(db) && IsProductListing(db, branch, products, listing) && IsListing(db, branch, rows)
    requires IsCounterRun(db, listing, Fold(rows), states, steps) && k < |states|
    ensures var lines := states[k].lines;
      var r := PriceCart(db, PriceCatalogProducts(db, branch, products), Sent(lines));
      if lines == [] then r == Err(EmptyCart)
      else if exists i :: 0 <= i < |lines| && Cart.UnitPrice(lines[i]) < 0 then r == Err(NegativePrice)
      else r.Ok? && |r.value| == |lines| && (forall i :: 0 <= i < |lines| ==> ChargedFor(r.value[i], lines[i]))
           && Charged(r.value) == Cart.Total(lines)
  {
    hide AllBacked;
    hide PriceUpTo;
    RunKeepsBacked(db, branch, products, listing, rows, states, steps, k);
    CounterRunIsCartRun(db, listing, Fold(rows), states, steps);
    Cart.KeptAt(states, steps, k, states[k]);
    if states[k].lines != [] {
      BackedRoundIsCharged(db, PriceCatalogProducts(db, branch, products), states[k].lines);
    }
  }
}
