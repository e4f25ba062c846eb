/** What the server charges for an ordered line: the one implementation behind diner and counter orders. */
module PriceLines {
  import opened Common
  import opened Catalog

  datatype PricedProduct = PricedProduct(name: string, price: int, currency: string, taxRateBps: nat)

  /** A modifier next to a product it may be ordered with; limit 0 means no bound. */
  datatype ProductModifier = ProductModifier(product: Id, modifier: Id, name: string, delta: int, group: Id,
                                             selection: SelectionType, max: int)

  datatype CartLine = CartLine(product: Id, quantity: int, modifiers: seq<Id>)

  datatype PricedModifier = PricedModifier(id: Id, name: string, delta: int)

  datatype PricedLine = PricedLine(product: Id, name: string, base: int, unit: int, currency: string, taxRateBps: nat,
                                   quantity: int, modifiers: seq<PricedModifier>)

  datatype CartError =
    | EmptyCart
    | QuantityNotPositive
    | NotOrderable(product: Id)
    | Repeated(modifier: Id)
    | NotAvailable(modifier: Id)
    | TooMany(group: Id)
    | NegativePrice

  // ---------------------------------------------------------------- the modifier query

  function MaxOf(g: Group): int {
    if g.maxSelections.Some? then g.maxSelections.value else 0
  }

  predicate Available(db: Tables, product: Id, m: Id) {
    m in db.modifiers && db.modifiers[m].active && db.modifiers[m].group in db.groups
      && (product, db.modifiers[m].group) in db.attached
  }

  function ModifierRow(db: Tables, product: Id, m: Id): ProductModifier
    requires Available(db, product, m)
  {
    var o := db.modifiers[m];
    var g := db.groups[o.group];
    ProductModifier(product, m, o.name, o.delta, o.group, g.selection, MaxOf(g))
  }

  /** A result of the modifier query for the products and modifiers of a cart, in any order. */
  ghost predicate IsModifierResult(db: Tables, products: seq<Id>, modifiers: seq<Id>, rows: seq<ProductModifier>) {
    forall r :: r in rows <==>
      r.product in products && r.modifier in modifiers && Available(db, r.product, r.modifier)
        && r == ModifierRow(db, r.product, r.modifier)
  }

  function GroupSelectionLimit(selection: SelectionType, max: int): int {
    if selection.Single? then 1 else max
  }

  // ---------------------------------------------------------------- one line

  /** How many of the ids belong to a group. */
  function InGroup(db: Tables, ids: seq<Id>, group: Id): nat {
    if ids == [] then 0
    else
      var m := ids[|ids| - 1];
      if m in db.modifiers && db.modifiers[m].group == group then InGroup(db, ids[..|ids| - 1], group) + 1
      else InGroup(db, ids[..|ids| - 1], group)
  }

  /** The line after its first k modifiers, or the first thing wrong with them. */
  function AddModifiers(db: Tables, line: CartLine, start: PricedLine, k: nat): Result<PricedLine, CartError>
    requires k <= |line.modifiers|
  {
    if k == 0 then Ok(start)
    else
      var before := AddModifiers(db, line, start, k - 1);
      var m := line.modifiers[k - 1];
      if before.Err? then before
      else if m in line.modifiers[..k - 1] then Err(Repeated(m))
      else if !Available(db, line.product, m) then Err(NotAvailable(m))
      else
        var row := ModifierRow(db, line.product, m);
        var limit := GroupSelectionLimit(row.selection, row.max);
        if limit > 0 && InGroup(db, line.modifiers[..k], row.group) > limit then Err(TooMany(row.group))
        else
          var pl := before.value;
          Ok(pl.(unit := pl.unit + row.delta, modifiers := pl.modifiers + [PricedModifier(m, row.name, row.delta)]))
  }

  function Started(line: CartLine, p: PricedProduct): PricedLine {
    PricedLine(line.product, p.name, p.price, p.price, p.currency, p.taxRateBps, line.quantity, [])
  }

  function PriceLine(db: Tables, priced: map<Id, PricedProduct>, line: CartLine): Result<PricedLine, CartError> {
    if line.product !in priced then Err(NotOrderable(line.product))
    else
      var done := AddModifiers(db, line, Started(line, priced[line.product]), |line.modifiers|);
      if done.Err? then done
      else if done.value.unit < 0 then Err(NegativePrice)
      else if done.value.currency == "" then Ok(done.value.(currency := "TRY"))
      else done
  }

  // ---------------------------------------------------------------- which lines are accepted

  function DeltaSum(db: Tables, ids: seq<Id>): int {
    if ids == [] then 0
    else
      var m := ids[|ids| - 1];
      DeltaSum(db, ids[..|ids| - 1]) + if m in db.modifiers then db.modifiers[m].delta else 0
  }

  /** Distinct options of the product, no group beyond its limit. */
  ghost predicate Allowed(db: Tables, product: Id, ids: seq<Id>) {
    && Distinct(ids)
    && (forall m :: m in ids ==> Available(db, product, m))
    && (forall m :: m in ids ==> WithinLimit(db, ids, db.modifiers[m].group))
  }

  predicate WithinLimit(db: Tables, ids: seq<Id>, group: Id) {
    group in db.groups &&
    var limit := GroupSelectionLimit(db.groups[group].selection, MaxOf(db.groups[group]));
    limit > 0 ==> InGroup(db, ids, group) <= limit
  }

  lemma {:induction false} InGroupGrows(db: Tables, ids: seq<Id>, k: nat, group: Id)
    requires k <= |ids|
    ensures InGroup(db, ids[..k], group) <= InGroup(db, ids, group)
  {
    if k < |ids| {
      var n := |ids| - 1;
      InGroupGrows(db, ids[..n], k, group);
      assert ids[..n][..k] == ids[..k];
    } else {
      assert ids[..k] == ids;
    }
  }

  lemma AllowedGrows(db: Tables, product: Id, ids: seq<Id>, k: nat)
    requires k < |ids|
    ensures Allowed(db, product, ids[..k + 1]) ==> Allowed(db, product, ids[..k])
    ensures Allowed(db, product, ids[..k + 1]) ==> ids[k] !in ids[..k]
    ensures (Allowed(db, product, ids[..k]) && ids[k] !in ids[..k] && Available(db, product, ids[k])
             && WithinLimit(db, ids[..k + 1], db.modifiers[ids[k]].group)) ==>
      Allowed(db, product, ids[..k + 1])
  {
    var before, after, m := ids[..k], ids[..k + 1], ids[k];
    assert after == before + [m] && after[..k] == before;
    if Allowed(db, product, after) {
      assert after[k] == m;
      forall x | x in before ensures Available(db, product, x) && WithinLimit(db, before, db.modifiers[x].group) {
        assert x in after;
        InGroupGrows(db, after, k, db.modifiers[x].group);
      }
    }
    if Allowed(db, product, before) && m !in before && Available(db, product, m)
      && WithinLimit(db, after, db.modifiers[m].group)
    {
      forall x | x in after ensures Available(db, product, x) && WithinLimit(db, after, db.modifiers[x].group) {
        if x != m {
          assert x in before;
        }
      }
    }
  }

  /** The loop over the modifiers goes through exactly for allowed selections, adding up their deltas. */
  lemma {:induction false} ModifiersAcceptedExactly(db: Tables, line: CartLine, start: PricedLine, k: nat)
    requires k <= |line.modifiers|
    ensures AddModifiers(db, line, start, k).Ok? <==> Allowed(db, line.product, line.modifiers[..k])
    ensures AddModifiers(db, line, start, k).Ok? ==>
      var pl := AddModifiers(db, line, start, k).value;
      && pl.unit == start.unit + DeltaSum(db, line.modifiers[..k])
      && pl == start.(unit := pl.unit, modifiers := pl.modifiers)
      && pl.modifiers == start.modifiers + Rows(db, line.modifiers[..k])
  {
    if k == 0 {
      assert line.modifiers[..0] == [];
    } else {
      ModifiersAcceptedExactly(db, line, start, k - 1);
      AllowedGrows(db, line.product, line.modifiers, k - 1);
      var m := line.modifiers[k - 1];
      assert line.modifiers[..k][..k - 1] == line.modifiers[..k - 1];
      assert line.modifiers[..k][k - 1] == m && m in line.modifiers[..k];
    }
  }

  lemma {:induction false} SomeInGroup(db: Tables, ids: seq<Id>, group: Id) returns (id: Id)
    requires InGroup(db, ids, group) > 0
    ensures id in ids && id in db.modifiers && db.modifiers[id].group == group
  {
    var n := |ids| - 1;
    if ids[n] in db.modifiers && db.modifiers[ids[n]].group == group {
      id := ids[n];
    } else {
      id := SomeInGroup(db, ids[..n], group);
    }
  }

  /**
   * The rules in columns: no option twice; each active and of a group that is attached to the product; at most
   * one of a single-choice group, and of a multiple-choice group no more than its maximum, if it has a positive
   * one.
   */
  lemma AllowedInColumns(db: Tables, product: Id, ids: seq<Id>)
    ensures Allowed(db, product, ids) <==>
      && (forall i, j :: 0 <= i < j < |ids| ==> ids[i] != ids[j])
      && (forall m :: m in ids ==>
            m in db.modifiers && db.modifiers[m].active && db.modifiers[m].group in db.groups
            && (product, db.modifiers[m].group) in db.attached)
      && (forall g :: g in db.groups ==>
            && (db.groups[g].selection == Single ==> InGroup(db, ids, g) <= 1)
            && (db.groups[g].selection == Multiple && db.groups[g].maxSelections != None
                && db.groups[g].maxSelections.value > 0 ==>
                  InGroup(db, ids, g) <= db.groups[g].maxSelections.value))
  {
    if Allowed(db, product, ids) {
      forall g | g in db.groups && InGroup(db, ids, g) > 0 ensures WithinLimit(db, ids, g) {
        var id := SomeInGroup(db, ids, g);
      }
    }
  }

  /** What stops a line at its modifier k: repeated, not to be had with the product, or one too many. */
  function RefusedAt(db: Tables, line: CartLine, k: nat): CartError
    requires k < |line.modifiers|
  {
    var m := line.modifiers[k];
    if exists i :: 0 <= i < k && line.modifiers[i] == m then Repeated(m)
    else if m in db.modifiers && db.modifiers[m].active && db.modifiers[m].group in db.groups
      && (line.product, db.modifiers[m].group) in db.attached
    then TooMany(db.modifiers[m].group)
    else NotAvailable(m)
  }

  lemma {:induction false} FirstRefusal(db: Tables, line: CartLine, start: PricedLine, k: nat)
    requires k <= |line.modifiers| && AddModifiers(db, line, start, k).Err?
    ensures exists i :: (0 <= i < k && Allowed(db, line.product, line.modifiers[..i])
                         && !Allowed(db, line.product, line.modifiers[..i + 1])
                         && AddModifiers(db, line, start, k) == Err(RefusedAt(db, line, i)))
  {
    hide Allowed;
    hide DeltaSum;
    hide Rows;
    ModifiersAcceptedExactly(db, line, start, k);
    ModifiersAcceptedExactly(db, line, start, k - 1);
    if AddModifiers(db, line, start, k - 1).Err? {
      FirstRefusal(db, line, start, k - 1);
    } else {
      var m := line.modifiers[k - 1];
      assert m in line.modifiers[..k - 1] <==> exists i :: 0 <= i < k - 1 && line.modifiers[i] == m;
    }
  }

  /**
   * Why a line is refused: its product is not priced; or its first modifier that breaks a rule, with the rule
   * it breaks; or a price below zero.
   */
  lemma RefusalIsTruthful(db: Tables, priced: map<Id, PricedProduct>, line: CartLine)
    requires PriceLine(db, priced, line).Err?
    ensures var e := PriceLine(db, priced, line).error;
      if line.product !in priced then e == NotOrderable(line.product)
      else if Allowed(db, line.product, line.modifiers) then e == NegativePrice
      else exists i :: (0 <= i < |line.modifiers| && Allowed(db, line.product, line.modifiers[..i])
                        && !Allowed(db, line.product, line.modifiers[..i + 1]) && e == RefusedAt(db, line, i))
  {
    if line.product in priced {
      LineAcceptedExactly(db, priced, line);
      var start := Started(line, priced[line.product]);
      ModifiersAcceptedExactly(db, line, start, |line.modifiers|);
      assert line.modifiers[..|line.modifiers|] == line.modifiers;
      if AddModifiers(db, line, start, |line.modifiers|).Err? {
        FirstRefusal(db, line, start, |line.modifiers|);
      }
    }
  }

  /** The modifiers as the priced line lists them. */
  function Rows(db: Tables, ids: seq<Id>): (r: seq<PricedModifier>)
    ensures |r| == |ids|
  {
    seq(|ids|, i requires 0 <= i < |ids| =>
      if ids[i] in db.modifiers then PricedModifier(ids[i], db.modifiers[ids[i]].name, db.modifiers[ids[i]].delta)
      else PricedModifier(ids[i], "", 0))
  }

  /**
   * A line is accepted exactly when its product is priced, its options are allowed and the price does not
   * go below zero; it then costs the base price plus the options' deltas, whatever their order.
   */
  lemma LineAcceptedExactly(db: Tables, priced: map<Id, PricedProduct>, line: CartLine)
    ensures PriceLine(db, priced, line).Ok? <==>
      (line.product in priced && Allowed(db, line.product, line.modifiers)
       && priced[line.product].price + DeltaSum(db, line.modifiers) >= 0)
    ensures PriceLine(db, priced, line).Ok? ==>
      var pl := PriceLine(db, priced, line).value; var p := priced[line.product];
      pl == PricedLine(line.product, p.name, p.price, p.price + DeltaSum(db, line.modifiers),
                       if p.currency == "" then "TRY" else p.currency,
                       p.taxRateBps, line.quantity, Rows(db, line.modifiers))
    ensures (line.product in priced && Allowed(db, line.product, line.modifiers)
             && priced[line.product].price + DeltaSum(db, line.modifiers) < 0) ==>
      PriceLine(db, priced, line) == Err(NegativePrice)
  {
    if line.product in priced {
      ModifiersAcceptedExactly(db, line, Started(line, priced[line.product]), |line.modifiers|);
      assert line.modifiers[..|line.modifiers|] == line.modifiers;
    }
  }

  // ---------------------------------------------------------------- the whole cart

  /** The lines up to k, each priced in its place, or the first line's error. */
  function PriceUpTo(db: Tables, priced: map<Id, PricedProduct>, lines: seq<CartLine>, k: nat)
    : (r: Result<seq<PricedLine>, CartError>)
    requires k <= |lines|
    ensures r.Ok? ==> |r.value| == k
  {
    if k == 0 then Ok([])
    else
      var before := PriceUpTo(db, priced, lines, k - 1);
      if before.Err? then before
      else
        var one := PriceLine(db, priced, lines[k - 1]);
        if one.Err? then Err(one.error) else Ok(before.value + [one.value])
  }

  function PriceCart(db: Tables, priced: map<Id, PricedProduct>, lines: seq<CartLine>)
    : Result<seq<PricedLine>, CartError>
  {
    if lines == [] then Err(EmptyCart)
    else if exists i :: 0 <= i < |lines| && lines[i].quantity < 1 then Err(QuantityNotPositive)
    else PriceUpTo(db, priced, lines, |lines|)
  }

  /** No line is dropped or moved: line i of the order is line i of the cart, priced on its own. */
  lemma {:induction false} CartIsPositional(db: Tables, priced: map<Id, PricedProduct>, lines: seq<CartLine>, k: nat)
    requires k <= |lines|
    ensures PriceUpTo(db, priced, lines, k).Ok? <==> forall i :: 0 <= i < k ==> PriceLine(db, priced, lines[i]).Ok?
    ensures PriceUpTo(db, priced, lines, k).Ok? ==>
      forall i :: 0 <= i < k ==> Ok(PriceUpTo(db, priced, lines, k).value[i]) == PriceLine(db, priced, lines[i])
  {
    if k > 0 {
      CartIsPositional(db, priced, lines, k - 1);
    }
  }

  /**
   * A whole cart is refused when it is empty, when some quantity is below one, or else for the first line that
   * is refused on its own, with that line's error; otherwise every line is priced in its place.
   */
  lemma CartRefusedExactly(db: Tables, priced: map<Id, PricedProduct>, lines: seq<CartLine>)
    ensures var r := PriceCart(db, priced, lines);
      if lines == [] then r == Err(EmptyCart)
      else if exists i :: 0 <= i < |lines| && lines[i].quantity <= 0 then r == Err(QuantityNotPositive)
      else if r.Ok? then
        |r.value| == |lines| && forall i :: 0 <= i < |lines| ==> Ok(r.value[i]) == PriceLine(db, priced, lines[i])
      else exists i :: (0 <= i < |lines| && PriceLine(db, priced, lines[i]) == Err(r.error)
                        && forall j :: 0 <= j < i ==> PriceLine(db, priced, lines[j]).Ok?)
  {
    CartIsPositional(db, priced, lines, |lines|);
    if PriceUpTo(db, priced, lines, |lines|).Err? {
      FirstLineRefused(db, priced, lines, |lines|);
    }
  }

  lemma {:induction false} FirstLineRefused(db: Tables, priced: map<Id, PricedProduct>, lines: seq<CartLine>, k: nat)
    requires k <= |lines| && PriceUpTo(db, priced, lines, k).Err?
    ensures exists i :: (0 <= i < k && PriceLine(db, priced, lines[i]) == Err(PriceUpTo(db, priced, lines, k).error)
                         && forall j :: 0 <= j < i ==> PriceLine(db, priced, lines[j]).Ok?)
  {
    CartIsPositional(db, priced, lines, k - 1);
    if PriceUpTo(db, priced, lines, k - 1).Err? {
      FirstLineRefused(db, priced, lines, k - 1);
    }
  }

  function ProductsOf(lines: seq<CartLine>): seq<Id> {
    if lines == [] then [] else ProductsOf(lines[..|lines| - 1]) + [lines[|lines| - 1].product]
  }

  function ModifiersOf(lines: seq<CartLine>): seq<Id> {
    if lines == [] then [] else ModifiersOf(lines[..|lines| - 1]) + lines[|lines| - 1].modifiers
  }

  lemma {:induction false} LineIsRequested(lines: seq<CartLine>, i: nat)
    requires i < |lines|
    ensures lines[i].product in ProductsOf(lines)
    ensures forall m :: m in lines[i].modifiers ==> m in ModifiersOf(lines)
  {
    if i < |lines| - 1 {
      LineIsRequested(lines[..|lines| - 1], i);
    }
  }

  /** The rows as a lookup by product and modifier: what is found is available, what is not is not. */
  ghost predicate IsLookup(db: Tables, lookup: map<(Id, Id), ProductModifier>, line: CartLine) {
    forall m :: m in line.modifiers ==>
      ((line.product, m) in lookup <==> Available(db, line.product, m)) &&
      ((line.product, m) in lookup ==> lookup[(line.product, m)] == ModifierRow(db, line.product, m))
  }

  method ByPair(ghost db: Tables, ghost lines: seq<CartLine>, rows: seq<ProductModifier>)
    returns (lookup: map<(Id, Id), ProductModifier>)
    requires IsModifierResult(db, ProductsOf(lines), ModifiersOf(lines), rows)
    ensures forall i :: 0 <= i < |lines| ==> IsLookup(db, lookup, lines[i])
  {
    lookup := map[];
    for i := 0 to |rows|
      invariant forall k :: k in lookup ==> Available(db, k.0, k.1) && lookup[k] == ModifierRow(db, k.0, k.1)
      invariant forall j :: 0 <= j < i ==> (rows[j].product, rows[j].modifier) in lookup
    {
      assert rows[i] in rows;
      lookup := lookup[(rows[i].product, rows[i].modifier) := rows[i]];
    }
    forall i, m | 0 <= i < |lines| && m in lines[i].modifiers && Available(db, lines[i].product, m)
      ensures (lines[i].product, m) in lookup
    {
      LineIsRequested(lines, i);
      assert ModifierRow(db, lines[i].product, m) in rows;
    }
  }

  function Tally(perGroup: map<Id, int>, group: Id): int {
    if group in perGroup then perGroup[group] else 0
  }

  ghost predicate Tallies(db: Tables, perGroup: map<Id, int>, ids: seq<Id>) {
    forall g :: Tally(perGroup, g) == InGroup(db, ids, g)
  }

  lemma TallyMore(db: Tables, perGroup: map<Id, int>, ids: seq<Id>, k: nat)
    requires k < |ids| && Tallies(db, perGroup, ids[..k]) && ids[k] in db.modifiers
    ensures var g := db.modifiers[ids[k]].group; Tallies(db, perGroup[g := Tally(perGroup, g) + 1], ids[..k + 1])
  {
    var own, next := db.modifiers[ids[k]].group, ids[..k + 1];
    assert next[..k] == ids[..k] && next[k] == ids[k];
    forall g ensures InGroup(db, next, g) == Tally(perGroup, g) + if g == own then 1 else 0 {
      assert Tally(perGroup, g) == InGroup(db, ids[..k], g);
    }
  }

  /** Prices one line: every modifier once, on the product, within its group's limit. */
  method PriceOneLine(ghost db: Tables, priced: map<Id, PricedProduct>, lookup: map<(Id, Id), ProductModifier>,
                      line: CartLine)
    returns (r: Result<PricedLine, CartError>)
    requires IsLookup(db, lookup, line)
    ensures r == PriceLine(db, priced, line)
  {
    if line.product !in priced {
      return Err(NotOrderable(line.product));
    }
    var product := priced[line.product];
    var pl := PricedLine(line.product, product.name, product.price, product.price, product.currency,
                         product.taxRateBps, line.quantity, []);
    var seen: set<Id> := {};
    var perGroup: map<Id, int> := map[];
    for k := 0 to |line.modifiers|
      invariant forall m :: m in seen <==> m in line.modifiers[..k]
      invariant Tallies(db, perGroup, line.modifiers[..k])
      invariant AddModifiers(db, line, Started(line, product), k) == Ok(pl)
    {
      var m := line.modifiers[k];
      assert line.modifiers[..k + 1][..k] == line.modifiers[..k] && line.modifiers[..k + 1][k] == m;
      if m in seen {
        FailsAt(db, line, Started(line, product), k);
        return Err(Repeated(m));
      }
      seen := seen + {m};
      if (line.product, m) !in lookup {
        FailsAt(db, line, Started(line, product), k);
        return Err(NotAvailable(m));
      }
      var row := lookup[(line.product, m)];
      TallyMore(db, perGroup, line.modifiers, k);
      perGroup := perGroup[row.group := Tally(perGroup, row.group) + 1];
      var limit := GroupSelectionLimit(row.selection, row.max);
      if limit > 0 && perGroup[row.group] > limit {
        FailsAt(db, line, Started(line, product), k);
        return Err(TooMany(row.group));
      }
      pl := pl.(unit := pl.unit + row.delta, modifiers := pl.modifiers + [PricedModifier(m, row.name, row.delta)]);
    }
    if pl.unit < 0 {
      return Err(NegativePrice);
    }
    if pl.currency == "" {
      pl := pl.(currency := "TRY");
    }
    return Ok(pl);
  }

  /** The first error is the line's error. */
  lemma {:induction false} FailsAt(db: Tables, line: CartLine, start: PricedLine, k: nat)
    requires k < |line.modifiers| && AddModifiers(db, line, start, k + 1).Err?
    ensures AddModifiers(db, line, start, |line.modifiers|) == AddModifiers(db, line, start, k + 1)
    decreases |line.modifiers| - k
  {
    if k + 1 < |line.modifiers| {
      FailsAt(db, line, start, k + 1);
    }
  }

  lemma {:induction false} CartFailsAt(db: Tables, priced: map<Id, PricedProduct>, lines: seq<CartLine>, k: nat)
    requires k < |lines| && PriceUpTo(db, priced, lines, k + 1).Err?
    ensures PriceUpTo(db, priced, lines, |lines|) == PriceUpTo(db, priced, lines, k + 1)
    decreases |lines| - k
  {
    if k + 1 < |lines| {
      CartFailsAt(db, priced, lines, k + 1);
    }
  }

  /** The server's pricing of a cart against the rows its two queries returned. */
  method PriceLines(ghost db: Tables, priced: map<Id, PricedProduct>, rows: seq<ProductModifier>, lines: seq<CartLine>)
    returns (r: Result<seq<PricedLine>, CartError>)
    requires IsModifierResult(db, ProductsOf(lines), ModifiersOf(lines), rows)
    ensures r == PriceCart(db, priced, lines)
  {
    if |lines| == 0 {
      return Err(EmptyCart);
    }
    for i := 0 to |lines|
      invariant forall j :: 0 <= j < i ==> lines[j].quantity >= 1
    {
      if lines[i].quantity < 1 {
        return Err(QuantityNotPositive);
      }
    }
    var lookup := ByPair(db, lines, rows);
    var out: seq<PricedLine> := [];
    for i := 0 to |lines|
      invariant PriceUpTo(db, priced, lines, i) == Ok(out)
    {
      var one := PriceOneLine(db, priced, lookup, lines[i]);
      if one.Err? {
        CartFailsAt(db, priced, lines, i);
        return Err(one.error);
      }
      out := out + [one.value];
    }
    return Ok(out);
  }
}
