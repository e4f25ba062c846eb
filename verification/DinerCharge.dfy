/** The diner's menu against the server's price: what the nested menu shows is what a line costs. */
module DinerCharge {
  import opened Common
  import opened Catalog
  import opened OptionTree
  import opened PriceLines
  import opened MenuPricing
  import GuestMenu

  // ---------------------------------------------------------------- what the menu lets a diner choose

  predicate Lists(g: GroupOptions, id: Id) {
    exists x :: 0 <= x < |g.modifiers| && g.modifiers[x].0 == id
  }

  function CountIn(g: GroupOptions, ids: seq<Id>): nat {
    if ids == [] then 0
    else if Lists(g, ids[|ids| - 1]) then CountIn(g, ids[..|ids| - 1]) + 1
    else CountIn(g, ids[..|ids| - 1])
  }

  function LimitOf(g: GroupOptions): int {
    GroupSelectionLimit(g.info.selection, MaxOf(g.info))
  }

  /** Options from the shown groups, none twice, no more of a group than it shows as its limit. */
  ghost predicate Selectable(groups: seq<GroupOptions>, ids: seq<Id>) {
    && Distinct(ids)
    && (forall id :: id in ids ==> exists j :: 0 <= j < |groups| && Lists(groups[j], id))
    && (forall j :: 0 <= j < |groups| && LimitOf(groups[j]) > 0 ==> CountIn(groups[j], ids) <= LimitOf(groups[j]))
  }

  ghost predicate IsShownDelta(groups: seq<GroupOptions>, id: Id, delta: int) {
    exists j, x :: 0 <= j < |groups| && 0 <= x < |groups[j].modifiers|
      && groups[j].modifiers[x].0 == id && groups[j].modifiers[x].1.delta == delta
  }

  /** The difference in price the menu shows next to an option. */
  ghost function ShownDelta(groups: seq<GroupOptions>, id: Id): int {
    if delta :| IsShownDelta(groups, id, delta) then delta else 0
  }

  ghost function ShownSum(groups: seq<GroupOptions>, ids: seq<Id>): int {
    if ids == [] then 0 else ShownSum(groups, ids[..|ids| - 1]) + ShownDelta(groups, ids[|ids| - 1])
  }

  // ---------------------------------------------------------------- the same rules as the server's

  /**
   * The groups are the catalog's: told apart, with their rules, listing exactly what the product may be
   * ordered with.
   */
  ghost predicate TrueGroups(db: Tables, product: Id, groups: seq<GroupOptions>) {
    && (forall a, b :: 0 <= a < b < |groups| ==> groups[a].id != groups[b].id)
    && (forall a :: 0 <= a < |groups| ==> groups[a].id in db.groups && groups[a].info == db.groups[groups[a].id])
    && (forall a, id :: 0 <= a < |groups| ==>
          (Lists(groups[a], id) <==> Available(db, product, id) && db.modifiers[id].group == groups[a].id))
    && (forall id :: Available(db, product, id) ==> exists j :: 0 <= j < |groups| && Lists(groups[j], id))
    && (forall id, delta :: IsShownDelta(groups, id, delta) ==> id in db.modifiers && delta == db.modifiers[id].delta)
  }

  /** What a product is known to offer, in the words of the menu's options. */
  ghost predicate OptionsExact(db: Tables, product: Id, groups: seq<GroupOptions>) {
    forall g, m :: GuestMenu.HasOption(db, product, g, m) <==> GuestMenu.Offers(groups, g, m)
  }

  lemma ListedIsAvailable(db: Tables, product: Id, groups: seq<GroupOptions>, j: nat, x: nat)
    requires OptionsExact(db, product, groups) && j < |groups| && x < |groups[j].modifiers|
    ensures var m := groups[j].modifiers[x];
      Available(db, product, m.0) && db.modifiers[m.0] == m.1 && m.1.group == groups[j].id
  {
    assert GuestMenu.Offers(groups, groups[j].id, groups[j].modifiers[x]);
  }

  lemma AvailableIsListed(db: Tables, product: Id, groups: seq<GroupOptions>, id: Id) returns (j: nat)
    requires OptionsExact(db, product, groups) && Available(db, product, id)
    ensures j < |groups| && Lists(groups[j], id) && groups[j].id == db.modifiers[id].group
  {
    var m := (id, db.modifiers[id]);
    assert GuestMenu.HasOption(db, product, db.modifiers[id].group, m);
    j :| 0 <= j < |groups| && groups[j].id == db.modifiers[id].group && m in groups[j].modifiers;
    var x :| 0 <= x < |groups[j].modifiers| && groups[j].modifiers[x] == m;
  }

  lemma MenuGroupsAreTrue(db: Tables, products: seq<Id>, rows: seq<Row>, product: Id)
    requires GuestMenu.IsModifierListing(db, products, rows) && product in products
    ensures TrueGroups(db, product, GuestMenu.GroupsOf(rows, product))
  {
    var groups := GuestMenu.GroupsOf(rows, product);
    GuestMenu.GuestOptionsAreExact(db, products, rows, product, groups);
    OptionsMakeTrue(db, product, groups);
  }

  lemma OptionsMakeTrue(db: Tables, product: Id, groups: seq<GroupOptions>)
    requires forall a, b :: 0 <= a < b < |groups| ==> groups[a].id != groups[b].id
    requires forall a :: 0 <= a < |groups| ==> groups[a].id in db.groups && groups[a].info == db.groups[groups[a].id]
    requires OptionsExact(db, product, groups)
    ensures TrueGroups(db, product, groups)
  {
    hide OptionsExact;
    hide Available;
    forall j, x | 0 <= j < |groups| && 0 <= x < |groups[j].modifiers|
      ensures Available(db, product, groups[j].modifiers[x].0)
      ensures groups[j].modifiers[x].0 in db.modifiers
      ensures db.modifiers[groups[j].modifiers[x].0] == groups[j].modifiers[x].1
      ensures groups[j].modifiers[x].1.group == groups[j].id
    {
      ListedIsAvailable(db, product, groups, j, x);
    }
    forall id | Available(db, product, id)
      ensures exists j :: 0 <= j < |groups| && Lists(groups[j], id) && groups[j].id == db.modifiers[id].group
    {
      var j := AvailableIsListed(db, product, groups, id);
    }
  }

  lemma {:induction false} CountIsInGroup(db: Tables, product: Id, groups: seq<GroupOptions>, j: nat, ids: seq<Id>)
    requires TrueGroups(db, product, groups) && j < |groups| && forall id :: id in ids ==> Available(db, product, id)
    ensures CountIn(groups[j], ids) == InGroup(db, ids, groups[j].id)
  {
    if ids != [] {
      var n := |ids| - 1;
      assert ids[n] in ids;
      CountIsInGroup(db, product, groups, j, ids[..n]);
    }
  }

  /** What can be chosen on the menu is exactly what the server allows. */
  lemma SelectableIsAllowed(db: Tables, product: Id, groups: seq<GroupOptions>, ids: seq<Id>)
    requires TrueGroups(db, product, groups)
    ensures Selectable(groups, ids) <==> Allowed(db, product, ids)
  {
    if Selectable(groups, ids) {
      forall id | id in ids ensures Available(db, product, id) {
        var j :| 0 <= j < |groups| && Lists(groups[j], id);
      }
      forall id | id in ids ensures WithinLimit(db, ids, db.modifiers[id].group) {
        var j :| 0 <= j < |groups| && Lists(groups[j], id);
        CountIsInGroup(db, product, groups, j, ids);
      }
    }
    if Allowed(db, product, ids) {
      forall j | 0 <= j < |groups| && LimitOf(groups[j]) > 0 ensures CountIn(groups[j], ids) <= LimitOf(groups[j]) {
        CountIsInGroup(db, product, groups, j, ids);
        if InGroup(db, ids, groups[j].id) > 0 {
          var id := SomeInGroup(db, ids, groups[j].id);
          assert WithinLimit(db, ids, db.modifiers[id].group);
        }
      }
    }
  }

  lemma {:induction false} SumIsDeltaSum(db: Tables, product: Id, groups: seq<GroupOptions>, ids: seq<Id>)
    requires TrueGroups(db, product, groups) && forall id :: id in ids ==> Available(db, product, id)
    ensures ShownSum(groups, ids) == DeltaSum(db, ids)
  {
    if ids != [] {
      var n := |ids| - 1;
      assert ids[n] in ids;
      SumIsDeltaSum(db, product, groups, ids[..n]);
      var j :| 0 <= j < |groups| && Lists(groups[j], ids[n]);
      var x :| 0 <= x < |groups[j].modifiers| && groups[j].modifiers[x].0 == ids[n];
      assert IsShownDelta(groups, ids[n], groups[j].modifiers[x].1.delta);
    }
  }

  // ---------------------------------------------------------------- end to end

  /** The rows of the diner's price query. */
  function Priced(db: Tables, prices: map<Id, int>): map<Id, PricedProduct> {
    map p | p in prices && p in db.products ::
      PricedProduct(db.products[p].name, prices[p], db.products[p].currency, db.products[p].taxRateBps)
  }

  /** The diner's price query for some products, over the joined menu rows. */
  ghost function DinerPrices(db: Tables, branch: Id, today: int, joined: seq<Pick>, ids: seq<Id>)
    : map<Id, PricedProduct>
    requires IsMenuJoin(db, branch, today, joined)
  {
    WinnersInTables(db, branch, today, joined);
    Priced(db, PriceProducts(db, branch, DistinctOn(joined), ids))
  }

  /**
   * End to end for diners, for one state of the catalog: a product the menu shows as available at some price is
   * accepted exactly with the options its shown groups allow, and costs the shown price plus the shown
   * differences, unless that is below zero; a product the menu does not show as available is refused.
   */
  lemma DinerIsChargedAsShown(db: Tables, branch: Id, today: int, keys: seq<(Pick, Option<nat>)>,
                              lines: seq<GuestMenu.Line>, joined: seq<Pick>, rows: seq<Row>, products: seq<Id>,
                              requested: seq<Id>, line: CartLine, price: int)
    requires Consistent(db) && GuestMenu.IsGuestListing(db, branch, today, keys, lines)
    requires IsMenuJoin(db, branch, today, joined) && GuestMenu.IsModifierListing(db, products, rows)
    requires line.product in products && line.product in requested
    ensures var r := PriceLine(db, DinerPrices(db, branch, today, joined, requested), line);
      var groups := GuestMenu.GroupsOf(rows, line.product);
      var unit := price + ShownSum(groups, line.modifiers);
      && (MenuRow(line.product, price, true) in GuestMenu.Rows(lines) ==>
            && (r.Ok? <==> Selectable(groups, line.modifiers) && unit >= 0)
            && (r.Ok? ==> r.value.unit == unit && r.value.product == line.product && r.value.quantity == line.quantity))
      && ((forall p :: MenuRow(line.product, p, true) !in GuestMenu.Rows(lines)) ==>
        r == Err(NotOrderable(line.product)))
  {
    var groups := GuestMenu.GroupsOf(rows, line.product);
    var priced := DinerPrices(db, branch, today, joined, requested);
    MenuGroupsAreTrue(db, products, rows, line.product);
    SelectableIsAllowed(db, line.product, groups, line.modifiers);
    if Allowed(db, line.product, line.modifiers) {
      SumIsDeltaSum(db, line.product, groups, line.modifiers);
    }
    LineAcceptedExactly(db, priced, line);
    PricedAsListed(db, branch, today, keys, lines, joined, requested, line.product, price);
  }

  lemma PricedAsListed(db: Tables, branch: Id, today: int, keys: seq<(Pick, Option<nat>)>, lines: seq<GuestMenu.Line>,
                       joined: seq<Pick>, requested: seq<Id>, product: Id, price: int)
    requires Consistent(db) && GuestMenu.IsGuestListing(db, branch, today, keys, lines)
    requires IsMenuJoin(db, branch, today, joined) && product in requested
    ensures var priced := DinerPrices(db, branch, today, joined, requested);
      && (MenuRow(product, price, true) in GuestMenu.Rows(lines) ==>
        product in priced && priced[product].price == price)
      && (product in priced ==> MenuRow(product, priced[product].price, true) in GuestMenu.Rows(lines))
  {
    var priced, rows := DinerPrices(db, branch, today, joined, requested), GuestMenu.Rows(lines);
    DinersPayWhatTheyAreShown(db, branch, today, keys, rows, joined, requested, product, price);
    if MenuRow(product, price, true) in rows {
      var k :| 0 <= k < |rows| && rows[k] == MenuRow(product, price, true);
      assert IsMenuRow(db, branch, keys[k], rows[k]);
    }
    if product in priced {
      DinersPayWhatTheyAreShown(db, branch, today, keys, rows, joined, requested, product, priced[product].price);
    }
  }
}
