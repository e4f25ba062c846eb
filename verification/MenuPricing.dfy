/** Which products a branch shows and at what price, to diners and at the counter, and what it charges for them. */
module MenuPricing {
  import opened Common
  import opened Catalog
  import opened OptionTree
  import opened PriceLines
  import opened Options

  // ---------------------------------------------------------------- the diner's price

  predicate OnMenu(db: Tables, branch: Id, today: int, product: Id, menu: Id) {
    && (menu, product) in db.items && db.items[(menu, product)].active
    && menu in db.menus && db.menus[menu].active
    && (db.menus[menu].branch.None? || db.menus[menu].branch.value == branch)
    && (db.menus[menu].validFrom.Some? ==> db.menus[menu].validFrom.value <= today)
    && (db.menus[menu].validUntil.Some? ==> db.menus[menu].validUntil.value >= today)
    && Sellable(db, branch, product)
  }

  /** The branch's own menus first, then sort order, then menu id. */
  predicate MenuBefore(db: Tables, a: Id, b: Id)
    requires a in db.menus && b in db.menus
  {
    var (m, n) := (db.menus[a], db.menus[b]);
    (m.branch.Some? && n.branch.None?) ||
    (m.branch.Some? == n.branch.Some? && (m.sort < n.sort || (m.sort == n.sort && a < b)))
  }

  datatype Pick = Pick(product: Id, menu: Id)

  predicate RowBefore(db: Tables, x: Pick, y: Pick) {
    x.menu in db.menus && y.menu in db.menus
      && (x.product < y.product || (x.product == y.product && MenuBefore(db, x.menu, y.menu)))
  }

  /** Any two different rows have their order. */
  lemma RowsCompare(db: Tables, x: Pick, y: Pick)
    requires x.menu in db.menus && y.menu in db.menus
    ensures x == y || RowBefore(db, x, y) || RowBefore(db, y, x)
    ensures !(RowBefore(db, x, y) && RowBefore(db, y, x))
  {
  }

  /** The joined and sorted rows the visible items are taken from. */
  ghost predicate IsMenuJoin(db: Tables, branch: Id, today: int, rows: seq<Pick>) {
    && (forall r :: r in rows <==> OnMenu(db, branch, today, r.product, r.menu))
    && (forall i, j :: 0 <= i < j < |rows| ==> RowBefore(db, rows[i], rows[j]))
  }

  /** DISTINCT ON the product: the first row of each. */
  function DistinctOn(rows: seq<Pick>): seq<Pick> {
    if rows == [] then []
    else
      var n := |rows| - 1;
      if n > 0 && rows[n - 1].product == rows[n].product then DistinctOn(rows[..n])
      else DistinctOn(rows[..n]) + [rows[n]]
  }

  /** The menu that decides a product's price: before every other one that carries it. */
  ghost predicate IsWinner(db: Tables, branch: Id, today: int, r: Pick) {
    && OnMenu(db, branch, today, r.product, r.menu)
    && forall m :: OnMenu(db, branch, today, r.product, m) && m != r.menu ==> MenuBefore(db, r.menu, m)
  }

  lemma {:induction false} DistinctOnKeepsFirst(db: Tables, rows: seq<Pick>, k: nat)
    requires forall i, j :: 0 <= i < j < |rows| ==> RowBefore(db, rows[i], rows[j])
    requires k < |rows|
    ensures rows[k] in DistinctOn(rows) <==> forall i :: 0 <= i < k ==> rows[i].product != rows[k].product
    ensures forall r :: r in DistinctOn(rows) ==> r in rows
  {
    var n := |rows| - 1;
    forall r | r in DistinctOn(rows) ensures r in rows {
      OnlyRows(rows, r);
    }
    if k < n {
      DistinctOnKeepsFirst(db, rows[..n], k);
      assert RowBefore(db, rows[k], rows[n]);
      assert rows[k] != rows[n];
    } else {
      forall i | 0 <= i < n ensures rows[..n][i] != rows[n] {
        assert RowBefore(db, rows[i], rows[n]);
      }
      if rows[n] in DistinctOn(rows[..n]) {
        OnlyRows(rows[..n], rows[n]);
      }
      if n > 0 && rows[n - 1].product != rows[n].product {
        forall i | 0 <= i < n ensures rows[i].product != rows[n].product {
          assert i < n - 1 ==> RowBefore(db, rows[i], rows[n - 1]);
          assert RowBefore(db, rows[n - 1], rows[n]);
        }
      }
    }
  }

  lemma {:induction false} OnlyRows(rows: seq<Pick>, r: Pick)
    requires r in DistinctOn(rows)
    ensures r in rows
  {
    var n := |rows| - 1;
    if r in DistinctOn(rows[..n]) {
      OnlyRows(rows[..n], r);
    }
  }

  /** Taking the first row per product is taking the winner: one for each product on a menu, and no other. */
  lemma VisibleAreWinners(db: Tables, branch: Id, today: int, rows: seq<Pick>, r: Pick)
    requires IsMenuJoin(db, branch, today, rows)
    ensures r in DistinctOn(rows) <==> IsWinner(db, branch, today, r)
  {
    if r in rows {
      var k :| 0 <= k < |rows| && rows[k] == r;
      DistinctOnKeepsFirst(db, rows, k);
      FirstIsWinner(db, branch, today, rows, k);
    } else if r in DistinctOn(rows) {
      OnlyRows(rows, r);
    }
  }

  lemma FirstIsWinner(db: Tables, branch: Id, today: int, rows: seq<Pick>, k: nat)
    requires IsMenuJoin(db, branch, today, rows) && k < |rows|
    ensures IsWinner(db, branch, today, rows[k]) <==> forall i :: 0 <= i < k ==> rows[i].product != rows[k].product
  {
    var r := rows[k];
    assert r in rows;
    if forall i :: 0 <= i < k ==> rows[i].product != r.product {
      forall m | OnMenu(db, branch, today, r.product, m) && m != r.menu ensures MenuBefore(db, r.menu, m) {
        assert Pick(r.product, m) in rows;
        var j :| 0 <= j < |rows| && rows[j] == Pick(r.product, m);
        assert RowBefore(db, rows[k], rows[j]);
      }
    } else {
      var i :| 0 <= i < k && rows[i].product == r.product;
      assert RowBefore(db, rows[i], rows[k]) && rows[i] in rows;
      assert OnMenu(db, branch, today, r.product, rows[i].menu);
    }
  }

  /** A product on some menu has exactly one winner. */
  lemma WinnerIsUnique(db: Tables, branch: Id, today: int, a: Pick, b: Pick)
    requires IsWinner(db, branch, today, a) && IsWinner(db, branch, today, b) && a.product == b.product
    ensures a == b
  {
    assert OnMenu(db, branch, today, a.product, b.menu) && OnMenu(db, branch, today, b.product, a.menu);
  }

  lemma {:induction false} FirstOfProduct(rows: seq<Pick>, k: nat) returns (j: nat)
    requires k < |rows|
    ensures j <= k && rows[j].product == rows[k].product
      && forall i :: 0 <= i < j ==> rows[i].product != rows[k].product
  {
    if i :| 0 <= i < k && rows[i].product == rows[k].product {
      j := FirstOfProduct(rows, i);
    } else {
      j := k;
    }
  }

  lemma OnMenuHasWinner(db: Tables, branch: Id, today: int, rows: seq<Pick>, product: Id, menu: Id) returns (w: Pick)
    requires IsMenuJoin(db, branch, today, rows) && OnMenu(db, branch, today, product, menu)
    ensures w.product == product && IsWinner(db, branch, today, w)
  {
    assert Pick(product, menu) in rows;
    var k :| 0 <= k < |rows| && rows[k] == Pick(product, menu);
    k := FirstOfProduct(rows, k);
    w := rows[k];
    assert w in rows;
    DistinctOnKeepsFirst(db, rows, k);
    VisibleAreWinners(db, branch, today, rows, w);
  }

  // ---------------------------------------------------------------- the same in columns

  /** The branch sells the product, and the menu is in force there and carries it. */
  predicate Carries(db: Tables, branch: Id, today: int, menu: Id, product: Id) {
    && product in db.products && db.products[product].active
    && ((branch, product) in db.overrides ==> db.overrides[(branch, product)].available)
    && menu in db.menus && db.menus[menu].active && db.menus[menu].branch in {None, Some(branch)}
    && (db.menus[menu].validFrom != None ==> db.menus[menu].validFrom.value <= today)
    && (db.menus[menu].validUntil != None ==> today <= db.menus[menu].validUntil.value)
    && (menu, product) in db.items && db.items[(menu, product)].active
  }

  /** A branch's own menu before a common one, then the smaller sort order, then the smaller id. */
  predicate Outranks(db: Tables, a: Id, b: Id)
    requires a in db.menus && b in db.menus
  {
    var (own, other) := (db.menus[a].branch != None, db.menus[b].branch != None);
    if own != other then own else if db.menus[a].sort != db.menus[b].sort then db.menus[a].sort < db.menus[b].sort
    else a < b
  }

  /** The menu that carries the product before every other one that does. */
  ghost predicate Prevails(db: Tables, branch: Id, today: int, menu: Id, product: Id) {
    && Carries(db, branch, today, menu, product)
    && forall m :: m != menu && Carries(db, branch, today, m, product) ==> Outranks(db, menu, m)
  }

  lemma WinnerPrevails(db: Tables, branch: Id, today: int, r: Pick)
    ensures IsWinner(db, branch, today, r) <==> Prevails(db, branch, today, r.menu, r.product)
  {
    forall m ensures OnMenu(db, branch, today, r.product, m) <==> Carries(db, branch, today, m, r.product) {
    }
  }

  // ---------------------------------------------------------------- what diners see and pay

  /** Branch price first, then the winning menu's, then the product's own. */
  function DinerPrice(db: Tables, branch: Id, r: Pick): int
    requires r.product in db.products && (r.menu, r.product) in db.items
  {
    if (branch, r.product) in db.overrides && db.overrides[(branch, r.product)].price.Some?
    then db.overrides[(branch, r.product)].price.value
    else if db.items[(r.menu, r.product)].priceOverride.Some? then db.items[(r.menu, r.product)].priceOverride.value
    else db.products[r.product].price
  }

  /** The availability rows a product joins with: each of its own, or one standing for none. */
  predicate Joins(db: Tables, product: Id, row: Option<nat>) {
    match row
    case Some(i) => i < |db.dineIn| && db.dineIn[i].product == product
    case None => forall i :: 0 <= i < |db.dineIn| ==> db.dineIn[i].product != product
  }

  predicate Open(db: Tables, row: Option<nat>) {
    row.Some? && row.value < |db.dineIn| ==> db.dineIn[row.value].available
  }

  datatype MenuRow = MenuRow(product: Id, price: int, available: bool)

  /** A menu listing: one row per visible product and availability row, in some order. */
  ghost predicate IsMenuListing(db: Tables, branch: Id, today: int, keys: seq<(Pick, Option<nat>)>,
                                rows: seq<MenuRow>) {
    && |rows| == |keys| && Distinct(keys)
    && (forall k :: k in keys <==> IsWinner(db, branch, today, k.0) && Joins(db, k.0.product, k.1))
    && (forall i :: 0 <= i < |keys| ==> IsMenuRow(db, branch, keys[i], rows[i]))
  }

  predicate IsMenuRow(db: Tables, branch: Id, key: (Pick, Option<nat>), row: MenuRow) {
    && key.0.product in db.products && (key.0.menu, key.0.product) in db.items
    && row == MenuRow(key.0.product, DinerPrice(db, branch, key.0), Open(db, key.1))
  }

  /**
   * The listing in columns: a product stands there at a price exactly if some menu prevails for it and the price
   * is the branch's own if it has one, else the menu's if it has one, else the product's; it is shown as
   * available or not as each of its dine-in rows says, and as available if it has none.
   */
  lemma ListedInColumns(db: Tables, branch: Id, today: int, keys: seq<(Pick, Option<nat>)>, listing: seq<MenuRow>,
                        row: MenuRow)
    requires Consistent(db) && IsMenuListing(db, branch, today, keys, listing)
    ensures row in listing <==>
      (exists menu :: (Prevails(db, branch, today, menu, row.product)
        && row.price == if (branch, row.product) in db.overrides && db.overrides[(branch, row.product)].price != None
                        then db.overrides[(branch, row.product)].price.value
                        else if db.items[(menu, row.product)].priceOverride != None
                        then db.items[(menu, row.product)].priceOverride.value
                        else db.products[row.product].price))
      && ((exists d :: d in db.dineIn && d == ChannelRow(row.product, row.available))
          || (row.available && forall d :: d in db.dineIn ==> d.product != row.product))
  {
    if k :| 0 <= k < |listing| && listing[k] == row {
      assert keys[k] in keys && IsMenuRow(db, branch, keys[k], listing[k]);
      WinnerPrevails(db, branch, today, keys[k].0);
      assert Prevails(db, branch, today, keys[k].0.menu, row.product);
      match keys[k].1
      case Some(i) => assert db.dineIn[i] == ChannelRow(row.product, row.available) && db.dineIn[i] in db.dineIn;
      case None =>
    }
    if menu :| (Prevails(db, branch, today, menu, row.product)
                && row.price == DinerPrice(db, branch, Pick(row.product, menu)))
    {
      WinnerPrevails(db, branch, today, Pick(row.product, menu));
      if i :| 0 <= i < |db.dineIn| && db.dineIn[i] == ChannelRow(row.product, row.available) {
        KeyIsListed(db, branch, today, keys, listing, (Pick(row.product, menu), Some(i)));
      }
      if row.available && forall d :: d in db.dineIn ==> d.product != row.product {
        KeyIsListed(db, branch, today, keys, listing, (Pick(row.product, menu), None));
      }
    }
  }

  lemma KeyIsListed(db: Tables, branch: Id, today: int, keys: seq<(Pick, Option<nat>)>, listing: seq<MenuRow>,
                    key: (Pick, Option<nat>))
    requires IsMenuListing(db, branch, today, keys, listing)
    requires IsWinner(db, branch, today, key.0) && Joins(db, key.0.product, key.1)
    ensures key.0.product in db.products && (key.0.menu, key.0.product) in db.items
    ensures MenuRow(key.0.product, DinerPrice(db, branch, key.0), Open(db, key.1)) in listing
  {
    assert key in keys;
    var k :| 0 <= k < |keys| && keys[k] == key;
    assert IsMenuRow(db, branch, keys[k], listing[k]);
  }

  /** The price query: per requested product, the price of a visible item open to diners, last row winning. */
  function PriceProducts(db: Tables, branch: Id, visible: seq<Pick>, ids: seq<Id>): map<Id, int>
    requires forall r :: r in visible ==> r.product in db.products && (r.menu, r.product) in db.items
  {
    if visible == [] then map[]
    else
      var r := visible[|visible| - 1];
      var before := PriceProducts(db, branch, visible[..|visible| - 1], ids);
      if r.product in ids && OpenSomewhere(db, r.product) then before[r.product := DinerPrice(db, branch, r)]
      else before
  }

  predicate OpenSomewhere(db: Tables, product: Id) {
    (exists i :: 0 <= i < |db.dineIn| && db.dineIn[i].product == product && db.dineIn[i].available) ||
    (forall i :: 0 <= i < |db.dineIn| ==> db.dineIn[i].product != product)
  }

  lemma {:induction false} PricedExactly(db: Tables, branch: Id, visible: seq<Pick>, ids: seq<Id>, product: Id)
    requires forall r :: r in visible ==> r.product in db.products && (r.menu, r.product) in db.items
    requires forall i, j :: 0 <= i < j < |visible| ==> visible[i].product != visible[j].product
    ensures product in PriceProducts(db, branch, visible, ids) <==>
      product in ids && OpenSomewhere(db, product) && exists i :: 0 <= i < |visible| && visible[i].product == product
    ensures forall i :: (0 <= i < |visible| && visible[i].product == product
                         && product in PriceProducts(db, branch, visible, ids)) ==>
      PriceProducts(db, branch, visible, ids)[product] == DinerPrice(db, branch, visible[i])
  {
    if visible != [] {
      var n := |visible| - 1;
      PricedExactly(db, branch, visible[..n], ids, product);
      assert forall i :: 0 <= i < n ==> visible[..n][i] == visible[i];
    }
  }

  lemma OpenRow(db: Tables, product: Id) returns (row: Option<nat>)
    requires OpenSomewhere(db, product)
    ensures Joins(db, product, row) && Open(db, row)
  {
    if i :| 0 <= i < |db.dineIn| && db.dineIn[i].product == product && db.dineIn[i].available {
      row := Some(i);
    } else {
      row := None;
    }
  }

  lemma WinnersInTables(db: Tables, branch: Id, today: int, rows: seq<Pick>)
    requires IsMenuJoin(db, branch, today, rows)
    ensures forall r :: r in DistinctOn(rows) ==> r.product in db.products && (r.menu, r.product) in db.items
    ensures forall i, j :: 0 <= i < j < |DistinctOn(rows)| ==>
      DistinctOn(rows)[i].product != DistinctOn(rows)[j].product
  {
    forall r | r in DistinctOn(rows) ensures IsWinner(db, branch, today, r) {
      VisibleAreWinners(db, branch, today, rows, r);
    }
    FirstsDiffer(db, rows);
  }

  lemma {:induction false} FirstsDiffer(db: Tables, rows: seq<Pick>)
    requires forall i, j :: 0 <= i < j < |rows| ==> RowBefore(db, rows[i], rows[j])
    ensures forall i, j :: 0 <= i < j < |DistinctOn(rows)| ==>
      DistinctOn(rows)[i].product != DistinctOn(rows)[j].product
  {
    if rows != [] {
      var n := |rows| - 1;
      FirstsDiffer(db, rows[..n]);
      if n > 0 && rows[n - 1].product != rows[n].product {
        var firsts := DistinctOn(rows[..n]);
        forall i | 0 <= i < |firsts| ensures firsts[i].product != rows[n].product {
          OnlyRows(rows[..n], firsts[i]);
          var k :| 0 <= k < n && rows[k] == firsts[i];
          assert k < n - 1 ==> RowBefore(db, rows[k], rows[n - 1]);
          assert RowBefore(db, rows[n - 1], rows[n]);
        }
      }
    }
  }

  /**
   * What a diner is shown as available is exactly what can be ordered, at the price shown, although the
   * listing and the pricing run the query separately.
   */
  lemma DinersPayWhatTheyAreShown(db: Tables, branch: Id, today: int, keys: seq<(Pick, Option<nat>)>,
                                  listing: seq<MenuRow>, rows: seq<Pick>, ids: seq<Id>, product: Id, price: int)
    requires Consistent(db) && IsMenuListing(db, branch, today, keys, listing) && IsMenuJoin(db, branch, today, rows)
    requires product in ids
    ensures forall r :: r in DistinctOn(rows) ==> r.product in db.products && (r.menu, r.product) in db.items
    ensures MenuRow(product, price, true) in listing <==>
      product in PriceProducts(db, branch, DistinctOn(rows), ids)
        && PriceProducts(db, branch, DistinctOn(rows), ids)[product] == price
  {
    WinnersInTables(db, branch, today, rows);
    PricedExactly(db, branch, DistinctOn(rows), ids, product);
    if MenuRow(product, price, true) in listing {
      ShownIsPriced(db, branch, today, keys, listing, rows, product, price);
    }
    if product in PriceProducts(db, branch, DistinctOn(rows), ids)
      && PriceProducts(db, branch, DistinctOn(rows), ids)[product] == price
    {
      var i :| 0 <= i < |DistinctOn(rows)| && DistinctOn(rows)[i].product == product;
      PricedIsShown(db, branch, today, keys, listing, rows, DistinctOn(rows)[i]);
    }
  }

  lemma ShownIsPriced(db: Tables, branch: Id, today: int, keys: seq<(Pick, Option<nat>)>, listing: seq<MenuRow>,
                      rows: seq<Pick>, product: Id, price: int)
    requires IsMenuListing(db, branch, today, keys, listing) && IsMenuJoin(db, branch, today, rows)
    requires MenuRow(product, price, true) in listing
    ensures OpenSomewhere(db, product)
    ensures exists w: Pick ::
      w in DistinctOn(rows) && w.product == product && product in db.products && (w.menu, product) in db.items
        && DinerPrice(db, branch, w) == price
  {
    var k :| 0 <= k < |listing| && listing[k] == MenuRow(product, price, true);
    assert keys[k] in keys && IsMenuRow(db, branch, keys[k], listing[k]);
    VisibleAreWinners(db, branch, today, rows, keys[k].0);
  }

  lemma PricedIsShown(db: Tables, branch: Id, today: int, keys: seq<(Pick, Option<nat>)>, listing: seq<MenuRow>,
                      rows: seq<Pick>, w: Pick)
    requires IsMenuListing(db, branch, today, keys, listing) && IsMenuJoin(db, branch, today, rows)
    requires w in DistinctOn(rows) && OpenSomewhere(db, w.product) && w.product in db.products
      && (w.menu, w.product) in db.items
    ensures MenuRow(w.product, DinerPrice(db, branch, w), true) in listing
  {
    VisibleAreWinners(db, branch, today, rows, w);
    var row := OpenRow(db, w.product);
    assert (w, row) in keys;
    var k :| 0 <= k < |keys| && keys[k] == (w, row);
    assert IsMenuRow(db, branch, keys[k], listing[k]);
  }

  /**
   * A product is listed at most once exactly when it has at most one availability row; nothing in the
   * unique key prevents a second one, and then the menu shows the product twice.
   */
  lemma ListedOnceExactly(db: Tables, branch: Id, today: int, keys: seq<(Pick, Option<nat>)>, listing: seq<MenuRow>,
                          w: Pick)
    requires IsMenuListing(db, branch, today, keys, listing) && IsWinner(db, branch, today, w)
    ensures (forall a, b :: 0 <= a < b < |listing| ==> !(listing[a].product == w.product == listing[b].product)) <==>
      (forall i, j :: 0 <= i < j < |db.dineIn| ==> !(db.dineIn[i].product == w.product == db.dineIn[j].product))
  {
    if i, j :| 0 <= i < j < |db.dineIn| && db.dineIn[i].product == w.product == db.dineIn[j].product {
      assert (w, Some(i)) in keys && (w, Some(j)) in keys;
      var a :| 0 <= a < |keys| && keys[a] == (w, Some(i));
      var b :| 0 <= b < |keys| && keys[b] == (w, Some(j));
      assert IsMenuRow(db, branch, keys[a], listing[a]) && IsMenuRow(db, branch, keys[b], listing[b]);
      assert a != b;
      assert listing[a].product == w.product == listing[b].product;
    } else {
      forall a, b | 0 <= a < b < |listing| ensures !(listing[a].product == w.product == listing[b].product) {
        RowsOfOneProduct(db, branch, today, keys, listing, w, a, b);
      }
    }
  }

  lemma RowsOfOneProduct(db: Tables, branch: Id, today: int, keys: seq<(Pick, Option<nat>)>, listing: seq<MenuRow>,
                         w: Pick, a: nat, b: nat)
    requires IsMenuListing(db, branch, today, keys, listing) && IsWinner(db, branch, today, w) && a < b < |listing|
    requires forall i, j :: 0 <= i < j < |db.dineIn| ==> !(db.dineIn[i].product == w.product == db.dineIn[j].product)
    ensures !(listing[a].product == w.product == listing[b].product)
  {
    assert keys[a] in keys && keys[b] in keys && keys[a] != keys[b];
    assert IsMenuRow(db, branch, keys[a], listing[a]) && IsMenuRow(db, branch, keys[b], listing[b]);
    if keys[a].0.product == w.product == keys[b].0.product {
      WinnerIsUnique(db, branch, today, keys[a].0, w);
      WinnerIsUnique(db, branch, today, keys[b].0, w);
      JoinsOnce(db, w.product, keys[a].1, keys[b].1);
    }
  }

  lemma JoinsOnce(db: Tables, product: Id, r: Option<nat>, r': Option<nat>)
    requires Joins(db, product, r) && Joins(db, product, r')
    requires forall i, j :: 0 <= i < j < |db.dineIn| ==> !(db.dineIn[i].product == product == db.dineIn[j].product)
    ensures r == r'
  {
  }

  /** A soup on menu 2 of all branches, with one row that closes it for diners and one that opens it. */
  const TWICE: Tables := Tables(
    map[1 := Product("Soup", 900, "TRY", 1000, true, None, 0)], map[], map[], map[], map[], map[],
    map[2 := Menu(None, true, None, None, 0)], map[(2, 1) := MenuItem(None, true)],
    [ChannelRow(1, false), ChannelRow(1, true)])

  /** The soup is listed twice, once as closed and once as available. */
  lemma SoupListedTwice(branch: Id, today: int)
    ensures Consistent(TWICE)
    ensures var keys := [(Pick(1, 2), Some(0)), (Pick(1, 2), Some(1))];
      IsMenuListing(TWICE, branch, today, keys, [MenuRow(1, 900, false), MenuRow(1, 900, true)])
  {
    var keys := [(Pick(1, 2), Some(0)), (Pick(1, 2), Some(1))];
    assert OnMenu(TWICE, branch, today, 1, 2);
    assert keys[0] in keys && keys[1] in keys;
    forall k ensures k in keys <==> IsWinner(TWICE, branch, today, k.0) && Joins(TWICE, k.0.product, k.1) {
      if IsWinner(TWICE, branch, today, k.0) {
        assert k.0 == Pick(1, 2) && TWICE.dineIn[0].product == 1;
      }
    }
  }

  // ---------------------------------------------------------------- the counter's price

  datatype ListedProduct = ListedProduct(id: Id, price: int, overridden: bool)

  /** The branch's override of a listed product, if it has one. */
  function OverrideOf(db: Tables, branch: Id, product: Id): Option<Override> {
    if branch != 0 && (branch, product) in db.overrides then Some(db.overrides[(branch, product)]) else None
  }

  /** The overrides of one branch for the listed products, keyed by product. */
  function MapForBranch(db: Tables, branch: Id, ids: seq<Id>): map<Id, Override> {
    map p | p in ids && OverrideOf(db, branch, p).Some? :: OverrideOf(db, branch, p).value
  }

  /** Folds a branch's overrides into a product listing; the nil branch gets the tenant's prices. */
  method ApplyToProducts(db: Tables, branch: Id, products: seq<Id>) returns (out: seq<ListedProduct>)
    requires Consistent(db) && Distinct(products) && forall p :: p in products ==> p in db.products
    ensures IsProductListing(db, branch, products, out)
    ensures forall a, b :: 0 <= a < b < |out| ==> out[a].id != out[b].id
  {
    out := [];
    if branch == 0 {
      for i := 0 to |products|
        invariant forall l :: l in out ==> l.id in products[..i]
        invariant forall a, b :: 0 <= a < b < |out| ==> out[a].id != out[b].id
        invariant forall k :: 0 <= k < i ==> AppliedTo(db, branch, products[k], out)
      {
        ghost var before := out;
        assert products[..i + 1] == products[..i] + [products[i]] && products[i] !in products[..i];
        out := out + [ListedProduct(products[i], db.products[products[i]].price, false)];
        forall k | 0 <= k < i + 1 ensures AppliedTo(db, branch, products[k], out) {
          AppliedStays(db, branch, products[k], before, out, products[i]);
        }
      }
      return;
    }
    var overrides := MapForBranch(db, branch, products);
    for i := 0 to |products|
      invariant forall l :: l in out ==> l.id in products[..i]
      invariant forall a, b :: 0 <= a < b < |out| ==> out[a].id != out[b].id
      invariant forall k :: 0 <= k < i ==> AppliedTo(db, branch, products[k], out)
    {
      var p := products[i];
      ghost var before := out;
      assert products[..i + 1] == products[..i] + [p] && p !in products[..i];
      if !(p in overrides && !overrides[p].available) {
        if p in overrides && overrides[p].price.Some? {
          out := out + [ListedProduct(p, overrides[p].price.value, true)];
        } else {
          out := out + [ListedProduct(p, db.products[p].price, false)];
        }
      }
      forall k | 0 <= k < i + 1 ensures AppliedTo(db, branch, products[k], out) {
        AppliedStays(db, branch, products[k], before, out, p);
      }
    }
  }

  ghost predicate IsProductListing(db: Tables, branch: Id, products: seq<Id>, out: seq<ListedProduct>) {
    (forall l :: l in out ==> l.id in products) && forall p :: p in products ==> AppliedTo(db, branch, p, out)
  }

  /** A listed product that is active is one the counter prices, at the listed price; and the other way round. */
  lemma ListedIsCharged(db: Tables, branch: Id, products: seq<Id>, out: seq<ListedProduct>, l: ListedProduct)
    requires IsProductListing(db, branch, products, out) && l.id in db.products && db.products[l.id].active
    requires l.overridden == OverridesPrice(db, branch, l.id)
    ensures l in out <==>
      l.id in PriceCatalogProducts(db, branch, products)
        && PriceCatalogProducts(db, branch, products)[l.id].price == l.price
  {
    if l.id in products {
      assert AppliedTo(db, branch, l.id, out);
    }
  }

  /** What the listing says of one product. */
  ghost predicate AppliedTo(db: Tables, branch: Id, p: Id, out: seq<ListedProduct>) {
    && p in db.products
    && forall l: ListedProduct :: l.id == p ==> (l in out <==>
         !SwitchedOff(db, branch, p)
           && l == ListedProduct(p, CounterPrice(db, branch, p), OverridesPrice(db, branch, p)))
  }

  lemma AppliedStays(db: Tables, branch: Id, q: Id, before: seq<ListedProduct>, out: seq<ListedProduct>, p: Id)
    requires Consistent(db) && p in db.products
    requires q != p ==> AppliedTo(db, branch, q, before)
    requires forall l :: l in before ==> l.id != p
    requires out == if SwitchedOff(db, branch, p) then before
                    else before + [ListedProduct(p, CounterPrice(db, branch, p), OverridesPrice(db, branch, p))]
    ensures AppliedTo(db, branch, q, out)
  {
  }

  predicate OverridesPrice(db: Tables, branch: Id, p: Id) {
    (branch, p) in db.overrides && db.overrides[(branch, p)].price.Some?
  }

  function CounterPrice(db: Tables, branch: Id, p: Id): int
    requires p in db.products
  {
    if OverridesPrice(db, branch, p) then db.overrides[(branch, p)].price.value else db.products[p].price
  }

  /** The price query of the counter: active products the branch sells, at the branch's price or their own. */
  function PriceCatalogProducts(db: Tables, branch: Id, ids: seq<Id>): map<Id, PricedProduct> {
    map p | p in ids && Sellable(db, branch, p) ::
      PricedProduct(db.products[p].name, CounterPrice(db, branch, p), db.products[p].currency,
                    db.products[p].taxRateBps)
  }

  /**
   * The counter's prices in columns: a requested product is priced exactly if it is active and the branch has not
   * switched it off, at the branch's price if there is one and its own otherwise.
   */
  lemma PricedInColumns(db: Tables, branch: Id, ids: seq<Id>, p: Id)
    ensures var priced := PriceCatalogProducts(db, branch, ids);
      && (p in priced <==>
            p in ids && p in db.products && db.products[p].active
            && ((branch, p) in db.overrides ==> db.overrides[(branch, p)].available))
      && (p in priced ==>
            priced[p] == PricedProduct(db.products[p].name,
                                       if (branch, p) in db.overrides && db.overrides[(branch, p)].price != None
                                       then db.overrides[(branch, p)].price.value else db.products[p].price,
                                       db.products[p].currency, db.products[p].taxRateBps))
  {
  }

  /**
   * Diner and counter disagree on a price exactly when the winning menu sets one that differs and the branch
   * sets none.
   */
  lemma CounterMatchesMenuExactly(db: Tables, branch: Id, today: int, w: Pick, ids: seq<Id>)
    requires IsWinner(db, branch, today, w) && w.product in ids
    ensures w.product in PriceCatalogProducts(db, branch, ids)
    ensures PriceCatalogProducts(db, branch, ids)[w.product].price == DinerPrice(db, branch, w) <==>
      (OverridesPrice(db, branch, w.product)
       || db.items[(w.menu, w.product)].priceOverride in {None, Some(db.products[w.product].price as int)})
  {
  }

  /**
   * End to end at the counter, for one state of the catalog: a listed active product, with options from the
   * folded option tree and any taps in the picker, is charged the listed price plus the chosen deltas.
   */
  lemma CounterChargesWhatItShows(db: Tables, branch: Id, products: seq<Id>, listing: seq<ListedProduct>,
                                  shown: ListedProduct, rows: seq<Row>, i: nat, groups: seq<PickerGroup>,
                                  taps: seq<Tap>, quantity: int)
    requires Consistent(db) && IsProductListing(db, branch, products, listing) && IsListing(db, branch, rows)
    requires shown in listing && shown.id in db.products && db.products[shown.id].active
    requires i < |Fold(rows)| && Fold(rows)[i].product == shown.id && Built(Fold(rows)[i].groups) == Some(groups)
    requires forall k :: 0 <= k < |taps| ==> OnScreen(groups, taps[k])
    ensures var picked := Picked(groups, AfterTaps(groups, taps));
      var line := PriceLine(db, PriceCatalogProducts(db, branch, products), CartLine(shown.id, quantity, Ids(picked)));
      var unit := UnitPriceWith(shown.price, picked);
      if unit < 0 then line == Err(NegativePrice)
      else line.Ok? && line.value.unit == unit && line.value.quantity == quantity && line.value.product == shown.id
  {
    ListingFoldsToTree(db, branch, rows);
    assert AppliedTo(db, branch, shown.id, listing);
    TapsPriceAgrees(db, branch, Fold(rows)[i], groups, taps, PriceCatalogProducts(db, branch, products), quantity);
  }
}
