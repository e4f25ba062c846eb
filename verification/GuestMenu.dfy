/** The menu a diner sees: flat listing rows folded into categories, and modifier rows into each product's groups. */
module GuestMenu {
  import opened Common
  import opened Catalog
  import opened OptionTree
  import opened MenuPricing
  import LineKey

  /** The category columns of a listing row; id 0 stands for products without an active category. */
  datatype Heading = Heading(id: Id, name: string, sort: int)

  datatype Line = Line(heading: Heading, row: MenuRow)

  datatype CategoryMenu = CategoryMenu(heading: Heading, products: seq<MenuRow>)

  const UNCATEGORISED := Heading(0, "", 32767)

  function HeadingOf(db: Tables, product: Id): Heading
    requires product in db.products
  {
    var c := db.products[product].category;
    if c.Some? && c.value in db.categories && db.categories[c.value].active
    then Heading(c.value, db.categories[c.value].name, db.categories[c.value].sort)
    else UNCATEGORISED
  }

  predicate HeadingBefore(a: Heading, b: Heading) {
    a.sort < b.sort || (a.sort == b.sort && (LineKey.Less(a.name, b.name) || (a.name == b.name && a.id < b.id)))
  }

  /** Any two different headings have their order. */
  lemma HeadingsCompare(a: Heading, b: Heading)
    ensures a == b || HeadingBefore(a, b) || HeadingBefore(b, a)
    ensures !(HeadingBefore(a, b) && HeadingBefore(b, a))
  {
    LineKey.Antisymmetric(a.name, b.name);
  }

  /** A result of the listing query: the menu rows, each with its category, in category order. */
  ghost predicate IsGuestListing(db: Tables, branch: Id, today: int, keys: seq<(Pick, Option<nat>)>, lines: seq<Line>) {
    && IsMenuListing(db, branch, today, keys, Rows(lines))
    && (forall l :: l in lines ==> l.row.product in db.products && l.heading == HeadingOf(db, l.row.product))
    && (forall i, j :: 0 <= i < j < |lines| ==>
          lines[i].heading == lines[j].heading || HeadingBefore(lines[i].heading, lines[j].heading))
  }

  function Rows(lines: seq<Line>): (rows: seq<MenuRow>)
    ensures |rows| == |lines| && forall i :: 0 <= i < |lines| ==> rows[i] == lines[i].row
  {
    seq(|lines|, i requires 0 <= i < |lines| => lines[i].row)
  }

  /**
   * Where a row stands: under its product's category if that is active, otherwise under the nameless heading,
   * which is sorted as 32767; headings come by sort order, then name, then id.
   */
  lemma HeadingInColumns(db: Tables, branch: Id, today: int, keys: seq<(Pick, Option<nat>)>, lines: seq<Line>, i: nat,
                         j: nat)
    requires IsGuestListing(db, branch, today, keys, lines) && i < j < |lines|
    ensures lines[i].row.product in db.products
    ensures var h := lines[i].heading; var own := db.products[lines[i].row.product].category;
      if own != None && own.value in db.categories && db.categories[own.value].active
      then h.id == own.value && h.name == db.categories[own.value].name && h.sort == db.categories[own.value].sort
      else h.id == 0 && h.name == "" && h.sort == 32767
    ensures var a, b := lines[i].heading, lines[j].heading;
      a == b || a.sort < b.sort
      || (a.sort == b.sort && (LineKey.Less(a.name, b.name) || (a.name == b.name && a.id < b.id)))
  {
    assert lines[i] in lines;
  }

  // ---------------------------------------------------------------- categories

  /** The row belongs to the last category. */
  predicate Continues(menu: seq<CategoryMenu>, l: Line) {
    menu != [] && menu[|menu| - 1].heading.id == l.heading.id
  }

  function AddLine(menu: seq<CategoryMenu>, l: Line): seq<CategoryMenu> {
    var n := |menu|;
    if Continues(menu, l) then menu[n - 1 := menu[n - 1].(products := menu[n - 1].products + [l.row])]
    else menu + [CategoryMenu(l.heading, [l.row])]
  }

  function FoldMenu(lines: seq<Line>): seq<CategoryMenu> {
    if lines == [] then [] else AddLine(FoldMenu(lines[..|lines| - 1]), lines[|lines| - 1])
  }

  /** The loop over the rows, extending the last category or starting the next. */
  method GroupCategories(lines: seq<Line>) returns (menu: seq<CategoryMenu>)
    ensures menu == FoldMenu(lines)
  {
    menu := [];
    for i := 0 to |lines|
      invariant menu == FoldMenu(lines[..i])
    {
      ghost var before := menu;
      assert lines[..i + 1][..i] == lines[..i];
      if |menu| == 0 || menu[|menu| - 1].heading.id != lines[i].heading.id {
        menu := menu + [CategoryMenu(lines[i].heading, [])];
      }
      var last := menu[|menu| - 1];
      var products := last.products + [lines[i].row];
      menu := menu[|menu| - 1 := last.(products := products)];
      if !Continues(before, lines[i]) {
        assert products == [lines[i].row];
        assert menu == before + [CategoryMenu(lines[i].heading, products)];
      }
    }
    assert lines[..|lines|] == lines;
  }

  function FlattenCategory(c: CategoryMenu): (lines: seq<Line>)
    ensures |lines| == |c.products| && forall i :: 0 <= i < |lines| ==> lines[i] == Line(c.heading, c.products[i])
  {
    seq(|c.products|, i requires 0 <= i < |c.products| => Line(c.heading, c.products[i]))
  }

  function FlattenMenu(menu: seq<CategoryMenu>): seq<Line> {
    if menu == [] then [] else FlattenMenu(menu[..|menu| - 1]) + FlattenCategory(menu[|menu| - 1])
  }

  /** Neighbouring rows of one category carry the same category columns. */
  ghost predicate SameColumns(lines: seq<Line>) {
    forall i :: 0 < i < |lines| && lines[i - 1].heading.id == lines[i].heading.id ==>
      lines[i - 1].heading == lines[i].heading
  }

  lemma FlattenOneMore(menu: seq<CategoryMenu>, c: CategoryMenu)
    ensures FlattenMenu(menu + [c]) == FlattenMenu(menu) + FlattenCategory(c)
  {
    assert (menu + [c])[..|menu|] == menu;
  }

  lemma SameCategoryAppends(front: seq<CategoryMenu>, c: CategoryMenu, l: Line)
    requires c.heading == l.heading
    ensures FlattenMenu(AddLine(front + [c], l)) == FlattenMenu(front + [c]) + [l]
  {
    var c' := c.(products := c.products + [l.row]);
    assert (front + [c])[|front| := c'] == front + [c'];
    FlattenOneMore(front, c);
    FlattenOneMore(front, c');
    assert FlattenCategory(c') == FlattenCategory(c) + [l];
  }

  lemma NewCategoryAppends(menu: seq<CategoryMenu>, l: Line)
    requires !Continues(menu, l)
    ensures FlattenMenu(AddLine(menu, l)) == FlattenMenu(menu) + [l]
  {
    FlattenOneMore(menu, CategoryMenu(l.heading, [l.row]));
    assert FlattenCategory(CategoryMenu(l.heading, [l.row])) == [l];
  }

  /** One more row stands at the end of the flat form, and its category at the end of the menu. */
  lemma AddLineAppends(menu: seq<CategoryMenu>, l: Line)
    requires Continues(menu, l) ==> menu[|menu| - 1].heading == l.heading
    ensures FlattenMenu(AddLine(menu, l)) == FlattenMenu(menu) + [l]
    ensures AddLine(menu, l) != [] && AddLine(menu, l)[|AddLine(menu, l)| - 1].heading == l.heading
  {
    if Continues(menu, l) {
      assert menu == menu[..|menu| - 1] + [menu[|menu| - 1]];
      SameCategoryAppends(menu[..|menu| - 1], menu[|menu| - 1], l);
    } else {
      NewCategoryAppends(menu, l);
    }
  }

  lemma {:induction false} FlattenFoldMenu(lines: seq<Line>)
    requires SameColumns(lines)
    ensures FlattenMenu(FoldMenu(lines)) == lines
    ensures lines != [] ==>
      FoldMenu(lines) != [] && FoldMenu(lines)[|FoldMenu(lines)| - 1].heading == lines[|lines| - 1].heading
  {
    hide AddLine;
    if lines != [] {
      var n := |lines| - 1;
      FlattenFoldMenu(lines[..n]);
      assert n > 0 ==> lines[..n][n - 1] == lines[n - 1];
      AddLineAppends(FoldMenu(lines[..n]), lines[n]);
      assert lines == lines[..n] + [lines[n]];
    }
  }

  lemma BeforeIsStrict(a: Heading, b: Heading, c: Heading)
    requires HeadingBefore(a, b)
    ensures a != b
    ensures HeadingBefore(b, c) ==> HeadingBefore(a, c)
  {
    LineKey.Antisymmetric(a.name, b.name);
    LineKey.Antisymmetric(b.name, c.name);
    LineKey.Antisymmetric(a.name, c.name);
    if HeadingBefore(b, c) && a.sort == b.sort == c.sort {
      LineKey.Transitive(a.name, b.name, c.name);
    }
  }

  /** Categories come strictly one after the other, so none comes twice. */
  ghost predicate InOrder(menu: seq<CategoryMenu>) {
    forall a, b :: 0 <= a < b < |menu| ==> HeadingBefore(menu[a].heading, menu[b].heading)
  }

  lemma AddLineKeepsOrder(menu: seq<CategoryMenu>, l: Line)
    requires InOrder(menu)
    requires menu != [] ==> menu[|menu| - 1].heading == l.heading || HeadingBefore(menu[|menu| - 1].heading, l.heading)
    ensures InOrder(AddLine(menu, l))
  {
    hide HeadingBefore;
    var n := |menu|;
    forall a | 0 <= a < n && !Continues(menu, l) ensures HeadingBefore(menu[a].heading, l.heading) {
      if a < n - 1 {
        BeforeIsStrict(menu[a].heading, menu[n - 1].heading, l.heading);
      }
    }
  }

  lemma {:induction false} FoldMenuIsSorted(lines: seq<Line>)
    requires SameColumns(lines)
    requires forall i, j :: 0 <= i < j < |lines| ==>
      lines[i].heading == lines[j].heading || HeadingBefore(lines[i].heading, lines[j].heading)
    ensures InOrder(FoldMenu(lines))
  {
    hide AddLine;
    hide HeadingBefore;
    if lines != [] {
      var n := |lines| - 1;
      FoldMenuIsSorted(lines[..n]);
      FlattenFoldMenu(lines[..n]);
      AddLineKeepsOrder(FoldMenu(lines[..n]), lines[n]);
    }
  }

  /** How often a product stands in the nested menu. */
  function Shown(menu: seq<CategoryMenu>, product: Id): nat {
    if menu == [] then 0 else Shown(menu[..|menu| - 1], product) + Count(menu[|menu| - 1].products, product)
  }

  function Count(rows: seq<MenuRow>, product: Id): nat {
    if rows == [] then 0
    else if rows[|rows| - 1].product == product then Count(rows[..|rows| - 1], product) + 1
    else Count(rows[..|rows| - 1], product)
  }

  lemma {:induction false} CountAdds(a: seq<MenuRow>, b: seq<MenuRow>, product: Id)
    ensures Count(a + b, product) == Count(a, product) + Count(b, product)
  {
    if b == [] {
      assert a + b == a;
    } else {
      var n := |b| - 1;
      CountAdds(a, b[..n], product);
      assert (a + b)[..|a| + n] == a + b[..n];
    }
  }

  lemma {:induction false} ShownIsCount(menu: seq<CategoryMenu>, product: Id)
    ensures Shown(menu, product) == Count(Rows(FlattenMenu(menu)), product)
  {
    if menu != [] {
      var front, c := menu[..|menu| - 1], menu[|menu| - 1];
      ShownIsCount(front, product);
      assert Rows(FlattenMenu(menu)) == Rows(FlattenMenu(front)) + c.products;
      CountAdds(Rows(FlattenMenu(front)), c.products, product);
    }
  }

  lemma {:induction false} CountPositive(rows: seq<MenuRow>, product: Id)
    ensures Count(rows, product) > 0 <==> exists i :: 0 <= i < |rows| && rows[i].product == product
  {
    if rows != [] {
      var n := |rows| - 1;
      CountPositive(rows[..n], product);
      if i :| 0 <= i < |rows| && rows[i].product == product {
        assert i < n ==> rows[..n][i].product == product;
      }
      if i :| 0 <= i < n && rows[..n][i].product == product {
        assert rows[i].product == product;
      }
    }
  }

  lemma {:induction false} CountAtMostOne(rows: seq<MenuRow>, product: Id)
    ensures Count(rows, product) <= 1 <==>
      forall a, b :: 0 <= a < b < |rows| ==> !(rows[a].product == product == rows[b].product)
  {
    if rows != [] {
      var n := |rows| - 1;
      CountAtMostOne(rows[..n], product);
      CountPositive(rows[..n], product);
      if a, b :| 0 <= a < b < |rows| && rows[a].product == product == rows[b].product {
        assert rows[..n][a].product == product;
        assert b < n ==> rows[..n][b].product == product;
      }
      if a, b :| 0 <= a < b < n && rows[..n][a].product == product == rows[..n][b].product {
        assert rows[a].product == product == rows[b].product;
      }
      if a :| 0 <= a < n && rows[..n][a].product == product {
        assert rows[a].product == product
          && (rows[n].product == product ==> rows[a].product == product == rows[n].product);
      }
    }
  }

  /**
   * The diner's menu over what the query returns: nothing is lost or moved, every category comes once, every
   * product on the menu is there, and it is there once if and only if it has at most one availability row.
   */
  lemma GuestMenuIsExact(db: Tables, branch: Id, today: int, keys: seq<(Pick, Option<nat>)>, lines: seq<Line>, w: Pick)
    requires Consistent(db) && IsGuestListing(db, branch, today, keys, lines) && IsWinner(db, branch, today, w)
    ensures FlattenMenu(FoldMenu(lines)) == lines
    ensures forall a, b :: 0 <= a < b < |FoldMenu(lines)| ==>
      FoldMenu(lines)[a].heading.id != FoldMenu(lines)[b].heading.id
    ensures Shown(FoldMenu(lines), w.product) >= 1
    ensures Shown(FoldMenu(lines), w.product) == 1
       <==> forall i, j :: 0 <= i < j < |db.dineIn| ==> !(db.dineIn[i].product == w.product == db.dineIn[j].product)
  {
    hide FoldMenu;
    hide FlattenMenu;
    hide Shown;
    hide Count;
    hide IsWinner;
    HeadingsByDb(db, lines);
    FlattenFoldMenu(lines);
    FoldMenuIsSorted(lines);
    CategoriesOnce(db, lines);
    ShownIsCount(FoldMenu(lines), w.product);
    CountAtMostOne(Rows(lines), w.product);
    CountPositive(Rows(lines), w.product);
    ListedOnceExactly(db, branch, today, keys, Rows(lines), w);
    var k := KeyOf(db, branch, today, keys, w);
    assert IsMenuRow(db, branch, keys[k], Rows(lines)[k]);
  }

  /** Every visible product has a row. */
  lemma KeyOf(db: Tables, branch: Id, today: int, keys: seq<(Pick, Option<nat>)>, w: Pick) returns (k: nat)
    requires IsWinner(db, branch, today, w)
    requires forall k :: k in keys <==> IsWinner(db, branch, today, k.0) && Joins(db, k.0.product, k.1)
    ensures k < |keys| && keys[k].0 == w
  {
    var row: Option<nat> := None;
    if i :| 0 <= i < |db.dineIn| && db.dineIn[i].product == w.product {
      row := Some(i);
    }
    assert (w, row) in keys;
    k :| 0 <= k < |keys| && keys[k] == (w, row);
  }

  lemma HeadingsByDb(db: Tables, lines: seq<Line>)
    requires Consistent(db)
      && forall l :: l in lines ==> l.row.product in db.products && l.heading == HeadingOf(db, l.row.product)
    ensures SameColumns(lines)
    ensures forall i, j :: 0 <= i < |lines| && 0 <= j < |lines| && lines[i].heading.id == lines[j].heading.id ==>
      lines[i].heading == lines[j].heading
  {
    forall i, j | 0 <= i < |lines| && 0 <= j < |lines| && lines[i].heading.id == lines[j].heading.id
      ensures lines[i].heading == lines[j].heading
    {
      assert lines[i] in lines && lines[j] in lines;
    }
  }

  /** Different headings of the menu have different ids, since the database tells a heading from its id. */
  lemma CategoriesOnce(db: Tables, lines: seq<Line>)
    requires FlattenMenu(FoldMenu(lines)) == lines
    requires forall i, j :: 0 <= i < |lines| && 0 <= j < |lines| && lines[i].heading.id == lines[j].heading.id ==>
      lines[i].heading == lines[j].heading
    requires InOrder(FoldMenu(lines))
    ensures forall a, b :: 0 <= a < b < |FoldMenu(lines)| ==>
      FoldMenu(lines)[a].heading.id != FoldMenu(lines)[b].heading.id
  {
    var menu := FoldMenu(lines);
    forall a, b | 0 <= a < b < |menu| ensures menu[a].heading.id != menu[b].heading.id {
      var i := LineOf(lines, a);
      var j := LineOf(lines, b);
      BeforeIsStrict(menu[a].heading, menu[b].heading, menu[b].heading);
    }
  }

  /** Every category was started by some row. */
  lemma {:induction false} LineOf(lines: seq<Line>, a: nat) returns (i: nat)
    requires a < |FoldMenu(lines)|
    ensures i < |lines| && lines[i].heading == FoldMenu(lines)[a].heading
  {
    var n := |lines| - 1;
    if a < |FoldMenu(lines[..n])| {
      i := LineOf(lines[..n], a);
    } else {
      i := n;
    }
  }

  // ---------------------------------------------------------------- a product's options

  /** A result of the diner's modifier query for the listed products. */
  ghost predicate IsModifierListing(db: Tables, products: seq<Id>, rows: seq<Row>) {
    && Distinct(rows)
    && (forall r :: r in rows <==> r.product in products && IsOption(db, r))
    && (forall i, j :: 0 <= i < j < |rows| ==> NotAfter(db, rows[i], rows[j]))
  }

  predicate IsOption(db: Tables, r: Row) {
    && (r.product, r.group) in db.attached && r.group in db.groups && r.info == db.groups[r.group]
    && r.modifier.Some? && ActiveIn(db, r.modifier.value, r.group)
  }

  function RowsOf(rows: seq<Row>, product: Id): seq<Row> {
    if rows == [] then []
    else if rows[|rows| - 1].product == product then RowsOf(rows[..|rows| - 1], product) + [rows[|rows| - 1]]
    else RowsOf(rows[..|rows| - 1], product)
  }

  function GroupsOf(rows: seq<Row>, product: Id): seq<GroupOptions> {
    if rows == [] then []
    else
      var before, r := GroupsOf(rows[..|rows| - 1], product), rows[|rows| - 1];
      if r.product == product then AddToProduct(ProductOptions(product, before), r).groups else before
  }

  /** The loop over the modifier rows, extending the last group of the row's own product. */
  method GroupModifiers(rows: seq<Row>) returns (byProduct: map<Id, seq<GroupOptions>>)
    ensures forall p :: (if p in byProduct then byProduct[p] else []) == GroupsOf(rows, p)
  {
    byProduct := map[];
    for i := 0 to |rows|
      invariant forall p :: (if p in byProduct then byProduct[p] else []) == GroupsOf(rows[..i], p)
    {
      assert rows[..i + 1][..i] == rows[..i];
      var p := rows[i].product;
      var groups := if p in byProduct then byProduct[p] else [];
      var next := AppendOption(ProductOptions(p, groups), rows[i]);
      byProduct := byProduct[p := next.groups];
    }
    assert rows[..|rows|] == rows;
  }

  lemma {:induction false} GroupsOfIsFold(rows: seq<Row>, product: Id)
    ensures Fold(RowsOf(rows, product))
         == if RowsOf(rows, product) == [] then [] else [ProductOptions(product, GroupsOf(rows, product))]
    ensures RowsOf(rows, product) == [] ==> GroupsOf(rows, product) == []
  {
    if rows != [] {
      var n := |rows| - 1;
      GroupsOfIsFold(rows[..n], product);
      if rows[n].product == product {
        var own := RowsOf(rows[..n], product);
        assert (own + [rows[n]])[..|own|] == own;
      }
    }
  }

  lemma {:induction false} RowsOfMembers(rows: seq<Row>, product: Id)
    ensures forall r :: r in RowsOf(rows, product) <==> r in rows && r.product == product
  {
    if rows != [] {
      var n := |rows| - 1;
      RowsOfMembers(rows[..n], product);
      assert rows == rows[..n] + [rows[n]];
    }
  }

  /** The last row is unlike the earlier ones and not before them. */
  lemma LastComesLast(db: Tables, rows: seq<Row>, r: Row)
    requires Distinct(rows) && forall i, j :: 0 <= i < j < |rows| ==> NotAfter(db, rows[i], rows[j])
    requires rows != [] && r in rows[..|rows| - 1]
    ensures r != rows[|rows| - 1] && NotAfter(db, r, rows[|rows| - 1])
  {
    hide NotAfter;
    var k :| 0 <= k < |rows| - 1 && rows[k] == r;
  }

  /** The rows of one product keep their order and are those of the query. */
  lemma {:induction false} RowsOfAre(db: Tables, rows: seq<Row>, product: Id)
    requires Distinct(rows) && forall i, j :: 0 <= i < j < |rows| ==> NotAfter(db, rows[i], rows[j])
    ensures forall r :: r in RowsOf(rows, product) <==> r in rows && r.product == product
    ensures Distinct(RowsOf(rows, product))
    ensures forall i, j :: 0 <= i < j < |RowsOf(rows, product)| ==>
      NotAfter(db, RowsOf(rows, product)[i], RowsOf(rows, product)[j])
  {
    hide NotAfter;
    RowsOfMembers(rows, product);
    if rows != [] {
      var n := |rows| - 1;
      var own := RowsOf(rows[..n], product);
      RowsOfAre(db, rows[..n], product);
      forall i | 0 <= i < |own| ensures own[i] != rows[n] && NotAfter(db, own[i], rows[n]) {
        assert own[i] in own;
        LastComesLast(db, rows, own[i]);
      }
    }
  }

  /** The product has the group, and the group this active modifier. */
  predicate HasOption(db: Tables, product: Id, g: Id, m: (Id, Modifier)) {
    (product, g) in db.attached && g in db.groups && ActiveIn(db, m, g)
  }

  predicate Offers(groups: seq<GroupOptions>, g: Id, m: (Id, Modifier)) {
    exists j :: 0 <= j < |groups| && groups[j].id == g && m in groups[j].modifiers
  }

  /**
   * A listed product's groups over what the modifier query returns: each attached group with an active
   * modifier exactly once, with its own rules and exactly its active modifiers, and nothing else.
   */
  lemma GuestOptionsAreExact(db: Tables, products: seq<Id>, rows: seq<Row>, product: Id, groups: seq<GroupOptions>)
    requires IsModifierListing(db, products, rows) && product in products && groups == GroupsOf(rows, product)
    ensures forall a, b :: 0 <= a < b < |groups| ==> groups[a].id != groups[b].id
    ensures forall a :: 0 <= a < |groups| ==> groups[a].id in db.groups && groups[a].info == db.groups[groups[a].id]
    ensures forall g, m :: HasOption(db, product, g, m) <==> Offers(groups, g, m)
  {
    var own := RowsOf(rows, product);
    RowsOfAre(db, rows, product);
    GroupsOfIsFold(rows, product);
    FoldIsSorted(db, own);
    OwnRowsFoldBack(db, own);
    if own != [] {
      assert GroupsSorted(db, Fold(own)[0]);
      GroupsDiffer(db, Fold(own)[0]);
    }
    forall a | 0 <= a < |groups| ensures groups[a].id in db.groups && groups[a].info == db.groups[groups[a].id] {
      ListedInfo(db, own, product, groups, a);
    }
    forall g, m ensures HasOption(db, product, g, m) <==> Offers(groups, g, m) {
      if HasOption(db, product, g, m) {
        var r := Row(product, g, db.groups[g], Some(m));
        assert IsOption(db, r) && r in rows;
        OptionIsOffered(own, product, groups, r);
      }
      if j :| 0 <= j < |groups| && groups[j].id == g && m in groups[j].modifiers {
        ListedOption(db, own, product, groups, j, m);
      }
    }
  }

  lemma OptionIsOffered(own: seq<Row>, product: Id, groups: seq<GroupOptions>, r: Row)
    requires Flatten([ProductOptions(product, groups)]) == own && r in own && r.modifier.Some?
    ensures Offers(groups, r.group, r.modifier.value)
  {
    var i, j := PlaceOfRow([ProductOptions(product, groups)], r);
    assert groups[j].id == r.group && r.modifier.value in groups[j].modifiers;
  }

  lemma OwnRowsFoldBack(db: Tables, own: seq<Row>)
    requires forall r :: r in own ==> IsOption(db, r)
    ensures Flatten(Fold(own)) == own
  {
    forall i | 0 <= i < |own| ensures IsOption(db, own[i]) {
      assert own[i] in own;
    }
    FlattenFold(own);
  }

  lemma ListedInfo(db: Tables, own: seq<Row>, product: Id, groups: seq<GroupOptions>, j: nat)
    requires (forall r :: r in own ==> IsOption(db, r)) && Flatten([ProductOptions(product, groups)]) == own
    requires j < |groups|
    ensures groups[j].id in db.groups && groups[j].info == db.groups[groups[j].id]
  {
    var part := FlattenGroup(product, groups[j]);
    var k := TreeSlice([ProductOptions(product, groups)], 0, j);
    assert own[k..k + |part|][0] == own[k] && own[k] in own;
    assert part[0].group == groups[j].id && part[0].info == groups[j].info;
  }

  lemma ListedOption(db: Tables, own: seq<Row>, product: Id, groups: seq<GroupOptions>, j: nat, m: (Id, Modifier))
    requires (forall r :: r in own ==> IsOption(db, r)) && Flatten([ProductOptions(product, groups)]) == own
    requires j < |groups| && m in groups[j].modifiers
    ensures (product, groups[j].id) in db.attached && groups[j].id in db.groups && ActiveIn(db, m, groups[j].id)
  {
    var part := FlattenGroup(product, groups[j]);
    var k := TreeSlice([ProductOptions(product, groups)], 0, j);
    var x :| 0 <= x < |groups[j].modifiers| && groups[j].modifiers[x] == m;
    assert own[k..k + |part|][x] == own[k + x] && own[k + x] in own;
    assert part[x] == Row(product, groups[j].id, groups[j].info, Some(m));
  }
}
