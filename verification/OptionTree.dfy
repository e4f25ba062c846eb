/** The option tree of every sellable product: flat ordered rows folded into products, groups and modifiers. */
module OptionTree {
  import opened Common
  import opened Catalog

  /** One row of the option query; a group without active modifiers has one row without a modifier. */
  datatype Row = Row(product: Id, group: Id, info: Group, modifier: Option<(Id, Modifier)>)

  datatype GroupOptions = GroupOptions(id: Id, info: Group, modifiers: seq<(Id, Modifier)>)

  datatype ProductOptions = ProductOptions(product: Id, groups: seq<GroupOptions>)

  // ---------------------------------------------------------------- the query

  predicate ActiveIn(db: Tables, m: (Id, Modifier), group: Id) {
    m.0 in db.modifiers && db.modifiers[m.0] == m.1 && m.1.active && m.1.group == group
  }

  predicate Attached(db: Tables, branch: Id, product: Id, group: Id) {
    (product, group) in db.attached && group in db.groups && Sellable(db, branch, product)
  }

  ghost predicate IsRow(db: Tables, branch: Id, r: Row) {
    && Attached(db, branch, r.product, r.group)
    && r.info == db.groups[r.group]
    && match r.modifier
       case Some(m) => ActiveIn(db, m, r.group)
       case None => forall m :: !ActiveIn(db, m, r.group)
  }

  /** Earlier in the order: product, then assignment order, group order, group id. */
  predicate GroupBefore(db: Tables, product: Id, g: Id, product': Id, g': Id) {
    && (product, g) in db.attached && (product', g') in db.attached && g in db.groups && g' in db.groups
    && var (a, b) := (db.attached[(product, g)], db.attached[(product', g')]);
       var (x, y) := (db.groups[g].sort, db.groups[g'].sort);
       product < product' || (product == product' && (a < b || (a == b && (x < y || (x == y && g < g')))))
  }

  /** Any two different groups of products have their order. */
  lemma GroupsCompare(db: Tables, product: Id, g: Id, product': Id, g': Id)
    requires (product, g) in db.attached && (product', g') in db.attached && g in db.groups && g' in db.groups
    ensures (product == product' && g == g') || GroupBefore(db, product, g, product', g')
            || GroupBefore(db, product', g', product, g)
    ensures !(GroupBefore(db, product, g, product', g') && GroupBefore(db, product', g', product, g))
  {
  }

  predicate NotAfter(db: Tables, r: Row, r': Row) {
    GroupBefore(db, r.product, r.group, r'.product, r'.group) || (r.product == r'.product && r.group == r'.group)
  }

  /** Rows are in order by their groups, and any rows of one group are. */
  lemma RowsCompare(db: Tables, r: Row, r': Row)
    ensures GroupBefore(db, r.product, r.group, r'.product, r'.group) ==> NotAfter(db, r, r')
    ensures r.product == r'.product && r.group == r'.group ==> NotAfter(db, r, r')
  {
  }

  /** A result of the option query for a branch; the order of modifiers within a group is left open. */
  ghost predicate IsListing(db: Tables, branch: Id, rows: seq<Row>) {
    && Distinct(rows)
    && (forall r :: r in rows <==> IsRow(db, branch, r))
    && (forall i, j :: 0 <= i < j < |rows| ==> NotAfter(db, rows[i], rows[j]))
  }

  // ---------------------------------------------------------------- the fold

  function AddToGroup(g: GroupOptions, r: Row): GroupOptions {
    if r.modifier.Some? then g.(modifiers := g.modifiers + [r.modifier.value]) else g
  }

  function AddToProduct(p: ProductOptions, r: Row): (next: ProductOptions)
    ensures next.groups != []
  {
    var n := |p.groups|;
    if n == 0 || p.groups[n - 1].id != r.group
    then p.(groups := p.groups + [AddToGroup(GroupOptions(r.group, r.info, []), r)])
    else p.(groups := p.groups[n - 1 := AddToGroup(p.groups[n - 1], r)])
  }

  predicate SameProduct(tree: seq<ProductOptions>, r: Row) {
    tree != [] && tree[|tree| - 1].product == r.product
  }

  function AddRow(tree: seq<ProductOptions>, r: Row): (next: seq<ProductOptions>)
    ensures next != []
  {
    var n := |tree|;
    if SameProduct(tree, r) then tree[n - 1 := AddToProduct(tree[n - 1], r)]
    else tree + [AddToProduct(ProductOptions(r.product, []), r)]
  }

  function Fold(rows: seq<Row>): seq<ProductOptions> {
    if rows == [] then [] else AddRow(Fold(rows[..|rows| - 1]), rows[|rows| - 1])
  }

  /** Extends a product's last group, or starts its next one. */
  method AppendOption(product: ProductOptions, row: Row) returns (out: ProductOptions)
    ensures out == AddToProduct(product, row)
  {
    out := product;
    if |out.groups| == 0 || out.groups[|out.groups| - 1].id != row.group {
      out := out.(groups := out.groups + [GroupOptions(row.group, row.info, [])]);
    }
    if row.modifier.Some? {
      var last := |out.groups| - 1;
      var g := out.groups[last];
      out := out.(groups := out.groups[last := g.(modifiers := g.modifiers + [row.modifier.value])]);
    }
  }

  /** The loop over the rows, always extending the last product and the last group. */
  method FoldOptionTree(rows: seq<Row>) returns (out: seq<ProductOptions>)
    ensures out == Fold(rows)
  {
    out := [];
    for i := 0 to |rows|
      invariant out == Fold(rows[..i])
    {
      assert rows[..i + 1][..i] == rows[..i];
      if |out| == 0 || out[|out| - 1].product != rows[i].product {
        out := out + [ProductOptions(rows[i].product, [])];
      }
      var product := AppendOption(out[|out| - 1], rows[i]);
      out := out[|out| - 1 := product];
    }
    assert rows[..|rows|] == rows;
  }

  // ---------------------------------------------------------------- and back

  function FlattenGroup(product: Id, g: GroupOptions): (rows: seq<Row>)
    ensures |rows| > 0
  {
    if g.modifiers == [] then [Row(product, g.id, g.info, None)]
    else seq(|g.modifiers|, i requires 0 <= i < |g.modifiers| => Row(product, g.id, g.info, Some(g.modifiers[i])))
  }

  function FlattenGroups(product: Id, groups: seq<GroupOptions>): seq<Row> {
    if groups == [] then []
    else FlattenGroups(product, groups[..|groups| - 1]) + FlattenGroup(product, groups[|groups| - 1])
  }

  function Flatten(tree: seq<ProductOptions>): seq<Row> {
    if tree == [] then []
    else Flatten(tree[..|tree| - 1]) + FlattenGroups(tree[|tree| - 1].product, tree[|tree| - 1].groups)
  }

  predicate SameGroup(r: Row, r': Row) {
    r.product == r'.product && r.group == r'.group
  }

  /** A row is lost when it meets a row of the same group and one of the two has no modifier. */
  predicate Lost(rows: seq<Row>, i: nat)
    requires 0 < i < |rows|
  {
    SameGroup(rows[i - 1], rows[i]) && (rows[i - 1].modifier.None? || rows[i].modifier.None?)
  }

  /** Adjacent rows of one group carry the same group columns. */
  ghost predicate GroupColumns(rows: seq<Row>) {
    forall i :: 0 < i < |rows| && SameGroup(rows[i - 1], rows[i]) ==> rows[i - 1].info == rows[i].info
  }

  /** The end of a fold is the last row's product and group. */
  ghost predicate EndsWith(tree: seq<ProductOptions>, r: Row) {
    && tree != []
    && var p := tree[|tree| - 1];
       p.product == r.product && p.groups != [] && p.groups[|p.groups| - 1].id == r.group
  }

  lemma {:induction false} FoldEnds(rows: seq<Row>)
    requires rows != []
    ensures EndsWith(Fold(rows), rows[|rows| - 1])
  {
  }

  lemma FlattenGrows(tree: seq<ProductOptions>, p: ProductOptions)
    ensures Flatten(tree + [p]) == Flatten(tree) + FlattenGroups(p.product, p.groups)
  {
    assert (tree + [p])[..|tree|] == tree;
  }

  lemma GroupsGrow(product: Id, groups: seq<GroupOptions>, g: GroupOptions)
    ensures FlattenGroups(product, groups + [g]) == FlattenGroups(product, groups) + FlattenGroup(product, g)
  {
    assert (groups + [g])[..|groups|] == groups;
  }

  function LastGroup(tree: seq<ProductOptions>): GroupOptions
    requires tree != [] && tree[|tree| - 1].groups != []
  {
    var p := tree[|tree| - 1];
    p.groups[|p.groups| - 1]
  }

  /** A row of a new group is appended to the flat form. */
  lemma NewGroupAppends(tree: seq<ProductOptions>, r: Row)
    requires !EndsWith(tree, r)
    ensures Flatten(AddRow(tree, r)) == Flatten(tree) + [r]
    ensures LastGroup(AddRow(tree, r)) == AddToGroup(GroupOptions(r.group, r.info, []), r)
  {
    var n := |tree|;
    var g := AddToGroup(GroupOptions(r.group, r.info, []), r);
    assert FlattenGroup(r.product, g) == [r];
    if n == 0 || tree[n - 1].product != r.product {
      FlattenGrows(tree, ProductOptions(r.product, [] + [g]));
      GroupsGrow(r.product, [], g);
    } else {
      var p := tree[n - 1];
      var p' := p.(groups := p.groups + [g]);
      assert AddRow(tree, r) == tree[..n - 1] + [p'] && tree == tree[..n - 1] + [p];
      FlattenGrows(tree[..n - 1], p');
      FlattenGrows(tree[..n - 1], p);
      GroupsGrow(r.product, p.groups, g);
    }
  }

  /** A further row of the last group replaces that group's part of the flat form. */
  lemma SameGroupReplaces(tree: seq<ProductOptions>, r: Row)
    requires EndsWith(tree, r)
    ensures var g := LastGroup(tree); exists front: seq<Row> ::
      && Flatten(tree) == front + FlattenGroup(r.product, g)
      && Flatten(AddRow(tree, r)) == front + FlattenGroup(r.product, AddToGroup(g, r))
    ensures LastGroup(AddRow(tree, r)) == AddToGroup(LastGroup(tree), r)
  {
    hide Flatten;
    hide FlattenGroups;
    hide FlattenGroup;
    hide AddToGroup;
    var n := |tree|;
    var p := tree[n - 1];
    var groups := p.groups[..|p.groups| - 1];
    var g := LastGroup(tree);
    var p' := p.(groups := groups + [AddToGroup(g, r)]);
    assert p.groups == groups + [g] && p.groups[|p.groups| - 1 := AddToGroup(g, r)] == groups + [AddToGroup(g, r)];
    assert AddRow(tree, r) == tree[..n - 1] + [p'] && tree == tree[..n - 1] + [p];
    FlattenGrows(tree[..n - 1], p');
    FlattenGrows(tree[..n - 1], p);
    GroupsGrow(r.product, groups, g);
    GroupsGrow(r.product, groups, AddToGroup(g, r));
    var front := Flatten(tree[..n - 1]) + FlattenGroups(r.product, groups);
    assert Flatten(tree) == front + FlattenGroup(r.product, g);
    assert Flatten(AddRow(tree, r)) == front + FlattenGroup(r.product, AddToGroup(g, r));
  }

  /** The last group of a fold: empty exactly when the last rows of that group had no modifier. */
  ghost predicate LastGroupMatches(tree: seq<ProductOptions>, r: Row) {
    && EndsWith(tree, r) && LastGroup(tree).info == r.info
    && (r.modifier.Some? ==> LastGroup(tree).modifiers != [])
  }

  /** One more row: kept at the end of the flat form, or lost. */
  lemma FlattenStep(tree: seq<ProductOptions>, last: Row, r: Row)
    requires LastGroupMatches(tree, last)
    requires SameGroup(last, r) ==> last.info == r.info
    ensures LastGroupMatches(AddRow(tree, r), r)
    ensures !SameGroup(last, r) || (last.modifier.Some? && r.modifier.Some?) ==>
      Flatten(AddRow(tree, r)) == Flatten(tree) + [r]
    ensures SameGroup(last, r) && r.modifier.None? ==> Flatten(AddRow(tree, r)) == Flatten(tree)
    ensures SameGroup(last, r) && r.modifier.Some? && LastGroup(tree).modifiers == [] ==>
      |Flatten(AddRow(tree, r))| == |Flatten(tree)|
    ensures |Flatten(AddRow(tree, r))| <= |Flatten(tree)| + 1
  {
    hide Flatten;
    hide FlattenGroups;
    if SameGroup(last, r) {
      SameGroupReplaces(tree, r);
      var g := LastGroup(tree);
      var g' := AddToGroup(g, r);
      var front: seq<Row> :| Flatten(tree) == front + FlattenGroup(r.product, g)
        && Flatten(AddRow(tree, r)) == front + FlattenGroup(r.product, g');
      if r.modifier.Some? && g.modifiers != [] {
        assert FlattenGroup(r.product, g') == FlattenGroup(r.product, g) + [r];
      }
    } else {
      NewGroupAppends(tree, r);
    }
  }

  ghost predicate Lossless(rows: seq<Row>) {
    forall i :: 0 < i < |rows| ==> !Lost(rows, i)
  }

  lemma LosslessGrows(front: seq<Row>, r: Row)
    requires front != []
    ensures Lossless(front + [r]) <==> Lossless(front) && !Lost(front + [r], |front|)
  {
    forall i | 0 < i < |front| ensures Lost(front + [r], i) == Lost(front, i) {
    }
  }

  lemma GroupColumnsGrow(front: seq<Row>, r: Row)
    requires GroupColumns(front + [r]) && front != []
    ensures GroupColumns(front) && (SameGroup(front[|front| - 1], r) ==> front[|front| - 1].info == r.info)
  {
    var rows := front + [r];
    assert rows[|front|] == r && rows[|front| - 1] == front[|front| - 1];
    forall i | 0 < i < |front| && SameGroup(front[i - 1], front[i]) ensures front[i - 1].info == front[i].info {
      assert SameGroup(rows[i - 1], rows[i]);
    }
  }

  /**
   * Folding and flattening again gives the rows back exactly when no row is lost; any loss makes the flat
   * form shorter.
   */
  lemma {:induction false} FlattenFold(rows: seq<Row>)
    requires GroupColumns(rows)
    ensures Flatten(Fold(rows)) == rows <==> Lossless(rows)
    ensures |Flatten(Fold(rows))| <= |rows|
    ensures Flatten(Fold(rows)) != rows ==> |Flatten(Fold(rows))| < |rows|
    ensures rows != [] ==> LastGroupMatches(Fold(rows), rows[|rows| - 1])
    ensures rows != [] && Lossless(rows) && rows[|rows| - 1].modifier.None? ==> LastGroup(Fold(rows)).modifiers == []
  {
    if rows != [] {
      var n := |rows| - 1;
      var front, r := rows[..n], rows[n];
      assert rows == front + [r];
      assert Fold(rows) == AddRow(Fold(front), r);
      if n == 0 {
        NewGroupAppends([], r);
      } else {
        GroupColumnsGrow(front, r);
        LosslessGrows(front, r);
        FlattenFold(front);
        FlattenStep(Fold(front), front[n - 1], r);
        FoldMore(Fold(front), front, r);
      }
    }
  }

  /** The step of the fold from a prefix to one more row. */
  lemma FoldMore(tree: seq<ProductOptions>, front: seq<Row>, r: Row)
    requires front != [] && LastGroupMatches(tree, front[|front| - 1])
    requires SameGroup(front[|front| - 1], r) ==> front[|front| - 1].info == r.info
    requires |Flatten(tree)| <= |front| && (Flatten(tree) != front ==> |Flatten(tree)| < |front|)
    requires Flatten(tree) == front && front[|front| - 1].modifier.None? ==> LastGroup(tree).modifiers == []
    ensures Flatten(AddRow(tree, r)) == front + [r] <==> Flatten(tree) == front && !Lost(front + [r], |front|)
    ensures |Flatten(AddRow(tree, r))| <= |front| + 1
    ensures Flatten(AddRow(tree, r)) != front + [r] ==> |Flatten(AddRow(tree, r))| < |front| + 1
    ensures Flatten(AddRow(tree, r)) == front + [r] && r.modifier.None? ==> LastGroup(AddRow(tree, r)).modifiers == []
  {
    var last := front[|front| - 1];
    FlattenStep(tree, last, r);
    if !SameGroup(last, r) {
      NewGroupAppends(tree, r);
    }
  }

  // ---------------------------------------------------------------- the tree of a listing

  /** Every row of the query is kept: the tree flattens back to it. */
  lemma ListingIsLossless(db: Tables, branch: Id, rows: seq<Row>)
    requires IsListing(db, branch, rows)
    ensures GroupColumns(rows) && Flatten(Fold(rows)) == rows
  {
    forall i | 0 <= i < |rows| ensures IsRow(db, branch, rows[i]) {
      assert rows[i] in rows;
    }
    forall i | 0 < i < |rows| ensures !Lost(rows, i) {
      assert rows[i - 1] != rows[i];
    }
    FlattenFold(rows);
  }

  /** Products and, within a product, groups come strictly one after the other. */
  ghost predicate StrictlySorted(db: Tables, tree: seq<ProductOptions>) {
    && (forall i, j :: 0 <= i < j < |tree| ==> tree[i].product < tree[j].product)
    && (forall i :: 0 <= i < |tree| ==> GroupsSorted(db, tree[i]))
  }

  ghost predicate GroupsSorted(db: Tables, p: ProductOptions) {
    forall a, b :: 0 <= a < b < |p.groups| ==> GroupBefore(db, p.product, p.groups[a].id, p.product, p.groups[b].id)
  }

  lemma AppendKeepsSorted(db: Tables, p: ProductOptions, r: Row)
    requires GroupsSorted(db, p) && p.product == r.product
    requires p.groups != [] ==>
      p.groups[|p.groups| - 1].id == r.group
        || GroupBefore(db, p.product, p.groups[|p.groups| - 1].id, r.product, r.group)
    ensures GroupsSorted(db, AddToProduct(p, r))
  {
    var p', n := AddToProduct(p, r), |p.groups|;
    forall a, b | 0 <= a < b < |p'.groups|
      ensures GroupBefore(db, p.product, p'.groups[a].id, p.product, p'.groups[b].id)
    {
      if b == n && a < n - 1 {
        assert GroupBefore(db, p.product, p.groups[a].id, p.product, p.groups[n - 1].id);
      }
    }
  }

  lemma {:induction false} FoldIsSorted(db: Tables, rows: seq<Row>)
    requires forall i, j :: 0 <= i < j < |rows| ==> NotAfter(db, rows[i], rows[j])
    ensures StrictlySorted(db, Fold(rows))
  {
    if |rows| == 1 {
      assert rows[..0] == [];
    }
    if |rows| > 1 {
      var n := |rows| - 1;
      var front, r := rows[..n], rows[n];
      FoldIsSorted(db, front);
      FoldEnds(front);
      assert NotAfter(db, front[n - 1], r);
      var tree := Fold(front);
      if SameProduct(tree, r) {
        AppendKeepsSorted(db, tree[|tree| - 1], r);
      }
    }
  }

  /** Where a group's rows stand in the flat form. */
  lemma {:induction false} GroupsSlice(product: Id, groups: seq<GroupOptions>, j: nat) returns (k: nat)
    requires j < |groups|
    ensures var part := FlattenGroup(product, groups[j]);
      k + |part| <= |FlattenGroups(product, groups)| && FlattenGroups(product, groups)[k..k + |part|] == part
  {
    hide FlattenGroup;
    var n := |groups| - 1;
    if j < n {
      k := GroupsSlice(product, groups[..n], j);
      var part := FlattenGroup(product, groups[j]);
      assert FlattenGroups(product, groups)[k..k + |part|] == FlattenGroups(product, groups[..n])[k..k + |part|];
    } else {
      k := |FlattenGroups(product, groups[..n])|;
    }
  }

  lemma {:induction false} TreeSlice(tree: seq<ProductOptions>, i: nat, j: nat) returns (k: nat)
    requires i < |tree| && j < |tree[i].groups|
    ensures var part := FlattenGroup(tree[i].product, tree[i].groups[j]);
      k + |part| <= |Flatten(tree)| && Flatten(tree)[k..k + |part|] == part
  {
    hide FlattenGroup;
    hide FlattenGroups;
    var n := |tree| - 1;
    if i < n {
      k := TreeSlice(tree[..n], i, j);
      var part := FlattenGroup(tree[i].product, tree[i].groups[j]);
      assert Flatten(tree)[k..k + |part|] == Flatten(tree[..n])[k..k + |part|];
    } else {
      var inner := GroupsSlice(tree[n].product, tree[n].groups, j);
      k := |Flatten(tree[..n])| + inner;
    }
  }

  lemma {:induction false} GroupOfRow(product: Id, groups: seq<GroupOptions>, r: Row) returns (j: nat)
    requires r in FlattenGroups(product, groups)
    ensures j < |groups| && r in FlattenGroup(product, groups[j])
  {
    var n := |groups| - 1;
    if r in FlattenGroup(product, groups[n]) {
      j := n;
    } else {
      j := GroupOfRow(product, groups[..n], r);
    }
  }

  lemma {:induction false} PlaceOfRow(tree: seq<ProductOptions>, r: Row) returns (i: nat, j: nat)
    requires r in Flatten(tree)
    ensures i < |tree| && j < |tree[i].groups| && r in FlattenGroup(tree[i].product, tree[i].groups[j])
  {
    var n := |tree| - 1;
    if r in FlattenGroups(tree[n].product, tree[n].groups) {
      i := n;
      j := GroupOfRow(tree[n].product, tree[n].groups, r);
    } else {
      i, j := PlaceOfRow(tree[..n], r);
    }
  }

  /** One group of one product, with exactly the group's active modifiers, each once. */
  ghost predicate IsGroup(db: Tables, branch: Id, product: Id, g: GroupOptions) {
    && Attached(db, branch, product, g.id) && g.info == db.groups[g.id]
    && (forall m :: m in g.modifiers <==> ActiveIn(db, m, g.id))
    && (forall a, b :: 0 <= a < b < |g.modifiers| ==> g.modifiers[a].0 != g.modifiers[b].0)
  }

  ghost predicate IsProduct(db: Tables, branch: Id, p: ProductOptions) {
    && (forall j :: 0 <= j < |p.groups| ==> IsGroup(db, branch, p.product, p.groups[j]))
    && (forall a, b :: 0 <= a < b < |p.groups| ==> p.groups[a].id != p.groups[b].id)
    && (forall g :: Attached(db, branch, p.product, g) ==> exists j :: 0 <= j < |p.groups| && p.groups[j].id == g)
  }

  /** Every sellable product with groups once, with each attached group once. */
  ghost predicate IsTree(db: Tables, branch: Id, tree: seq<ProductOptions>) {
    && (forall i :: 0 <= i < |tree| ==> tree[i].groups != [] && IsProduct(db, branch, tree[i]))
    && (forall i, j :: 0 <= i < j < |tree| ==> tree[i].product != tree[j].product)
    && (forall p, g :: Attached(db, branch, p, g) ==> exists i :: 0 <= i < |tree| && tree[i].product == p)
  }

  lemma GroupIsSound(db: Tables, branch: Id, tree: seq<ProductOptions>, i: nat, j: nat)
    requires IsListing(db, branch, Flatten(tree)) && i < |tree| && j < |tree[i].groups|
    ensures var g := tree[i].groups[j];
      && Attached(db, branch, tree[i].product, g.id) && g.info == db.groups[g.id]
      && (forall m :: m in g.modifiers ==> ActiveIn(db, m, g.id))
      && (forall a, b :: 0 <= a < b < |g.modifiers| ==> g.modifiers[a].0 != g.modifiers[b].0)
  {
    var rows := Flatten(tree);
    var p, g := tree[i].product, tree[i].groups[j];
    var part := FlattenGroup(p, g);
    var k := TreeSlice(tree, i, j);
    forall a | 0 <= a < |part| ensures IsRow(db, branch, part[a]) && part[a] == rows[k + a] {
      assert rows[k..k + |part|][a] == rows[k + a] && rows[k + a] in rows;
    }
    assert IsRow(db, branch, part[0]);
    forall a | 0 <= a < |g.modifiers| ensures ActiveIn(db, g.modifiers[a], g.id) {
      assert part[a].modifier == Some(g.modifiers[a]);
    }
    forall a, b | 0 <= a < b < |g.modifiers| ensures g.modifiers[a].0 != g.modifiers[b].0 {
      assert part[a].modifier == Some(g.modifiers[a]) && part[b].modifier == Some(g.modifiers[b]);
      assert rows[k + a] != rows[k + b];
      assert ActiveIn(db, g.modifiers[a], g.id) && ActiveIn(db, g.modifiers[b], g.id);
    }
  }

  /** Every attached group is in the tree, with any given active modifier. */
  lemma GroupIsPresent(db: Tables, branch: Id, tree: seq<ProductOptions>, r: Row) returns (i: nat, j: nat)
    requires IsListing(db, branch, Flatten(tree)) && IsRow(db, branch, r)
    ensures i < |tree| && j < |tree[i].groups| && tree[i].product == r.product && tree[i].groups[j].id == r.group
    ensures r.modifier.Some? ==> r.modifier.value in tree[i].groups[j].modifiers
  {
    assert r in Flatten(tree);
    i, j := PlaceOfRow(tree, r);
  }

  /** Some row of the query mentions each attached group. */
  lemma RowOf(db: Tables, branch: Id, product: Id, group: Id) returns (r: Row)
    requires Attached(db, branch, product, group)
    ensures IsRow(db, branch, r) && r.product == product && r.group == group
  {
    if m :| ActiveIn(db, m, group) {
      r := Row(product, group, db.groups[group], Some(m));
    } else {
      r := Row(product, group, db.groups[group], None);
    }
  }

  lemma GroupsDiffer(db: Tables, p: ProductOptions)
    requires GroupsSorted(db, p)
    ensures forall a, b :: 0 <= a < |p.groups| && 0 <= b < |p.groups| && p.groups[a].id == p.groups[b].id ==> a == b
  {
    forall a, b | 0 <= a < b < |p.groups| ensures p.groups[a].id != p.groups[b].id {
      assert GroupBefore(db, p.product, p.groups[a].id, p.product, p.groups[b].id);
    }
  }

  lemma ProductIsExact(db: Tables, branch: Id, tree: seq<ProductOptions>, i: nat)
    requires IsListing(db, branch, Flatten(tree)) && StrictlySorted(db, tree) && i < |tree|
    ensures IsProduct(db, branch, tree[i])
  {
    var p := tree[i];
    forall j | 0 <= j < |p.groups| ensures IsGroup(db, branch, p.product, p.groups[j]) {
      GroupIsSound(db, branch, tree, i, j);
      forall m | ActiveIn(db, m, p.groups[j].id) ensures m in p.groups[j].modifiers {
        ModifierIsPresent(db, branch, tree, i, j, m);
      }
    }
    GroupsDiffer(db, p);
    forall g | Attached(db, branch, p.product, g) ensures exists j :: 0 <= j < |p.groups| && p.groups[j].id == g {
      var r := RowOf(db, branch, p.product, g);
      var i', j := GroupIsPresent(db, branch, tree, r);
      assert i' == i;
    }
  }

  lemma ModifierIsPresent(db: Tables, branch: Id, tree: seq<ProductOptions>, i: nat, j: nat, m: (Id, Modifier))
    requires IsListing(db, branch, Flatten(tree)) && StrictlySorted(db, tree)
    requires i < |tree| && j < |tree[i].groups| && ActiveIn(db, m, tree[i].groups[j].id)
    ensures m in tree[i].groups[j].modifiers
  {
    var p, g := tree[i].product, tree[i].groups[j].id;
    GroupIsSound(db, branch, tree, i, j);
    var i', j' := GroupIsPresent(db, branch, tree, Row(p, g, db.groups[g], Some(m)));
    GroupsDiffer(db, tree[i]);
  }

  /**
   * Folding what the query returns yields every sellable product with options exactly once, each with its
   * attached groups exactly once, each with its active modifiers exactly once, and nothing else.
   */
  lemma ListingFoldsToTree(db: Tables, branch: Id, rows: seq<Row>)
    requires IsListing(db, branch, rows)
    ensures IsTree(db, branch, Fold(rows)) && Flatten(Fold(rows)) == rows
  {
    var tree := Fold(rows);
    ListingIsLossless(db, branch, rows);
    FoldIsSorted(db, rows);
    FoldHasGroups(rows);
    forall i | 0 <= i < |tree| ensures IsProduct(db, branch, tree[i]) {
      ProductIsExact(db, branch, tree, i);
    }
    forall p, g | Attached(db, branch, p, g) ensures exists i :: 0 <= i < |tree| && tree[i].product == p {
      var r := RowOf(db, branch, p, g);
      var i, j := GroupIsPresent(db, branch, tree, r);
    }
  }

  /** The branch sells the product, and the group is one of its groups. */
  predicate Offered(db: Tables, branch: Id, product: Id, group: Id) {
    && product in db.products && db.products[product].active
    && ((branch, product) in db.overrides ==> db.overrides[(branch, product)].available)
    && (product, group) in db.attached && group in db.groups
  }

  /**
   * The tree in columns: a product stands in it exactly if the branch sells it and it has a group, and no
   * product twice; under it stand exactly its groups, none twice, with the group's own columns; and under a
   * group exactly its active modifiers, none twice. Products come by id, groups by their place on the
   * product, then by their own place, then by id.
   */
  lemma TreeInColumns(db: Tables, branch: Id, rows: seq<Row>)
    requires IsListing(db, branch, rows)
    ensures forall p :: StandsIn(Fold(rows), p) <==> exists g :: Offered(db, branch, p, g)
    ensures forall i, j :: 0 <= i < j < |Fold(rows)| ==> Fold(rows)[i].product < Fold(rows)[j].product
    ensures forall i, g :: 0 <= i < |Fold(rows)| ==>
      ((exists j :: 0 <= j < |Fold(rows)[i].groups| && Fold(rows)[i].groups[j].id == g)
       <==> Offered(db, branch, Fold(rows)[i].product, g))
    ensures forall i, j :: 0 <= i < |Fold(rows)| && 0 <= j < |Fold(rows)[i].groups| ==>
      GroupInColumns(db, Fold(rows)[i].groups[j])
    ensures forall i, j, k :: 0 <= i < |Fold(rows)| && 0 <= j < k < |Fold(rows)[i].groups| ==>
      PlacedBefore(db, Fold(rows)[i].product, Fold(rows)[i].groups[j].id, Fold(rows)[i].groups[k].id)
  {
    var tree := Fold(rows);
    ListingFoldsToTree(db, branch, rows);
    FoldIsSorted(db, rows);
    forall p, g ensures Attached(db, branch, p, g) <==> Offered(db, branch, p, g) {
    }
    forall i | 0 <= i < |tree| ensures IsProduct(db, branch, tree[i]) && tree[i].groups != [] {
    }
    forall i | 0 <= i < |tree| ensures Offered(db, branch, tree[i].product, tree[i].groups[0].id) {
      assert IsGroup(db, branch, tree[i].product, tree[i].groups[0]);
    }
    forall i, j | 0 <= i < |tree| && 0 <= j < |tree[i].groups| ensures GroupInColumns(db, tree[i].groups[j]) {
      assert IsGroup(db, branch, tree[i].product, tree[i].groups[j]);
    }
    forall i, j, k | 0 <= i < |tree| && 0 <= j < k < |tree[i].groups|
      ensures PlacedBefore(db, tree[i].product, tree[i].groups[j].id, tree[i].groups[k].id)
    {
      assert GroupsSorted(db, tree[i]);
      assert GroupBefore(db, tree[i].product, tree[i].groups[j].id, tree[i].product, tree[i].groups[k].id);
    }
  }

  predicate StandsIn(tree: seq<ProductOptions>, product: Id) {
    exists i :: 0 <= i < |tree| && tree[i].product == product
  }

  ghost predicate GroupInColumns(db: Tables, g: GroupOptions) {
    && g.id in db.groups && g.info == db.groups[g.id]
    && (forall m :: m in g.modifiers <==>
          m.0 in db.modifiers && db.modifiers[m.0] == m.1 && m.1.active && m.1.group == g.id)
    && (forall a, b :: 0 <= a < b < |g.modifiers| ==> g.modifiers[a].0 != g.modifiers[b].0)
  }

  predicate PlacedBefore(db: Tables, product: Id, g: Id, h: Id) {
    && (product, g) in db.attached && (product, h) in db.attached && g in db.groups && h in db.groups
    && var (a, b) := (db.attached[(product, g)], db.attached[(product, h)]);
       if a != b then a < b
       else if db.groups[g].sort != db.groups[h].sort then db.groups[g].sort < db.groups[h].sort
       else g < h
  }

  lemma {:induction false} FoldHasGroups(rows: seq<Row>)
    ensures forall i :: 0 <= i < |Fold(rows)| ==> Fold(rows)[i].groups != []
  {
    if rows != [] {
      FoldHasGroups(rows[..|rows| - 1]);
    }
  }
}
