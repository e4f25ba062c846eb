/** The catalog tables that listing, option picking and pricing read. Prices are in whole kurus. */
module Catalog {
  import opened Common

  /** A row id. Ids are compared as numbers; 0 is the nil id, which no row has. */
  type Id = nat

  datatype SelectionType = Single | Multiple

  datatype Product = Product(name: string, price: nat, currency: string, taxRateBps: nat, active: bool,
                             category: Option<Id>, sort: int)

  datatype Group = Group(name: string, selection: SelectionType, minSelections: int, maxSelections: Option<int>,
                         required: bool, sort: int)

  datatype Modifier = Modifier(group: Id, name: string, delta: int, active: bool, sort: int)

  /** What one branch changes about one product. */
  datatype Override = Override(available: bool, price: Option<nat>)

  datatype Menu = Menu(branch: Option<Id>, active: bool, validFrom: Option<int>, validUntil: Option<int>, sort: int)

  datatype MenuItem = MenuItem(priceOverride: Option<int>, active: bool)

  datatype Category = Category(name: string, active: bool, sort: int)

  /** A product's availability for diners; the unique key does not bind rows without an integrator. */
  datatype ChannelRow = ChannelRow(product: Id, available: bool)

  datatype Tables = Tables(
    products: map<Id, Product>,
    categories: map<Id, Category>,
    groups: map<Id, Group>,
    modifiers: map<Id, Modifier>,
    attached: map<(Id, Id), int>,
    overrides: map<(Id, Id), Override>,
    menus: map<Id, Menu>,
    items: map<(Id, Id), MenuItem>,
    dineIn: seq<ChannelRow>)

  /** What validateModifierGroup lets through. */
  predicate ValidGroup(g: Group) {
    g.minSelections >= 0 && (g.maxSelections.Some? ==> g.maxSelections.value >= g.minSelections)
  }

  /** Foreign keys hold, every group passed validation and no override names the nil branch. */
  ghost predicate Consistent(db: Tables) {
    && (forall k :: k in db.attached ==> k.0 in db.products && k.1 in db.groups)
    && (forall m :: m in db.modifiers ==> db.modifiers[m].group in db.groups)
    && (forall g :: g in db.groups ==> ValidGroup(db.groups[g]))
    && (forall k :: k in db.items ==> k.0 in db.menus && k.1 in db.products)
    && (forall k :: k in db.overrides ==> k.0 != 0)
    && 0 !in db.products && 0 !in db.categories
  }

  /** The branch's override row says the product is not sold there. */
  predicate SwitchedOff(db: Tables, branch: Id, product: Id) {
    (branch, product) in db.overrides && !db.overrides[(branch, product)].available
  }

  predicate Sellable(db: Tables, branch: Id, product: Id) {
    product in db.products && db.products[product].active && !SwitchedOff(db, branch, product)
  }
}
