/** The values the discovery filter menu is built from: categories, filter
    parameters, row styles and the rows of the menu. */
module Discovery {

  datatype Option<T> = None | Some(value: T)

  /** What a category knows of its parent: enough to name the group it
      belongs to. */
  datatype CategoryRef = CategoryRef(id: int, name: string)

  /** A project category. A category without a parent is a root category. */
  datatype Category = Category(id: int, name: string, parent: Option<CategoryRef>) {

    predicate IsRoot() {
      parent.None?
    }

    /** A root category is its own root; any other category's root is its
        parent. */
    function Root(): CategoryRef {
      if IsRoot() then CategoryRef(id, name) else parent.value
    }

    function RootName(): string {
      Root().name
    }
  }

  /** A filter selection; a field that is None was never set on the builder. */
  datatype DiscoveryParams = DiscoveryParams(
    staffPicks: Option<bool>,
    starred: Option<int>,
    category: Option<Category>)

  /** Filter parameters built from a category, the rows the category part of
      the menu is made of. */
  type CategoryParam = p: DiscoveryParams | p.category.Some?
    witness DiscoveryParams(None, None, Some(Category(0, "", None)))

  /** The params for category `c`: only the category is set. */
  function ForCategory(c: Category): CategoryParam {
    DiscoveryParams(None, None, Some(c))
  }

  datatype FilterStyle = FilterStyle(primary: bool, selected: bool, visible: bool)

  /** A row of the menu: a divider, or a filter drawn in a style. */
  datatype Row = Divider | Filter(params: DiscoveryParams, style: FilterStyle)

  /** The two row layouts. */
  datatype LayoutKind = DividerView | FilterView
}
