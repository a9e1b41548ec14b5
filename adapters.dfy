/** The discovery filter adapter: it turns the list of categories into the
    sections of the filter menu and keeps them as its data. */
module Adapters {
  import opened Discovery
  import opened StringOrder
  import opened StableSort
  import opened Grouping

  /** The style every filter row is drawn in. */
  function AllTrue(): FilterStyle {
    FilterStyle(true, true, true)
  }

  /** Pairs each params with the all-true style. */
  function Styled(ps: seq<DiscoveryParams>): seq<Row> {
    seq(|ps|, i requires 0 <= i < |ps| => Filter(ps[i], AllTrue()))
  }

  function StyleAll(lists: seq<seq<DiscoveryParams>>): seq<seq<Row>> {
    seq(|lists|, i requires 0 <= i < |lists| => Styled(lists[i]))
  }

  function StaffPicks(): DiscoveryParams {
    DiscoveryParams(Some(true), None, None)
  }

  function Starred(): DiscoveryParams {
    DiscoveryParams(None, Some(1), None)
  }

  /** The "everything" filter: nothing set. */
  function Everything(): DiscoveryParams {
    DiscoveryParams(None, None, None)
  }

  /** Params for the top section of filters. */
  function FilterParams(): seq<DiscoveryParams> {
    [StaffPicks(), Starred(), Everything()]
  }

  /** The styled top section, row by row. */
  lemma TopSection()
    ensures Styled(FilterParams())
         == [Filter(StaffPicks(), AllTrue()), Filter(Starred(), AllTrue()), Filter(Everything(), AllTrue())]
  {
    var rows := Styled(FilterParams());
    assert |rows| == 3;
    assert rows[0] == Filter(StaffPicks(), AllTrue());
    assert rows[1] == Filter(Starred(), AllTrue());
    assert rows[2] == Filter(Everything(), AllTrue());
  }

  /** The root categories of `cats`, in order. */
  function Roots(cats: seq<Category>): seq<Category> {
    if |cats| == 0 then []
    else (if cats[0].IsRoot() then [cats[0]] else []) + Roots(cats[1..])
  }

  /** The categories followed by a duplicate of each root category. */
  function Augment(cats: seq<Category>): seq<Category> {
    cats + Roots(cats)
  }

  /** The params for each category, in order. */
  function Wrap(cats: seq<Category>): seq<CategoryParam> {
    if |cats| == 0 then [] else [ForCategory(cats[0])] + Wrap(cats[1..])
  }

  /** Compares two category params by their categories. */
  function ByCategory(cmp: (Category, Category) -> int): (CategoryParam, CategoryParam) -> int {
    (p1: CategoryParam, p2: CategoryParam) => cmp(p1.category.value, p2.category.value)
  }

  /** The augmented, wrapped and sorted params. */
  function SortedParams(cats: seq<Category>, cmp: (Category, Category) -> int): seq<CategoryParam> {
    Sort(Wrap(Augment(cats)), ByCategory(cmp))
  }

  /** The root names of `cats`: one group of the menu each. */
  function CategoryRootNames(cats: seq<Category>): set<string> {
    set c | c in cats :: c.RootName()
  }

  /** The category groups of the menu: the values of the sorted map. */
  ghost function CategoryGroups(cats: seq<Category>, cmp: (Category, Category) -> int): seq<seq<CategoryParam>> {
    Grouped(SortedParams(cats, cmp))
  }

  /** The sections before the divider is put in. */
  ghost function ParamsSectionsOf(cats: seq<Category>, cmp: (Category, Category) -> int): seq<seq<Row>> {
    StyleAll([FilterParams()] + CategoryGroups(cats, cmp))
  }

  /** `sections` with a divider section put in at index 1. */
  function WithDivider(sections: seq<seq<Row>>): seq<seq<Row>>
    requires |sections| >= 1
  {
    sections[..1] + [[Divider]] + sections[1..]
  }

  /** The menu for the given category groups: the top filters, the divider,
      then the groups, every filter row in the all-true style. */
  function Menu(groups: seq<seq<DiscoveryParams>>): seq<seq<Row>> {
    WithDivider(StyleAll([FilterParams()] + groups))
  }

  /** The menu's sections for `cats`. */
  ghost function Sections(cats: seq<Category>, cmp: (Category, Category) -> int): seq<seq<Row>> {
    Menu(CategoryGroups(cats, cmp))
  }

  /** The layout of the menu, whatever the groups. */
  lemma MenuShape(groups: seq<seq<DiscoveryParams>>)
    ensures |Menu(groups)| == 2 + |groups|
    ensures Menu(groups)[0]
         == [Filter(StaffPicks(), AllTrue()), Filter(Starred(), AllTrue()), Filter(Everything(), AllTrue())]
    ensures Menu(groups)[1] == [Divider]
    ensures forall i :: 2 <= i < |Menu(groups)| ==> Menu(groups)[i] == Styled(groups[i - 2])
    ensures forall i, j :: 0 <= i < |Menu(groups)| && i != 1 && 0 <= j < |Menu(groups)[i]| ==>
              Menu(groups)[i][j].Filter? && Menu(groups)[i][j].style == AllTrue()
  {
    var sections := StyleAll([FilterParams()] + groups);
    assert sections[0] == Styled(FilterParams());
    TopSection();
    forall i, j | 0 <= i < |Menu(groups)| && i != 1 && 0 <= j < |Menu(groups)[i]|
      ensures Menu(groups)[i][j].Filter? && Menu(groups)[i][j].style == AllTrue()
    {
      if i == 0 {
        assert Menu(groups)[i] == Styled(FilterParams());
      } else {
        assert Menu(groups)[i] == Styled(groups[i - 2]);
      }
    }
  }

  /** With no empty group, every section of the menu has rows, and the
      divider layout goes exactly to the divider rows. */
  lemma MenuLayout(groups: seq<seq<DiscoveryParams>>)
    requires forall g :: 0 <= g < |groups| ==> |groups[g]| > 0
    ensures forall i :: 0 <= i < |Menu(groups)| ==> |Menu(groups)[i]| > 0
    ensures forall i, j :: 0 <= i < |Menu(groups)| && 0 <= j < |Menu(groups)[i]| ==>
              (Layout(i) == DividerView <==> Menu(groups)[i][j] == Divider)
  {
    MenuShape(groups);
    forall i | 2 <= i < |Menu(groups)|
      ensures |Menu(groups)[i]| > 0
    {
      assert Menu(groups)[i] == Styled(groups[i - 2]);
    }
  }

  /** The layout of the rows of a section: the divider's in section 1, the
      filter row's everywhere else. */
  function Layout(section: int): LayoutKind {
    if section == 1 then DividerView else FilterView
  }

  // Counting the augmented list

  lemma {:induction false} RootsCount(cats: seq<Category>, c: Category)
    ensures multiset(Roots(cats))[c] == if c.IsRoot() then multiset(cats)[c] else 0
  {
    if |cats| > 0 {
      RootsCount(cats[1..], c);
      assert cats == [cats[0]] + cats[1..];
    }
  }

  lemma {:induction false} RootsAreRoots(cats: seq<Category>)
    ensures forall c :: c in Roots(cats) ==> c in cats && c.IsRoot()
  {
    if |cats| > 0 {
      RootsAreRoots(cats[1..]);
    }
  }

  lemma {:induction false} WrapCount(cats: seq<Category>, c: Category)
    ensures |Wrap(cats)| == |cats|
    ensures multiset(Wrap(cats))[ForCategory(c)] == multiset(cats)[c]
  {
    if |cats| > 0 {
      WrapCount(cats[1..], c);
      assert cats == [cats[0]] + cats[1..];
    }
  }

  lemma {:induction false} WrapMembers(cats: seq<Category>)
    ensures forall p :: p in Wrap(cats) ==> p == ForCategory(p.category.value) && p.category.value in cats
    ensures forall c :: c in cats ==> ForCategory(c) in Wrap(cats)
  {
    if |cats| > 0 {
      WrapMembers(cats[1..]);
    }
  }

  /** The keys of the sorted params are the root names of the categories:
      a duplicated root adds no new key. */
  lemma SortedParamsRootNames(cats: seq<Category>, cmp: (Category, Category) -> int)
    ensures RootNames(SortedParams(cats, cmp)) == CategoryRootNames(cats)
  {
    var aug := Augment(cats);
    var wrapped := Wrap(aug);
    var sorted := SortedParams(cats, cmp);
    WrapMembers(aug);
    RootsAreRoots(cats);
    assert multiset(sorted) == multiset(wrapped);
    forall k | k in RootNames(sorted)
      ensures k in CategoryRootNames(cats)
    {
      var p :| p in sorted && RootKey(p) == k;
      assert p in multiset(wrapped);
      var c := p.category.value;
      assert c in aug;
      assert c in cats;
    }
    forall k | k in CategoryRootNames(cats)
      ensures k in RootNames(sorted)
    {
      var c :| c in cats && c.RootName() == k;
      var p := ForCategory(c);
      assert p in wrapped;
      assert p in multiset(sorted);
      assert RootKey(p) == k;
    }
  }

  /** Taken together, the category groups hold the input followed by its
      root categories, reordered: as many rows as categories plus roots, a
      root category twice as often as the input holds it and any other
      category as often as the input holds it. */
  lemma CountsOfPermutation(flat: seq<CategoryParam>, cats: seq<Category>, c: Category)
    requires multiset(flat) == multiset(Wrap(Augment(cats)))
    ensures |flat| == |cats| + |Roots(cats)|
    ensures multiset(flat)[ForCategory(c)] == multiset(cats)[c] + (if c.IsRoot() then multiset(cats)[c] else 0)
  {
    WrapCount(Augment(cats), c);
    RootsCount(cats, c);
    assert |flat| == |multiset(flat)| == |multiset(Wrap(Augment(cats)))|;
  }

  lemma CategoryRowCounts(cats: seq<Category>, cmp: (Category, Category) -> int, c: Category)
    ensures multiset(Flatten<CategoryParam>(CategoryGroups(cats, cmp))) == multiset(Wrap(Augment(cats)))
    ensures |Flatten<CategoryParam>(CategoryGroups(cats, cmp))| == |cats| + |Roots(cats)|
    ensures multiset(Flatten<CategoryParam>(CategoryGroups(cats, cmp)))[ForCategory(c)]
         == multiset(cats)[c] + (if c.IsRoot() then multiset(cats)[c] else 0)
  {
    var flat := Flatten<CategoryParam>(CategoryGroups(cats, cmp));
    GroupedPermutation(SortedParams(cats, cmp));
    CountsOfPermutation(flat, cats, c);
  }

  /** A root category given once lands in the group of its own name, and
      that group holds it twice: once in its sorted place and once as the
      duplicate. */
  lemma RootRowTwice(cats: seq<Category>, cmp: (Category, Category) -> int, c: Category)
    requires c.IsRoot() && multiset(cats)[c] == 1
    ensures c.name in GroupKeys(SortedParams(cats, cmp))
    ensures |CategoryGroups(cats, cmp)| == |GroupKeys(SortedParams(cats, cmp))|
    ensures forall i :: 0 <= i < |CategoryGroups(cats, cmp)| && GroupKeys(SortedParams(cats, cmp))[i] == c.name ==>
              multiset(CategoryGroups(cats, cmp)[i])[ForCategory(c)] == 2
  {
    var rows := SortedParams(cats, cmp);
    SortedParamsRootNames(cats, cmp);
    assert c in cats;
    WrapCount(Augment(cats), c);
    RootsCount(cats, c);
    forall i | 0 <= i < |CategoryGroups(cats, cmp)| && GroupKeys(rows)[i] == c.name
      ensures multiset(CategoryGroups(cats, cmp)[i])[ForCategory(c)] == 2
    {
      RowsWithKeyCount(rows, c.name, ForCategory(c));
    }
  }

  lemma ByCategoryPreorder(cmp: (Category, Category) -> int)
    requires TotalPreorder(cmp)
    ensures TotalPreorder(ByCategory(cmp))
  {
    var lifted := ByCategory(cmp);
    forall a: CategoryParam, b: CategoryParam, c: CategoryParam | lifted(a, b) <= 0 && lifted(b, c) <= 0
      ensures lifted(a, c) <= 0
    {
      assert cmp(a.category.value, b.category.value) <= 0;
      assert cmp(b.category.value, c.category.value) <= 0;
    }
  }

  /** Ordering of the category part of the menu, under the Comparator
      contract: the params come out sorted by category and stably (rows
      the comparator ranks the same keep their input order), and each
      group keeps that order. */
  lemma CategoryOrder(cats: seq<Category>, cmp: (Category, Category) -> int, y: CategoryParam)
    requires TotalPreorder(cmp)
    ensures SortedBy(SortedParams(cats, cmp), ByCategory(cmp))
    ensures Peers(SortedParams(cats, cmp), y, ByCategory(cmp)) == Peers(Wrap(Augment(cats)), y, ByCategory(cmp))
    ensures forall i :: 0 <= i < |CategoryGroups(cats, cmp)| ==> SortedBy(CategoryGroups(cats, cmp)[i], ByCategory(cmp))
  {
    ByCategoryPreorder(cmp);
    SortSorted(Wrap(Augment(cats)), ByCategory(cmp));
    SortStable(Wrap(Augment(cats)), y, ByCategory(cmp));
    GroupsSorted(SortedParams(cats, cmp), ByCategory(cmp));
  }

  /** categoryParams: the augmented, wrapped and sorted params grouped by
      root name, one group per distinct root name. */
  method CategoryParams(initialCategories: seq<Category>, cmp: (Category, Category) -> int)
    returns (groups: seq<seq<CategoryParam>>)
    ensures groups == CategoryGroups(initialCategories, cmp)
    ensures |groups| == |CategoryRootNames(initialCategories)|
    ensures multiset(Flatten<CategoryParam>(groups)) == multiset(Wrap(Augment(initialCategories)))
  {
    var params := SortedParams(initialCategories, cmp);
    groups := GroupByRoot(params);
    GroupedShape(params);
    SortedParamsRootNames(initialCategories, cmp);
    GroupedPermutation(params);
  }

  /** paramsSections: the top filters, then the category groups, each row
      paired with the all-true style. */
  method ParamsSections(initialCategories: seq<Category>, cmp: (Category, Category) -> int)
    returns (sections: seq<seq<Row>>)
    ensures sections == ParamsSectionsOf(initialCategories, cmp)
    ensures |sections| == 1 + |CategoryRootNames(initialCategories)|
    ensures sections[0] == [Filter(StaffPicks(), AllTrue()), Filter(Starred(), AllTrue()), Filter(Everything(), AllTrue())]
  {
    var groups := CategoryParams(initialCategories, cmp);
    var lists: seq<seq<DiscoveryParams>> := [FilterParams()] + groups;
    sections := StyleAll(lists);
    assert |sections| == |lists| == 1 + |groups|;
    assert sections[0] == Styled(FilterParams());
    TopSection();
  }

  /** The adapter and the sections it shows. */
  class DiscoveryFilterAdapter {
    var data: seq<seq<Row>>

    constructor ()
      ensures data == []
    {
      data := [];
    }

    /** Rebuilds the sections from scratch for `initialCategories`. */
    method TakeCategories(initialCategories: seq<Category>, cmp: (Category, Category) -> int)
      modifies this
      ensures data == Sections(initialCategories, cmp)
      ensures |data| == 2 + |CategoryRootNames(initialCategories)|
      ensures data[1] == [Divider]
    {
      data := [];
      var sections := ParamsSections(initialCategories, cmp);
      data := data + sections;
      assert data == ParamsSectionsOf(initialCategories, cmp);
      data := data[..1] + [[Divider]] + data[1..];
      assert data == WithDivider(ParamsSectionsOf(initialCategories, cmp));
      MenuShape(CategoryGroups(initialCategories, cmp));
    }
  }

  // Properties of the sections

  /** The divider section sits at index 1 and is a lone divider; every other
      row is a filter drawn with primary, selected and visible all set. */
  lemma DividerAtOne(cats: seq<Category>, cmp: (Category, Category) -> int)
    ensures |Sections(cats, cmp)| >= 2
    ensures Sections(cats, cmp)[1] == [Divider]
    ensures forall i, j :: 0 <= i < |Sections(cats, cmp)| && i != 1 && 0 <= j < |Sections(cats, cmp)[i]| ==>
              Sections(cats, cmp)[i][j].Filter? && Sections(cats, cmp)[i][j].style == AllTrue()
  {
    MenuShape(CategoryGroups(cats, cmp));
  }

  /** Two sections plus one per distinct root name; just the two for no
      categories. */
  lemma SectionCount(cats: seq<Category>, cmp: (Category, Category) -> int)
    ensures |Sections(cats, cmp)| == 2 + |CategoryRootNames(cats)|
    ensures cats == [] ==> (Sections(cats, cmp)
      == [[Filter(StaffPicks(), AllTrue()), Filter(Starred(), AllTrue()), Filter(Everything(), AllTrue())], [Divider]])
  {
    GroupedShape(SortedParams(cats, cmp));
    SortedParamsRootNames(cats, cmp);
    MenuShape(CategoryGroups(cats, cmp));
  }

  /** The first section is the three top filters, whatever the input. */
  lemma FirstSectionFixed(cats: seq<Category>, cmp: (Category, Category) -> int)
    ensures Sections(cats, cmp)[0]
         == [Filter(StaffPicks(), AllTrue()), Filter(Starred(), AllTrue()), Filter(Everything(), AllTrue())]
    ensures StaffPicks().staffPicks == Some(true) && Starred().starred == Some(1)
    ensures Everything() == DiscoveryParams(None, None, None)
  {
    MenuShape(CategoryGroups(cats, cmp));
  }

  /** From index 2 on, section i is category group i - 2: non-empty, all of
      one root name, names strictly ascending from section to section. */
  lemma CategorySections(cats: seq<Category>, cmp: (Category, Category) -> int)
    ensures forall i :: 2 <= i < |Sections(cats, cmp)| ==>
              Sections(cats, cmp)[i] == Styled(CategoryGroups(cats, cmp)[i - 2])
    ensures forall i :: 0 <= i < |CategoryGroups(cats, cmp)| ==> |CategoryGroups(cats, cmp)[i]| > 0
    ensures forall i, j :: 0 <= i < |CategoryGroups(cats, cmp)| && 0 <= j < |CategoryGroups(cats, cmp)[i]| ==>
              RootKey(CategoryGroups(cats, cmp)[i][j]) == RootKey(CategoryGroups(cats, cmp)[i][0])
    ensures forall i, j :: 0 <= i < j < |CategoryGroups(cats, cmp)| ==>
              Less(RootKey(CategoryGroups(cats, cmp)[i][0]), RootKey(CategoryGroups(cats, cmp)[j][0]))
  {
    GroupedShape(SortedParams(cats, cmp));
    MenuShape(CategoryGroups(cats, cmp));
  }

  /** Every section has rows, and the layout chosen for a section is the
      divider's exactly where the row is the divider. */
  lemma LayoutMatchesRows(cats: seq<Category>, cmp: (Category, Category) -> int)
    ensures forall i :: 0 <= i < |Sections(cats, cmp)| ==> |Sections(cats, cmp)[i]| > 0
    ensures forall i, j :: 0 <= i < |Sections(cats, cmp)| && 0 <= j < |Sections(cats, cmp)[i]| ==>
              (Layout(i) == DividerView <==> Sections(cats, cmp)[i][j] == Divider)
  {
    GroupedShape(SortedParams(cats, cmp));
    MenuLayout(CategoryGroups(cats, cmp));
  }
}
