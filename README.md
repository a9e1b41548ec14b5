# Discovery filter menu

A model of how the Kickstarter Android app's `DiscoveryFilterAdapter` builds
the sections of its discovery filter menu from a list of project categories.
The pipeline works as follows:

1. Append every root category a second time. The duplicate becomes the
   "All of Art"-style nested row.
2. Wrap each category as filter params.
3. Sort the params with the category comparator.
4. Group the sorted params by root-category name in a sorted map
   (`TreeMap<String, ArrayList<DiscoveryParams>>`).
5. Emit the map's values in key order.
6. Put the fixed section of three filters in front: staff picks,
   starred = 1, and "everything".
7. Pair every params value with a style whose primary, selected and visible
   flags are all set.

`takeCategories` clears the adapter's list of sections, appends all of these
sections, and inserts a lone divider section at index 1. `layout` gives the
divider layout to section 1 and the filter layout to every other section.

The model has five modules:

- `StringOrder`: Java's `String.compareTo` as a lexicographic `Less`, with
  its order laws. It also defines `Ascending(s)`, the unique strictly
  ascending listing of a finite key set, which is the order in which a
  sorted map hands out its keys.
- `StableSort`: `Collections.sort` as a stable insertion sort by a
  Java-style comparator. `cmp(a, b) <= 0` means "a may precede b".
- `Discovery`: the values. These are `Category` (a root has no parent; any
  other category's root is its parent), `DiscoveryParams`, the
  `CategoryParam` subtype (params whose category is set), `FilterStyle`,
  `Row` (a `Divider`, or a `Filter` of params and a style, in place of
  Java's `null` divider row) and `LayoutKind`.
- `Grouping`: the map reduction. It is an imperative method over a local
  list of map entries kept in ascending key order. It is specified by
  `Grouped(rows)`: the rows with each key, listed by ascending key.
- `Adapters`: `filterParams`, `categoryParams`, `paramsSections`, `layout`,
  and the adapter class, whose `data` field the `takeCategories` method
  rebuilds.

`discoveryFilterCompareTo` is a parameter `cmp`. The ordering lemmas assume
a consequence of the Comparator contract for it (`TotalPreorder`: every two categories are
comparable, and the order is transitive).

## Model

| member | source | states |
|---|---|---|
| Adapters.DiscoveryFilterAdapter.TakeCategories | app/src/main/java/com/kickstarter/ui/adapters/DiscoveryFilterAdapter.java:46-53 | the new sections are exactly the menu built from the input (the old contents are cleared, so none survive); there are 2 + (number of distinct root names) of them; section 1 is a lone divider |
| Adapters.DiscoveryFilterAdapter.constructor | app/src/main/java/com/kickstarter/ui/adapters/DiscoveryFilterAdapter.java:27-30 | a new adapter holds no sections |
| Adapters.ParamsSections | app/src/main/java/com/kickstarter/ui/adapters/DiscoveryFilterAdapter.java:58-63 | the fixed filters come first, then one styled section per category group, 1 + (number of root names) in all; the first section is staff picks, starred, everything |
| Adapters.TopSection | app/src/main/java/com/kickstarter/ui/adapters/DiscoveryFilterAdapter.java:68-74 | the styled top section is exactly the three filters in order, each with the all-true style |
| Adapters.CategoryParams | app/src/main/java/com/kickstarter/ui/adapters/DiscoveryFilterAdapter.java:85-107 | the groups are the sorted map's values; there is one per distinct root name; taken together they are a permutation of the input followed by its root categories |
| Adapters.SortedParamsRootNames | app/src/main/java/com/kickstarter/ui/adapters/DiscoveryFilterAdapter.java:89-98 | the map keys are exactly the root names of the input categories; the duplicated roots add no key |
| Adapters.CategoryRowCounts | app/src/main/java/com/kickstarter/ui/adapters/DiscoveryFilterAdapter.java:86-90 | the group rows, taken together, are a permutation of the input plus its roots; there are (number of categories) + (number of roots) of them; a root category occurs twice as often as in the input, any other category as often as in the input |
| Adapters.CountsOfPermutation | app/src/main/java/com/kickstarter/ui/adapters/DiscoveryFilterAdapter.java:88-90 | any reordering of the augmented, wrapped list has the same length and the same per-category counts |
| Adapters.RootRowTwice | app/src/main/java/com/kickstarter/ui/adapters/DiscoveryFilterAdapter.java:89 | a root category given once is a map key, and the group under its name holds it twice |
| Adapters.RootsCount | app/src/main/java/com/kickstarter/ui/adapters/DiscoveryFilterAdapter.java:89 | the filtered duplicates hold each root as often as the input does, and no other category |
| Adapters.RootsAreRoots | app/src/main/java/com/kickstarter/ui/adapters/DiscoveryFilterAdapter.java:89 | every duplicate is a root category from the input |
| Adapters.WrapCount | app/src/main/java/com/kickstarter/ui/adapters/DiscoveryFilterAdapter.java:90 | wrapping keeps the length and how often each category occurs |
| Adapters.WrapMembers | app/src/main/java/com/kickstarter/ui/adapters/DiscoveryFilterAdapter.java:90 | each wrapped params sets only its category, which is an input category, and every input category is wrapped |
| Adapters.ByCategoryPreorder | app/src/main/java/com/kickstarter/ui/adapters/DiscoveryFilterAdapter.java:91 | comparing params by their categories keeps the total preorder (a consequence of the Comparator contract) of the category comparator |
| Adapters.CategoryOrder | app/src/main/java/com/kickstarter/ui/adapters/DiscoveryFilterAdapter.java:91-102 | the params are sorted by the comparator, stably (rows it ranks the same keep their input order), and each group is sorted by it |
| Adapters.MenuShape | app/src/main/java/com/kickstarter/ui/adapters/DiscoveryFilterAdapter.java:49-50 | for any groups: the menu has 2 + (number of groups) sections; section 0 is the three top filters; section 1 is a lone divider; section i is group i - 2 styled; every other row is an all-true filter |
| Adapters.MenuLayout | app/src/main/java/com/kickstarter/ui/adapters/DiscoveryFilterAdapter.java:32-37 | with non-empty groups, every section has rows, and the divider layout is chosen exactly for divider rows |
| Adapters.DividerAtOne | app/src/main/java/com/kickstarter/ui/adapters/DiscoveryFilterAdapter.java:50-62 | section 1 is exactly one divider row; every row outside it is a filter whose primary, selected and visible flags are all set |
| Adapters.SectionCount | app/src/main/java/com/kickstarter/ui/adapters/DiscoveryFilterAdapter.java:49-50 | 2 + (number of distinct root names) sections; with no categories, exactly the top section and the divider |
| Adapters.FirstSectionFixed | app/src/main/java/com/kickstarter/ui/adapters/DiscoveryFilterAdapter.java:59-74 | section 0 is staff picks (true), starred (1) and everything (nothing set), in that order, whatever the input |
| Adapters.CategorySections | app/src/main/java/com/kickstarter/ui/adapters/DiscoveryFilterAdapter.java:97-106 | from index 2 on, the sections are the styled groups; each group is non-empty and all of one root name; names ascend strictly from group to group |
| Adapters.LayoutMatchesRows | app/src/main/java/com/kickstarter/ui/adapters/DiscoveryFilterAdapter.java:32-37 | every section has rows, and a section gets the divider layout exactly when its rows are the divider |
| Grouping.GroupByRoot | app/src/main/java/com/kickstarter/ui/adapters/DiscoveryFilterAdapter.java:97-106 | the step-by-step map reduction yields `Grouped(rows)`: the rows with each root name, in their sorted order, one group per name, names in ascending order |
| Grouping.Locate | app/src/main/java/com/kickstarter/ui/adapters/DiscoveryFilterAdapter.java:99-102 | the position of the key in the ascending entries, or where it would be inserted: every key before it is smaller, and the key there is not |
| Grouping.RowsWithKey | app/src/main/java/com/kickstarter/ui/adapters/DiscoveryFilterAdapter.java:98-102 | a group holds only rows of the input with its key |
| Grouping.GroupsFor | app/src/main/java/com/kickstarter/ui/adapters/DiscoveryFilterAdapter.java:106 | one group per key, in the order of the keys, each holding the rows with that key |
| Grouping.RowsWithKeyEmpty | app/src/main/java/com/kickstarter/ui/adapters/DiscoveryFilterAdapter.java:99-100 | a key has an empty group exactly when no row has that key |
| Grouping.RowsWithKeyCount | app/src/main/java/com/kickstarter/ui/adapters/DiscoveryFilterAdapter.java:102 | a row occurs in its key's group as often as in the input |
| Grouping.GroupedShape | app/src/main/java/com/kickstarter/ui/adapters/DiscoveryFilterAdapter.java:97-106 | one non-empty group per distinct root name; every row of a group has the group's key; keys ascend strictly, so no two groups share one; each group is all the rows with its key |
| Grouping.GroupedPermutation | app/src/main/java/com/kickstarter/ui/adapters/DiscoveryFilterAdapter.java:97-106 | taken together, the groups hold exactly the input rows, none lost and none added |
| Grouping.FlattenGroupsFor | app/src/main/java/com/kickstarter/ui/adapters/DiscoveryFilterAdapter.java:106 | for distinct keys, the groups taken together hold the rows with any of those keys |
| Grouping.GroupsSorted | app/src/main/java/com/kickstarter/ui/adapters/DiscoveryFilterAdapter.java:102 | appending in arrival order keeps each group in the order of a sorted input |
| Grouping.RowsWithKeySorted | app/src/main/java/com/kickstarter/ui/adapters/DiscoveryFilterAdapter.java:102 | picking out the rows of one key keeps them sorted |
| StableSort.Sort | app/src/main/java/com/kickstarter/ui/adapters/DiscoveryFilterAdapter.java:91 | sorting is a permutation of its input |
| StableSort.SortSorted | app/src/main/java/com/kickstarter/ui/adapters/DiscoveryFilterAdapter.java:91 | for a comparator that is a total preorder (as the Comparator contract implies), the sorted list is in comparator order |
| StableSort.SortStable | app/src/main/java/com/kickstarter/ui/adapters/DiscoveryFilterAdapter.java:91 | the sort is stable: the elements the comparator ranks the same as any given one keep their input order |
| StableSort.InsertSorted | app/src/main/java/com/kickstarter/ui/adapters/DiscoveryFilterAdapter.java:91 | inserting into a sorted list keeps it sorted |
| StableSort.InsertPeers | app/src/main/java/com/kickstarter/ui/adapters/DiscoveryFilterAdapter.java:91 | inserting puts the new element after all of its equals |
| StringOrder.LessIrreflexive | app/src/main/java/com/kickstarter/ui/adapters/DiscoveryFilterAdapter.java:97 | no key sorts before itself |
| StringOrder.LessAsymmetric | app/src/main/java/com/kickstarter/ui/adapters/DiscoveryFilterAdapter.java:97 | two keys never sort before each other |
| StringOrder.LessTransitive | app/src/main/java/com/kickstarter/ui/adapters/DiscoveryFilterAdapter.java:97 | the key order is transitive |
| StringOrder.LessTotal | app/src/main/java/com/kickstarter/ui/adapters/DiscoveryFilterAdapter.java:97 | any two different keys are ordered one way or the other |
| StringOrder.LeastExists | app/src/main/java/com/kickstarter/ui/adapters/DiscoveryFilterAdapter.java:97 | every non-empty finite key set has a smallest key |
| StringOrder.Ascending | app/src/main/java/com/kickstarter/ui/adapters/DiscoveryFilterAdapter.java:97-106 | lists exactly the keys of the set, each once, in strictly ascending order |
| StringOrder.AscendingUnique | app/src/main/java/com/kickstarter/ui/adapters/DiscoveryFilterAdapter.java:97-106 | there is only one strictly ascending listing of a key set, so the map's value order is fully determined |

## Left out

- Android view machinery is not modelled: `viewHolder` (lines 39-44), the view-holder classes, `View`, and `notifyDataSetChanged` (line 52). The layout resource ids become the two-valued `LayoutKind`.
- The `Delegate` and `selectedDiscoveryParams` fields (lines 22-23, 27-29) are stored but never read by the modelled logic.
- RxJava is not modelled (`Observable`, `startWith`, `toSortedList`, `flatMap`, `reduce`, `toBlocking`). Every stage finishes synchronously, so each one is a plain sequence operation.
- The body of `discoveryFilterCompareTo` is not part of this model; it is the parameter `cmp`. When a comparator breaks the Comparator contract, Java's sort may throw or give an unspecified order. Only `Sort`'s permutation property is stated without the contract.
- `Category.java` and `DiscoveryParams.java` are not part of this model. A category's root is modelled as itself when it has no parent, otherwise its recorded parent, so categories are two levels deep. Params carry only the staff-picks, starred and category fields. Equality of params is structural.
- `Collections.sort` is written as an insertion sort, not a merge sort. Any stable sort by the same total preorder produces the same list, and `SortStable` states that stability.
- The TreeMap's red-black tree is replaced by a list of entries in ascending key order, searched linearly (`Locate`). Only the observable key order and contents are modelled.
- `Less` compares Dafny characters (Unicode scalar values). Java compares UTF-16 code units, so the two orders can differ only on strings that mix supplementary characters with characters at or above U+E000.
- The `KsrAdapter` base class is not part of this model. Its `data()` list becomes the field `data`, a sequence of sections. A section is a sequence of rows.
- Adapters.RootRowTwice: states "twice" only for a root that occurs once in the input. For any number of occurrences, `CategoryRowCounts` states the general count: a root occurs twice as often as in the input.
