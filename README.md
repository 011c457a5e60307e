# ClassComparator, modelled in Dafny

`ClassComparator` introspects Java beans and compares their properties. Four
builders walk an object's property descriptors and collect them: the names
in order, a sorted map from name to declared type, a sorted map from name to
value type, and a sorted map from name to each non-null value. Three
counters compare two objects. For each entry of the first object's
collection they scan the second object's collection and stop at the first
case-insensitive match. They match by name only, by name and declared type,
or by name and value type.

The model replaces Java reflection with an explicit input (module `Beans`):

- an object argument is `Null` or `Instance(info)`;
- `info` is `IntrospectionFailed` (the `IntrospectionException` case) or the
  sequence of property descriptors;
- each descriptor carries a name, a declared type (`None` when
  `getPropertyType()` is null), and what its read method does: no read
  method, a caught exception, a null return, or a value with its class name.

Modules:

- `IgnoreCase` models `equalsIgnoreCase` as ASCII case folding.
- `PropertyTables` defines what each builder returns. `Table` is the map
  that one `put` per descriptor builds, later puts overwriting earlier ones.
- `Matching` gives the closed form of each count: the set of positions of
  the first list, or of keys of the first map, that have a match.
- `Comparison` defines what each counter returns on two objects and proves
  the properties below.
- `ClassComparator` holds the seven operations as methods with loops. Each
  is proved to return what `PropertyTables` or `Comparison` defines.
- `Scenarios` works through small concrete objects.

What the code does, where it differs from its doc comments or is easy to
miss:

- The sentinel string is `"java.null"`.
- `getPropertyAndType` stores `propertyType.getClass().getName()`. That is
  `"java.lang.Class"` for every declared type. So the doc comment's claim
  that String `name` and Integer `name` differ by type does not hold. The
  type count depends only on the names and on whether each declared type
  is present (`TypeCountIgnoresDeclaredTypes`,
  `StringNameMatchesIntegerNameByType`).
- A property with no read method (setter only) makes
  `getReadMethod().invoke` throw a `NullPointerException`. None of the
  three catch clauses catches it, so it escapes `getPropertyAndValueType`,
  `getNonNullProperties` and the value-type counter. A null object argument
  also throws. The model returns `NullPointerException` in both cases.
- `Introspector` reports a `class` property (from `getClass()`) for every
  object. So two beans with `id` and `label` also share `class`, and count
  3, 3 and 2 (`NullLabelNameCount` and the next two lemmas).
- The name count always bounds the other two (`NameCountDominates`): every
  key those counts count is a name that the name count counts. On objects
  whose descriptors Introspector can build, the value-type count is also
  bounded by the type count (`ValueTypeCountAtMostTypeCount`).

## Model

| member | source | states |
|---|---|---|
| `ClassComparator.GetPropertyNames` | ClassComparator.java:125-140 | returns every descriptor's name in descriptor order; the empty list when introspection fails; throws only for a null argument |
| `ClassComparator.GetPropertyAndValueType` | ClassComparator.java:150-174 | returns the table `ValueTypesOf` defines: one put per readable descriptor (value class name, or `"java.null"` for null), caught failures skipped, empty map on introspection failure, NullPointerException for a missing read method |
| `ClassComparator.GetPropertyAndType` | ClassComparator.java:183-203 | returns the table `TypesOf` defines: one put per descriptor, `"java.null"` without a declared type and `"java.lang.Class"` otherwise; empty map on introspection failure |
| `ClassComparator.GetNonNullProperties` | ClassComparator.java:212-234 | returns the table `NonNullOf` defines: one put per descriptor whose read returns a non-null value, holding that value; null values and caught failures skipped |
| `ClassComparator.CountNameMatches` | ClassComparator.java:105-115 | the nested scan with `break` returns the number of positions of the first list whose name has a case-insensitive match in the second |
| `ClassComparator.ScanForEntryMatch` | ClassComparator.java:54-86 | the inner scan finds a key whose name and value both match ignoring case exactly when one exists, for any visiting order |
| `ClassComparator.CountEntryMatches` | ClassComparator.java:52-88 | the nested scan returns the number of keys of the first map with a matching entry in the second, whatever order the keys are visited in |
| `ClassComparator.CountCommonPropertiesByName` | ClassComparator.java:100-116 | returns `CommonByName`: the matched-position count of the two name lists, or the exception of a null argument |
| `ClassComparator.CountCommonPropertiesByNameAndType` | ClassComparator.java:47-62 | returns `CommonByNameAndType`: the matched-key count of the two declared-type tables |
| `ClassComparator.CountCommonPropertiesByNameAndValueType` | ClassComparator.java:74-89 | returns `CommonByNameAndValueType`: the matched-key count of the two value-type tables, or the exception either builder throws |
| `PropertyTables.TableKeys` | ClassComparator.java:150-234 | a builder's keys are exactly the names of the descriptors that produce an entry |
| `PropertyTables.TableKeysHaveLastEntry` | ClassComparator.java:150-234 | every key was put by the last descriptor of that name that produces an entry |
| `PropertyTables.TableLastEntryWins` | ClassComparator.java:150-234 | a later put under the same name overwrites: the value is the last such descriptor's entry |
| `PropertyTables.TypeTableEntries` | ClassComparator.java:187-197 | every descriptor name is a key; with unique names the value is `"java.null"` exactly when the declared type is absent, else `"java.lang.Class"` |
| `PropertyTables.ValueTypeTableEntries` | ClassComparator.java:154-168 | keys are exactly the descriptors whose read returns; with unique names the value is the class name, or `"java.null"` for a null value |
| `PropertyTables.NonNullTableEntries` | ClassComparator.java:216-228 | keys are exactly the descriptors whose read returns a non-null value; with unique names the value is that value |
| `PropertyTables.NonNullAgreesWithValueTypes` | ClassComparator.java:154-168 | with unique names each non-null entry's class name is what the value-type table holds under that name |
| `Comparison.BuilderKeysNest` | ClassComparator.java:125-234 | type-table keys equal the listed names; non-null keys are a subset of value-type keys, which are a subset of those; the two reading builders throw together |
| `Comparison.CountsBounded` | ClassComparator.java:52-115 | every count is at least 0 and at most the size of the first collection, and 0 when either collection is empty |
| `Comparison.CountsZeroWhenIntrospectionFails` | ClassComparator.java:136-202 | when either object's introspection fails, each counter returns 0 unless a builder throws |
| `Comparison.NameCountDominates` | ClassComparator.java:100-116 | the name count is at least the type count and at least the value-type count whenever those return |
| `Comparison.TableCountAtMostNameCount` | ClassComparator.java:47-62 | for any builder, the matched-key count of two tables is at most the matched-position count of the two name lists |
| `Comparison.MatchedKeysOfTables` | ClassComparator.java:52-88 | a key counts exactly when its last entry and the last entry of some name of the other object match, names and entries both ignoring case |
| `Comparison.MatchedKeyHasMatchingEntries` | ClassComparator.java:55 | a counted key comes from a pair of matching last entries |
| `Comparison.MatchingEntriesGiveMatchedKey` | ClassComparator.java:55 | a pair of matching last entries makes the first name a counted key |
| `Comparison.DeclaredTypeEntriesMatch` | ClassComparator.java:190-194 | two declared-type entries match exactly when both or neither declared type is present |
| `Comparison.TypeCountIgnoresDeclaredTypes` | ClassComparator.java:187-197 | with unique names, a property counts by type exactly when an alike-named property of the other object agrees on whether a declared type is present |
| `Comparison.NullValueNeverMatchesValue` | ClassComparator.java:65-69 | a null value is not counted against alike-named non-null values whose class names differ from the sentinel ignoring case |
| `Comparison.NonNullValueNeverMatchesNull` | ClassComparator.java:65-69 | a non-null value whose class name is not the sentinel is not counted against alike-named properties that are all null or unreadable, as in the doc comment's `size` of 10 against null |
| `Comparison.ValueTypeCountAtMostTypeCount` | ClassComparator.java:47-89 | on objects whose descriptors Introspector can build, a value-type count that returns is at most the type count |
| `Comparison.TypeTableHoldsClassOfClass` | ClassComparator.java:190-191 | when every descriptor has a declared type, every value of the type table is `"java.lang.Class"` |
| `Comparison.SentinelsMatch` | ClassComparator.java:157-161 | two alike-named entries that are both the sentinel are counted |
| `Matching.MatchedPositionsStep` | ClassComparator.java:106-113 | scanning one more entry of the first list adds one exactly when it has a match, whatever came before |
| `Matching.MatchedPositionsBounds` | ClassComparator.java:105-115 | the name count is between 0 and the length of the first list, and 0 when either list is empty |
| `Matching.DuplicatesCountEach` | ClassComparator.java:106-113 | appending a name with a match adds one even if the same name is already in the first list |
| `Matching.MatchedKeysWithin` | ClassComparator.java:53 | only keys of the first map are counted |
| `Matching.MatchedKeysBounds` | ClassComparator.java:52-61 | the key count is between 0 and the size of the first map, and 0 when either map is empty |
| `Scenarios.NullLabelNameCount` | ClassComparator.java:100-116 | two beans with `class`, `id`, `label` share 3 names |
| `Scenarios.NullLabelTypeCount` | ClassComparator.java:47-62 | the same beans share 3 properties by name and declared type |
| `Scenarios.NullLabelValueTypeTables` | ClassComparator.java:154-168 | the null `label` is stored as `"java.null"`, the string one as its class name |
| `Scenarios.NullLabelValueTypeCount` | ClassComparator.java:74-89 | by value type the null `label` does not match, leaving 2 |
| `Scenarios.StringNameMatchesIntegerNameByType` | ClassComparator.java:39-62 | String `name` and Integer `name` match by name and type, against the doc comment |
| `Scenarios.StringNameDiffersFromIntegerNameByValueType` | ClassComparator.java:74-89 | the same two properties differ by value type |
| `Scenarios.CaseVariantsCountedTwice` | ClassComparator.java:105-115 | `ID` and `id` both match the one `id` of the other object, counted twice |
| `Scenarios.WriteOnlyPropertyThrows` | ClassComparator.java:154-168 | a property without a read method leaves the name and type counts defined and makes the value-type count throw |

## Left out

- `main` (ClassComparator.java:25-36): it builds demo beans that are not part of this model and prints results.
- Logging through slf4j: it does not affect any returned value.
- `java.beans.Introspector`, `PropertyDescriptor` and `Method.invoke`: they are replaced by the explicit descriptor input. Real `Class.getName()` strings are opaque strings.
- The model gives a getter one fixed outcome. The two builders that call the getters therefore see the same values. Getters with side effects, and objects changed by another thread, are not modelled.
- `String.equalsIgnoreCase` is modelled by ASCII folding only: Unicode case mappings are not modelled.
- `TreeMap` sort order: the maps are Dafny maps, and the map counters visit keys in any order. The count is proved to be a set cardinality, so it does not depend on the order.
- The `IllegalArgumentException` catches around `descriptor.getName()` (ClassComparator.java:130-134) and `descriptor.getPropertyType()` (ClassComparator.java:188-197) guard calls that do not throw it, so the model has no such path.
- Errors other than the exceptions named above, such as `SecurityException` or `ExceptionInInitializerError`, are not modelled.
- The descriptor input admits combinations Introspector never builds, such as a property with no declared type that still has a read method. Lemmas that depend on this carry `Realizable` as a precondition; the others hold for every input.
- The counters' boxed `Integer` cannot overflow: a count is at most the size of a Java collection.
- ClassComparator.CountEntryMatches: the inner scan is a separate method, and the increment follows it; Java increments before `break`. The result is the same.
