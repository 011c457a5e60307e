/** What the three counters return, as functions of the two objects, and
    what follows about them. */
module Comparison {
  import opened Beans
  import opened IgnoreCase
  import opened PropertyTables
  import opened Matching

  /** What `countCommonPropertiesByName` returns. */
  ghost function CommonByName(x: Ref, y: Ref): Outcome<int>
  {
    match (NamesOf(x), NamesOf(y))
    case (Normal(names1), Normal(names2)) => Normal(|MatchedPositions(names1, names2)|)
    case _ => NullPointerException
  }

  /** What `countCommonPropertiesByNameAndType` returns. */
  ghost function CommonByNameAndType(x: Ref, y: Ref): Outcome<int>
  {
    match (TypesOf(x), TypesOf(y))
    case (Normal(m1), Normal(m2)) => Normal(|MatchedKeys(m1, m2)|)
    case _ => NullPointerException
  }

  /** What `countCommonPropertiesByNameAndValueType` returns. */
  ghost function CommonByNameAndValueType(x: Ref, y: Ref): Outcome<int>
  {
    match (ValueTypesOf(x), ValueTypesOf(y))
    case (Normal(m1), Normal(m2)) => Normal(|MatchedKeys(m1, m2)|)
    case _ => NullPointerException
  }

  /** Descriptor `i` of the first object and descriptor `j` of the second hold
      the last entries of their names, and names and entries match ignoring case. */
  ghost predicate LastEntriesMatch(ds1: seq<PropertyDescriptor>, ds2: seq<PropertyDescriptor>,
                                   entry: PropertyDescriptor -> Option<string>, i: int, j: int)
    requires 0 <= i < |ds1| && 0 <= j < |ds2|
  {
    && IsLastEntry(ds1, entry, i) && IsLastEntry(ds2, entry, j)
    && EqualsIgnoreCase(ds1[i].name, ds2[j].name)
    && EqualsIgnoreCase(entry(ds1[i]).value, entry(ds2[j]).value)
  }

  /** A counted key of the first table comes from a pair of matching last entries. */
  lemma MatchedKeyHasMatchingEntries(ds1: seq<PropertyDescriptor>, ds2: seq<PropertyDescriptor>,
                                     entry: PropertyDescriptor -> Option<string>, k: string)
    requires k in MatchedKeys(Table(ds1, entry), Table(ds2, entry))
    ensures exists i, j :: 0 <= i < |ds1| && 0 <= j < |ds2| && ds1[i].name == k && LastEntriesMatch(ds1, ds2, entry, i, j)
  {
    var m1, m2 := Table(ds1, entry), Table(ds2, entry);
    TableKeysHaveLastEntry(ds1, entry);
    TableKeysHaveLastEntry(ds2, entry);
    var i :| 0 <= i < |ds1| && ds1[i].name == k && IsLastEntry(ds1, entry, i);
    var k2 :| k2 in m2 && EqualsIgnoreCase(k, k2) && EqualsIgnoreCase(m1[k], m2[k2]);
    var j :| 0 <= j < |ds2| && ds2[j].name == k2 && IsLastEntry(ds2, entry, j);
    TableLastEntryWins(ds1, entry, i);
    TableLastEntryWins(ds2, entry, j);
    assert LastEntriesMatch(ds1, ds2, entry, i, j);
  }

  /** A pair of matching last entries makes the first one's name a counted key. */
  lemma MatchingEntriesGiveMatchedKey(ds1: seq<PropertyDescriptor>, ds2: seq<PropertyDescriptor>,
                                      entry: PropertyDescriptor -> Option<string>, i: int, j: int)
    requires 0 <= i < |ds1| && 0 <= j < |ds2| && LastEntriesMatch(ds1, ds2, entry, i, j)
    ensures ds1[i].name in MatchedKeys(Table(ds1, entry), Table(ds2, entry))
  {
    TableLastEntryWins(ds1, entry, i);
    TableLastEntryWins(ds2, entry, j);
    assert HasEntryMatch(ds1[i].name, Table(ds1, entry)[ds1[i].name], Table(ds2, entry));
  }

  /** A key of the first table is counted exactly when its last entry and the
      last entry of some name in the second table match, names and entries
      both ignoring case. */
  lemma MatchedKeysOfTables(ds1: seq<PropertyDescriptor>, ds2: seq<PropertyDescriptor>,
                            entry: PropertyDescriptor -> Option<string>, k: string)
    ensures k in MatchedKeys(Table(ds1, entry), Table(ds2, entry)) <==>
      exists i, j :: 0 <= i < |ds1| && 0 <= j < |ds2| && ds1[i].name == k && LastEntriesMatch(ds1, ds2, entry, i, j)
  {
    if k in MatchedKeys(Table(ds1, entry), Table(ds2, entry)) {
      MatchedKeyHasMatchingEntries(ds1, ds2, entry, k);
    }
    if exists i, j :: 0 <= i < |ds1| && 0 <= j < |ds2| && ds1[i].name == k && LastEntriesMatch(ds1, ds2, entry, i, j) {
      var i, j :| 0 <= i < |ds1| && 0 <= j < |ds2| && ds1[i].name == k && LastEntriesMatch(ds1, ds2, entry, i, j);
      MatchingEntriesGiveMatchedKey(ds1, ds2, entry, i, j);
    }
  }

  /** The two strings `getPropertyAndType` stores never match each other. */
  lemma DeclaredTypeEntriesMatch(d1: PropertyDescriptor, d2: PropertyDescriptor)
    ensures EqualsIgnoreCase(DeclaredTypeEntry(d1).value, DeclaredTypeEntry(d2).value) <==>
      d1.propertyType.Some? == d2.propertyType.Some?
  {
  }

  /** The name and type count ignores what the declared types are: with unique
      names, a property counts exactly when some property of the other object
      has its name ignoring case and both or neither have a declared type. */
  lemma TypeCountIgnoresDeclaredTypes(ds1: seq<PropertyDescriptor>, ds2: seq<PropertyDescriptor>, i: int)
    requires UniqueNames(ds1) && UniqueNames(ds2) && 0 <= i < |ds1|
    ensures ds1[i].name in MatchedKeys(Table(ds1, DeclaredTypeEntry), Table(ds2, DeclaredTypeEntry)) <==>
      exists j :: 0 <= j < |ds2| && EqualsIgnoreCase(ds1[i].name, ds2[j].name) &&
        ds1[i].propertyType.Some? == ds2[j].propertyType.Some?
  {
    var k := ds1[i].name;
    MatchedKeysOfTables(ds1, ds2, DeclaredTypeEntry, k);
    if k in MatchedKeys(Table(ds1, DeclaredTypeEntry), Table(ds2, DeclaredTypeEntry)) {
      var i', j :| 0 <= i' < |ds1| && 0 <= j < |ds2| && ds1[i'].name == k && LastEntriesMatch(ds1, ds2, DeclaredTypeEntry, i', j);
      DeclaredTypeEntriesMatch(ds1[i'], ds2[j]);
      assert i' == i;
    }
    if exists j :: 0 <= j < |ds2| && EqualsIgnoreCase(k, ds2[j].name) &&
        ds1[i].propertyType.Some? == ds2[j].propertyType.Some?
    {
      var j :| 0 <= j < |ds2| && EqualsIgnoreCase(k, ds2[j].name) &&
        ds1[i].propertyType.Some? == ds2[j].propertyType.Some?;
      DeclaredTypeEntriesMatch(ds1[i], ds2[j]);
      assert IsLastEntry(ds1, DeclaredTypeEntry, i) && IsLastEntry(ds2, DeclaredTypeEntry, j);
      assert LastEntriesMatch(ds1, ds2, DeclaredTypeEntry, i, j);
    }
  }

  /** The value-type count treats a null value as unequal to every non-null
      one: a property read as null is not counted when every property of the
      other object with its name reads a non-null value whose class name is
      not the sentinel ignoring case. */
  lemma NullValueNeverMatchesValue(ds1: seq<PropertyDescriptor>, ds2: seq<PropertyDescriptor>, i: int)
    requires 0 <= i < |ds1| && ds1[i].read.ReturnedNull? && IsLastEntry(ds1, ValueTypeEntry, i)
    requires forall j :: 0 <= j < |ds2| && EqualsIgnoreCase(ds1[i].name, ds2[j].name) ==>
      !ds2[j].read.ReturnedNull? &&
      (ds2[j].read.Returned? ==> !EqualsIgnoreCase(ds2[j].read.value.className, NULL_SENTINEL))
    ensures ds1[i].name !in MatchedKeys(Table(ds1, ValueTypeEntry), Table(ds2, ValueTypeEntry))
  {
    MatchedKeysOfTables(ds1, ds2, ValueTypeEntry, ds1[i].name);
  }

  /** The same rule from the other side, as in the example of a `size` set to
      10 on the first object and null on the second: a property read as a
      non-null value whose class name is not the sentinel ignoring case is not
      counted when no property of the other object with its name reads a
      non-null value. */
  lemma NonNullValueNeverMatchesNull(ds1: seq<PropertyDescriptor>, ds2: seq<PropertyDescriptor>, i: int)
    requires 0 <= i < |ds1| && ds1[i].read.Returned? && IsLastEntry(ds1, ValueTypeEntry, i)
    requires !EqualsIgnoreCase(ds1[i].read.value.className, NULL_SENTINEL)
    requires forall j :: 0 <= j < |ds2| && EqualsIgnoreCase(ds1[i].name, ds2[j].name) ==> !ds2[j].read.Returned?
    ensures ds1[i].name !in MatchedKeys(Table(ds1, ValueTypeEntry), Table(ds2, ValueTypeEntry))
  {
    MatchedKeysOfTables(ds1, ds2, ValueTypeEntry, ds1[i].name);
  }

  /** The sentinel matches itself: two properties of alike names whose entries
      are both the sentinel (both values null, or both declared types absent)
      are counted. */
  lemma SentinelsMatch(ds1: seq<PropertyDescriptor>, ds2: seq<PropertyDescriptor>,
                       entry: PropertyDescriptor -> Option<string>, i: int, j: int)
    requires 0 <= i < |ds1| && 0 <= j < |ds2|
    requires IsLastEntry(ds1, entry, i) && IsLastEntry(ds2, entry, j)
    requires entry(ds1[i]) == Some(NULL_SENTINEL) && entry(ds2[j]) == Some(NULL_SENTINEL)
    requires EqualsIgnoreCase(ds1[i].name, ds2[j].name)
    ensures ds1[i].name in MatchedKeys(Table(ds1, entry), Table(ds2, entry))
  {
    assert LastEntriesMatch(ds1, ds2, entry, i, j);
    MatchingEntriesGiveMatchedKey(ds1, ds2, entry, i, j);
  }

  /** The four builders agree on names: the declared-type table has a key for
      every listed name, the value-type table keys a subset of those, and the
      non-null table keys a subset of those; the two builders that invoke read
      methods throw together. */
  lemma BuilderKeysNest(x: Ref)
    ensures NamesOf(x).Normal? <==> TypesOf(x).Normal?
    ensures ValueTypesOf(x).Normal? <==> NonNullOf(x).Normal?
    ensures ValueTypesOf(x).Normal? ==> NamesOf(x).Normal?
    ensures NamesOf(x).Normal? ==> TypesOf(x).value.Keys == (set n | n in NamesOf(x).value)
    ensures ValueTypesOf(x).Normal? ==>
      && NonNullOf(x).value.Keys <= ValueTypesOf(x).value.Keys
      && ValueTypesOf(x).value.Keys <= TypesOf(x).value.Keys
  {
    if x.Instance? && x.info.BeanInfo? {
      var ds := x.info.descriptors;
      TypeTableEntries(ds);
      ValueTypeTableEntries(ds);
      NonNullTableEntries(ds);
      var names := NameList(ds);
      assert |names| == |ds| && forall i :: 0 <= i < |ds| ==> names[i] == ds[i].name;
      assert forall n :: n in names <==> exists i :: 0 <= i < |ds| && ds[i].name == n by {
        forall n | n in names ensures exists i :: 0 <= i < |ds| && ds[i].name == n {
          var i :| 0 <= i < |names| && names[i] == n;
        }
      }
    }
  }

  /** Every counter's result is between zero and the size of its first
      collection, and zero when either collection is empty. */
  lemma CountsBounded(x: Ref, y: Ref)
    ensures CommonByName(x, y).Normal? ==>
      0 <= CommonByName(x, y).value <= |NamesOf(x).value| &&
      (NamesOf(x).value == [] || NamesOf(y).value == [] ==> CommonByName(x, y).value == 0)
    ensures CommonByNameAndType(x, y).Normal? ==>
      0 <= CommonByNameAndType(x, y).value <= |TypesOf(x).value| &&
      (|TypesOf(x).value| == 0 || |TypesOf(y).value| == 0 ==> CommonByNameAndType(x, y).value == 0)
    ensures CommonByNameAndValueType(x, y).Normal? ==>
      0 <= CommonByNameAndValueType(x, y).value <= |ValueTypesOf(x).value| &&
      (|ValueTypesOf(x).value| == 0 || |ValueTypesOf(y).value| == 0 ==> CommonByNameAndValueType(x, y).value == 0)
  {
    if CommonByName(x, y).Normal? {
      MatchedPositionsBounds(NamesOf(x).value, NamesOf(y).value);
    }
    if CommonByNameAndType(x, y).Normal? {
      MatchedKeysBounds(TypesOf(x).value, TypesOf(y).value);
    }
    if CommonByNameAndValueType(x, y).Normal? {
      MatchedKeysBounds(ValueTypesOf(x).value, ValueTypesOf(y).value);
    }
  }

  /** When introspection of either object fails, every counter that returns
      at all returns zero; only a null argument, or, for the value-type count,
      a property without a read method, makes it throw. */
  lemma CountsZeroWhenIntrospectionFails(x: Ref, y: Ref)
    requires x == Instance(IntrospectionFailed) || y == Instance(IntrospectionFailed)
    ensures CommonByName(x, y) == if x.Null? || y.Null? then NullPointerException else Normal(0)
    ensures CommonByNameAndType(x, y) == if x.Null? || y.Null? then NullPointerException else Normal(0)
    ensures CommonByNameAndValueType(x, y) ==
      if ValueTypesOf(x).NullPointerException? || ValueTypesOf(y).NullPointerException? then NullPointerException
      else Normal(0)
  {
    CountsBounded(x, y);
  }

  /** The name count is never below the other two: every key the type or
      value-type tables count is the name of some position the name count
      counts. */
  lemma NameCountDominates(x: Ref, y: Ref)
    ensures CommonByNameAndType(x, y).Normal? ==>
      CommonByName(x, y).Normal? && CommonByNameAndType(x, y).value <= CommonByName(x, y).value
    ensures CommonByNameAndValueType(x, y).Normal? ==>
      CommonByName(x, y).Normal? && CommonByNameAndValueType(x, y).value <= CommonByName(x, y).value
  {
    if x.Instance? && y.Instance? {
      if x.info.BeanInfo? && y.info.BeanInfo? {
        var ds1, ds2 := x.info.descriptors, y.info.descriptors;
        TableCountAtMostNameCount(ds1, ds2, DeclaredTypeEntry);
        TableCountAtMostNameCount(ds1, ds2, ValueTypeEntry);
      } else {
        CountsBounded(x, y);
      }
    }
  }

  /** On objects Introspector can describe, the value-type count never
      exceeds the type count: a value-type count that returns means no
      property lacks a read method, so every property has a declared type,
      every type entry is the class-of-Class name, and every key the
      value-type count counts is one the type count counts. */
  lemma ValueTypeCountAtMostTypeCount(x: Ref, y: Ref)
    requires Realizable(x) && Realizable(y)
    ensures CommonByNameAndValueType(x, y).Normal? ==>
      CommonByNameAndType(x, y).Normal? && CommonByNameAndValueType(x, y).value <= CommonByNameAndType(x, y).value
  {
    if CommonByNameAndValueType(x, y).Normal? {
      BuilderKeysNest(x);
      BuilderKeysNest(y);
      if x.info.BeanInfo? && y.info.BeanInfo? {
        var ds1, ds2 := x.info.descriptors, y.info.descriptors;
        var v1, v2 := Table(ds1, ValueTypeEntry), Table(ds2, ValueTypeEntry);
        var t1, t2 := Table(ds1, DeclaredTypeEntry), Table(ds2, DeclaredTypeEntry);
        TypeTableHoldsClassOfClass(ds1);
        TypeTableHoldsClassOfClass(ds2);
        forall k | k in MatchedKeys(v1, v2) ensures k in MatchedKeys(t1, t2) {
          var k2 :| k2 in v2 && EqualsIgnoreCase(k, k2) && EqualsIgnoreCase(v1[k], v2[k2]);
          assert EqualsIgnoreCase(t1[k], t2[k2]);
        }
        SubsetCardinality(MatchedKeys(v1, v2), MatchedKeys(t1, t2));
      } else {
        CountsBounded(x, y);
      }
    }
  }

  /** When every descriptor has a declared type, every value of the type
      table is the class-of-Class name. */
  lemma TypeTableHoldsClassOfClass(ds: seq<PropertyDescriptor>)
    requires forall i :: 0 <= i < |ds| ==> ds[i].propertyType.Some?
    ensures forall k :: k in Table(ds, DeclaredTypeEntry) ==> Table(ds, DeclaredTypeEntry)[k] == CLASS_OF_CLASS
  {
    TableKeysHaveLastEntry(ds, DeclaredTypeEntry);
    forall k | k in Table(ds, DeclaredTypeEntry) ensures Table(ds, DeclaredTypeEntry)[k] == CLASS_OF_CLASS {
      var i :| 0 <= i < |ds| && ds[i].name == k && IsLastEntry(ds, DeclaredTypeEntry, i);
      TableLastEntryWins(ds, DeclaredTypeEntry, i);
    }
  }

  lemma TableCountAtMostNameCount(ds1: seq<PropertyDescriptor>, ds2: seq<PropertyDescriptor>,
                                  entry: PropertyDescriptor -> Option<string>)
    ensures |MatchedKeys(Table(ds1, entry), Table(ds2, entry))| <= |MatchedPositions(NameList(ds1), NameList(ds2))|
  {
    var K := MatchedKeys(Table(ds1, entry), Table(ds2, entry));
    var P := MatchedPositions(NameList(ds1), NameList(ds2));
    forall k | k in K
      ensures exists i :: i in P && 0 <= i < |NameList(ds1)| && NameList(ds1)[i] == k
    {
      MatchedKeyHasMatchingEntries(ds1, ds2, entry, k);
      var i, j :| 0 <= i < |ds1| && 0 <= j < |ds2| && ds1[i].name == k && LastEntriesMatch(ds1, ds2, entry, i, j);
      assert EqualsIgnoreCase(NameList(ds1)[i], NameList(ds2)[j]);
      assert i in P;
    }
    CoveredByPositions(NameList(ds1), P, K);
  }
}
