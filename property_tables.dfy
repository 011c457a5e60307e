/** What the four property-table builders of ClassComparator return, as
    functions of the introspected object. */
module PropertyTables {
  import opened Beans

  /** The string stored for an absent value or an absent declared type. */
  const NULL_SENTINEL: string := "java.null"

  /** `propertyType.getClass().getName()`: the class of a `Class` object,
      the same string whatever the declared type is. */
  const CLASS_OF_CLASS: string := "java.lang.Class"

  /** The entry the declared-type table holds for a descriptor: every
      descriptor has one. */
  function DeclaredTypeEntry(d: PropertyDescriptor): Option<string>
  {
    if d.propertyType.Some? then Some(CLASS_OF_CLASS) else Some(NULL_SENTINEL)
  }

  /** The entry the value-type table holds for a descriptor: none when the
      read fails. */
  function ValueTypeEntry(d: PropertyDescriptor): Option<string>
  {
    match d.read
    case Returned(v) => Some(v.className)
    case ReturnedNull => Some(NULL_SENTINEL)
    case _ => None
  }

  /** The entry the non-null table holds for a descriptor: the value itself. */
  function NonNullEntry(d: PropertyDescriptor): Option<Value>
  {
    if d.read.Returned? then Some(d.read.value) else None
  }

  /** Descriptor `i` has an entry and no later descriptor of the same name has one. */
  ghost predicate IsLastEntry<V>(ds: seq<PropertyDescriptor>, entry: PropertyDescriptor -> Option<V>, i: int)
    requires 0 <= i < |ds|
  {
    entry(ds[i]).Some? && forall j :: i < j < |ds| && ds[j].name == ds[i].name ==> entry(ds[j]).None?
  }

  /** No two descriptors share a name, as Introspector guarantees. */
  ghost predicate UniqueNames(ds: seq<PropertyDescriptor>)
  {
    forall i, j :: 0 <= i < j < |ds| ==> ds[i].name != ds[j].name
  }

  /** The descriptor combinations Introspector builds: a property without a
      declared type is an indexed-only one, and such a property has no plain
      read method. */
  ghost predicate Realizable(x: Ref)
  {
    x.Instance? && x.info.BeanInfo? ==>
      forall i :: 0 <= i < |x.info.descriptors| && x.info.descriptors[i].propertyType.None? ==>
        x.info.descriptors[i].read.NoReadMethod?
  }

  /** One pass of a builder's loop body: `put` the descriptor's entry under
      its name, when it has one. */
  function Put<V>(t: map<string, V>, d: PropertyDescriptor, entry: PropertyDescriptor -> Option<V>): map<string, V>
  {
    match entry(d)
    case Some(v) => t[d.name := v]
    case None => t
  }

  /** The map that `put`ting `name -> entry` for each descriptor in order
      builds: later puts under the same name overwrite earlier ones. */
  ghost function Table<V>(ds: seq<PropertyDescriptor>, entry: PropertyDescriptor -> Option<V>): map<string, V>
    decreases |ds|
  {
    if ds == [] then map[] else Put(Table(ds[..|ds| - 1], entry), ds[|ds| - 1], entry)
  }

  /** The keys of a table are exactly the names of the descriptors that have an entry. */
  lemma {:induction false} TableKeys<V>(ds: seq<PropertyDescriptor>, entry: PropertyDescriptor -> Option<V>)
    ensures forall k :: k in Table(ds, entry) <==> exists i :: 0 <= i < |ds| && ds[i].name == k && entry(ds[i]).Some?
    decreases |ds|
  {
    if ds != [] {
      var prefix := ds[..|ds| - 1];
      TableKeys(prefix, entry);
      assert forall i :: 0 <= i < |prefix| ==> prefix[i] == ds[i];
    }
  }

  /** Every key of a table was put by the last descriptor of that name that has an entry. */
  lemma {:induction false} TableKeysHaveLastEntry<V>(ds: seq<PropertyDescriptor>, entry: PropertyDescriptor -> Option<V>)
    ensures forall k :: k in Table(ds, entry) ==> exists i :: 0 <= i < |ds| && ds[i].name == k && IsLastEntry(ds, entry, i)
    decreases |ds|
  {
    if ds != [] {
      var n := |ds| - 1;
      var prefix := ds[..n];
      TableKeysHaveLastEntry(prefix, entry);
      forall k | k in Table(ds, entry)
        ensures exists i :: 0 <= i < |ds| && ds[i].name == k && IsLastEntry(ds, entry, i)
      {
        if ds[n].name == k && entry(ds[n]).Some? {
          assert IsLastEntry(ds, entry, n);
        } else {
          assert k in Table(prefix, entry);
          var i :| 0 <= i < |prefix| && prefix[i].name == k && IsLastEntry(prefix, entry, i);
          assert IsLastEntry(ds, entry, i);
        }
      }
    }
  }

  /** The value under a name is the entry of the last descriptor of that name that has one. */
  lemma {:induction false} TableLastEntryWins<V>(ds: seq<PropertyDescriptor>, entry: PropertyDescriptor -> Option<V>, i: int)
    requires 0 <= i < |ds| && IsLastEntry(ds, entry, i)
    ensures ds[i].name in Table(ds, entry) && Table(ds, entry)[ds[i].name] == entry(ds[i]).value
    decreases |ds|
  {
    var n := |ds| - 1;
    if i < n {
      var prefix := ds[..n];
      assert IsLastEntry(prefix, entry, i);
      TableLastEntryWins(prefix, entry, i);
    }
  }

  /** The names of the descriptors, in order. */
  function NameList(ds: seq<PropertyDescriptor>): seq<string>
  {
    seq(|ds|, i requires 0 <= i < |ds| => ds[i].name)
  }

  /** Some descriptor has no read method. */
  ghost predicate HasWriteOnly(ds: seq<PropertyDescriptor>)
  {
    exists i :: 0 <= i < |ds| && ds[i].read.NoReadMethod?
  }

  /** What `getPropertyNames` returns. */
  ghost function NamesOf(x: Ref): Outcome<seq<string>>
  {
    match x
    case Null => NullPointerException
    case Instance(IntrospectionFailed) => Normal([])
    case Instance(BeanInfo(ds)) => Normal(NameList(ds))
  }

  /** What `getPropertyAndType` returns. */
  ghost function TypesOf(x: Ref): Outcome<map<string, string>>
  {
    match x
    case Null => NullPointerException
    case Instance(IntrospectionFailed) => Normal(map[])
    case Instance(BeanInfo(ds)) => Normal(Table(ds, DeclaredTypeEntry))
  }

  /** What `getPropertyAndValueType` returns. */
  ghost function ValueTypesOf(x: Ref): Outcome<map<string, string>>
  {
    match x
    case Null => NullPointerException
    case Instance(IntrospectionFailed) => Normal(map[])
    case Instance(BeanInfo(ds)) =>
      if HasWriteOnly(ds) then NullPointerException else Normal(Table(ds, ValueTypeEntry))
  }

  /** What `getNonNullProperties` returns. */
  ghost function NonNullOf(x: Ref): Outcome<map<string, Value>>
  {
    match x
    case Null => NullPointerException
    case Instance(IntrospectionFailed) => Normal(map[])
    case Instance(BeanInfo(ds)) =>
      if HasWriteOnly(ds) then NullPointerException else Normal(Table(ds, NonNullEntry))
  }

  /** `getPropertyAndType` invokes no accessor: every descriptor's name is a
      key, and with unique names each holds the null sentinel exactly when
      the declared type is absent and the class-of-Class name otherwise. */
  lemma TypeTableEntries(ds: seq<PropertyDescriptor>)
    ensures forall k :: k in Table(ds, DeclaredTypeEntry) <==> exists i :: 0 <= i < |ds| && ds[i].name == k
    ensures UniqueNames(ds) ==> forall i :: 0 <= i < |ds| ==>
      Table(ds, DeclaredTypeEntry)[ds[i].name] == (if ds[i].propertyType.None? then NULL_SENTINEL else CLASS_OF_CLASS)
  {
    TableKeys(ds, DeclaredTypeEntry);
    if UniqueNames(ds) {
      forall i | 0 <= i < |ds|
        ensures Table(ds, DeclaredTypeEntry)[ds[i].name] == (if ds[i].propertyType.None? then NULL_SENTINEL else CLASS_OF_CLASS)
      {
        assert IsLastEntry(ds, DeclaredTypeEntry, i);
        TableLastEntryWins(ds, DeclaredTypeEntry, i);
      }
    }
  }

  /** `getPropertyAndValueType` has a key for exactly the descriptors whose
      read returns, null or not; with unique names each holds the value's
      class name, or the null sentinel for a null value. */
  lemma ValueTypeTableEntries(ds: seq<PropertyDescriptor>)
    ensures forall k :: k in Table(ds, ValueTypeEntry) <==>
      exists i :: 0 <= i < |ds| && ds[i].name == k && (ds[i].read.ReturnedNull? || ds[i].read.Returned?)
    ensures UniqueNames(ds) ==> forall i :: 0 <= i < |ds| && ds[i].read.ReturnedNull? ==>
      Table(ds, ValueTypeEntry)[ds[i].name] == NULL_SENTINEL
    ensures UniqueNames(ds) ==> forall i :: 0 <= i < |ds| && ds[i].read.Returned? ==>
      Table(ds, ValueTypeEntry)[ds[i].name] == ds[i].read.value.className
  {
    TableKeys(ds, ValueTypeEntry);
    if UniqueNames(ds) {
      forall i | 0 <= i < |ds| && (ds[i].read.ReturnedNull? || ds[i].read.Returned?)
        ensures Table(ds, ValueTypeEntry)[ds[i].name] == ValueTypeEntry(ds[i]).value
      {
        assert IsLastEntry(ds, ValueTypeEntry, i);
        TableLastEntryWins(ds, ValueTypeEntry, i);
      }
    }
  }

  /** `getNonNullProperties` has a key for exactly the descriptors whose read
      returns a non-null value; with unique names each holds that value. */
  lemma NonNullTableEntries(ds: seq<PropertyDescriptor>)
    ensures forall k :: k in Table(ds, NonNullEntry) <==>
      exists i :: 0 <= i < |ds| && ds[i].name == k && ds[i].read.Returned?
    ensures UniqueNames(ds) ==> forall i :: 0 <= i < |ds| && ds[i].read.Returned? ==>
      Table(ds, NonNullEntry)[ds[i].name] == ds[i].read.value
  {
    TableKeys(ds, NonNullEntry);
    if UniqueNames(ds) {
      forall i | 0 <= i < |ds| && ds[i].read.Returned?
        ensures Table(ds, NonNullEntry)[ds[i].name] == ds[i].read.value
      {
        assert IsLastEntry(ds, NonNullEntry, i);
        TableLastEntryWins(ds, NonNullEntry, i);
      }
    }
  }

  /** With unique names the non-null table and the value-type table agree:
      the value under a name in the first has the class name the second holds. */
  lemma NonNullAgreesWithValueTypes(ds: seq<PropertyDescriptor>)
    requires UniqueNames(ds)
    ensures forall k :: k in Table(ds, NonNullEntry) ==>
      k in Table(ds, ValueTypeEntry) && Table(ds, ValueTypeEntry)[k] == Table(ds, NonNullEntry)[k].className
  {
    NonNullTableEntries(ds);
    ValueTypeTableEntries(ds);
  }
}
