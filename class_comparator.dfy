/** The operations of ClassComparator: four builders that walk the property
    descriptors of one object and three counters that compare two objects. */
module ClassComparator {
  import opened Beans
  import opened IgnoreCase
  import opened PropertyTables
  import opened Matching
  import opened Comparison

  /** `getPropertyNames`: the name of every descriptor, in order; the empty
      list when introspection fails. */
  method GetPropertyNames(thingy: Ref) returns (r: Outcome<seq<string>>)
    ensures r == NamesOf(thingy)
    ensures thingy.Null? <==> r.NullPointerException?
    ensures thingy == Instance(IntrospectionFailed) ==> r == Normal([])
    ensures thingy.Instance? && thingy.info.BeanInfo? ==>
      r.Normal? && |r.value| == |thingy.info.descriptors| &&
      forall i :: 0 <= i < |r.value| ==> r.value[i] == thingy.info.descriptors[i].name
  {
    if thingy.Null? {
      return NullPointerException;
    }
    var properties: seq<string> := [];
    if thingy.info.BeanInfo? {
      var ds := thingy.info.descriptors;
      for i := 0 to |ds|
        invariant |properties| == i
        invariant forall j :: 0 <= j < i ==> properties[j] == ds[j].name
      {
        properties := properties + [ds[i].name];
      }
      assert properties == NameList(ds);
    }
    return Normal(properties);
  }

  /** `getPropertyAndValueType`: under each property whose read succeeds, the
      class name of its value, or the null sentinel for a null value; a read
      that throws a caught exception is skipped. A property without a read
      method makes `invoke` on null throw, and that exception escapes. */
  method GetPropertyAndValueType(thingy: Ref) returns (r: Outcome<map<string, string>>)
    ensures r == ValueTypesOf(thingy)
  {
    if thingy.Null? {
      return NullPointerException;
    }
    var nonNullProperties: map<string, string> := map[];
    if thingy.info.BeanInfo? {
      var ds := thingy.info.descriptors;
      for i := 0 to |ds|
        invariant nonNullProperties == Table(ds[..i], ValueTypeEntry)
        invariant forall j :: 0 <= j < i ==> !ds[j].read.NoReadMethod?
      {
        var d := ds[i];
        assert ds[..i + 1][..i] == ds[..i];
        match d.read
        case NoReadMethod =>
          return NullPointerException;
        case Threw(_) =>
        case ReturnedNull =>
          nonNullProperties := nonNullProperties[d.name := NULL_SENTINEL];
        case Returned(v) =>
          nonNullProperties := nonNullProperties[d.name := v.className];
      }
      assert ds[..|ds|] == ds;
    }
    return Normal(nonNullProperties);
  }

  /** `getPropertyAndType`: every descriptor's name, under the null sentinel
      when it has no declared type and otherwise under the class name of
      the declared type's `Class` object. */
  method GetPropertyAndType(thingy: Ref) returns (r: Outcome<map<string, string>>)
    ensures r == TypesOf(thingy)
  {
    if thingy.Null? {
      return NullPointerException;
    }
    var nonNullProperties: map<string, string> := map[];
    if thingy.info.BeanInfo? {
      var ds := thingy.info.descriptors;
      for i := 0 to |ds|
        invariant nonNullProperties == Table(ds[..i], DeclaredTypeEntry)
      {
        var d := ds[i];
        assert ds[..i + 1][..i] == ds[..i];
        if d.propertyType.Some? {
          nonNullProperties := nonNullProperties[d.name := CLASS_OF_CLASS];
        } else {
          nonNullProperties := nonNullProperties[d.name := NULL_SENTINEL];
        }
      }
      assert ds[..|ds|] == ds;
    }
    return Normal(nonNullProperties);
  }

  /** `getNonNullProperties`: under each property whose read returns a
      non-null value, that value; null values and caught failures are skipped,
      and a property without a read method throws as in `GetPropertyAndValueType`. */
  method GetNonNullProperties(thingy: Ref) returns (r: Outcome<map<string, Value>>)
    ensures r == NonNullOf(thingy)
  {
    if thingy.Null? {
      return NullPointerException;
    }
    var nonNullProperties: map<string, Value> := map[];
    if thingy.info.BeanInfo? {
      var ds := thingy.info.descriptors;
      for i := 0 to |ds|
        invariant nonNullProperties == Table(ds[..i], NonNullEntry)
        invariant forall j :: 0 <= j < i ==> !ds[j].read.NoReadMethod?
      {
        var d := ds[i];
        assert ds[..i + 1][..i] == ds[..i];
        match d.read
        case NoReadMethod =>
          return NullPointerException;
        case Returned(v) =>
          nonNullProperties := nonNullProperties[d.name := v];
        case _ =>
      }
      assert ds[..|ds|] == ds;
    }
    return Normal(nonNullProperties);
  }

  /** The nested scan of `countCommonPropertiesByName`: for each name of the
      first list, look for a match in the second and stop at the first. */
  method CountNameMatches(prop1: seq<string>, prop2: seq<string>) returns (count: int)
    ensures count == |MatchedPositions(prop1, prop2)|
  {
    count := 0;
    for i := 0 to |prop1|
      invariant count == |MatchedPositions(prop1[..i], prop2)|
    {
      MatchedPositionsStep(prop1, prop2, i);
      for j := 0 to |prop2|
        invariant forall k :: 0 <= k < j ==> !EqualsIgnoreCase(prop1[i], prop2[k])
        invariant count == |MatchedPositions(prop1[..i], prop2)|
      {
        if EqualsIgnoreCase(prop1[i], prop2[j]) {
          count := count + 1;
          break;
        }
      }
    }
    assert prop1[..|prop1|] == prop1;
  }

  /** The inner scan of the two map counters: look through the keys of
      `prop2`, in any order, for one whose name matches `p1` and whose value
      matches `v1`, both ignoring case, and stop at the first. */
  method ScanForEntryMatch(p1: string, v1: string, prop2: map<string, string>) returns (found: bool)
    ensures found == HasEntryMatch(p1, v1, prop2)
  {
    var rest := prop2.Keys;
    while rest != {}
      invariant rest <= prop2.Keys
      invariant forall p2 :: p2 in prop2 && p2 !in rest ==>
        !(EqualsIgnoreCase(p1, p2) && EqualsIgnoreCase(v1, prop2[p2]))
      decreases rest
    {
      var p2 :| p2 in rest;
      if EqualsIgnoreCase(p1, p2) && EqualsIgnoreCase(v1, prop2[p2]) {
        return true;
      }
      rest := rest - {p2};
    }
    return false;
  }

  /** The nested scan of the two map counters: for each key of the first map,
      in any order, count one when the inner scan finds a match. */
  method CountEntryMatches(prop1: map<string, string>, prop2: map<string, string>) returns (count: int)
    ensures count == |MatchedKeys(prop1, prop2)|
  {
    count := 0;
    var pending := prop1.Keys;
    ghost var matched := MatchedKeys(prop1, prop2);
    while pending != {}
      invariant pending <= prop1.Keys
      invariant count == |matched * (prop1.Keys - pending)|
      decreases pending
    {
      var p1 :| p1 in pending;
      VisitOneMore(matched, prop1.Keys, pending, p1);
      var found := ScanForEntryMatch(p1, prop1[p1], prop2);
      if found {
        count := count + 1;
      }
      pending := pending - {p1};
    }
    MatchedKeysWithin(prop1, prop2);
    assert prop1.Keys - pending == prop1.Keys;
  }

  /** `countCommonPropertiesByName`. */
  method CountCommonPropertiesByName(obj1: Ref, obj2: Ref) returns (r: Outcome<int>)
    ensures r == CommonByName(obj1, obj2)
  {
    var prop1 := GetPropertyNames(obj1);
    if prop1.NullPointerException? {
      return NullPointerException;
    }
    var prop2 := GetPropertyNames(obj2);
    if prop2.NullPointerException? {
      return NullPointerException;
    }
    var count := CountNameMatches(prop1.value, prop2.value);
    return Normal(count);
  }

  /** `countCommonPropertiesByNameAndType`. */
  method CountCommonPropertiesByNameAndType(obj1: Ref, obj2: Ref) returns (r: Outcome<int>)
    ensures r == CommonByNameAndType(obj1, obj2)
  {
    var prop1 := GetPropertyAndType(obj1);
    if prop1.NullPointerException? {
      return NullPointerException;
    }
    var prop2 := GetPropertyAndType(obj2);
    if prop2.NullPointerException? {
      return NullPointerException;
    }
    var count := CountEntryMatches(prop1.value, prop2.value);
    return Normal(count);
  }

  /** `countCommonPropertiesByNameAndValueType`. */
  method CountCommonPropertiesByNameAndValueType(obj1: Ref, obj2: Ref) returns (r: Outcome<int>)
    ensures r == CommonByNameAndValueType(obj1, obj2)
  {
    var prop1 := GetPropertyAndValueType(obj1);
    if prop1.NullPointerException? {
      return NullPointerException;
    }
    var prop2 := GetPropertyAndValueType(obj2);
    if prop2.NullPointerException? {
      return NullPointerException;
    }
    var count := CountEntryMatches(prop1.value, prop2.value);
    return Normal(count);
  }
}
