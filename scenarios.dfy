/** Worked examples: the counters on small concrete objects. */
module Scenarios {
  import opened Beans
  import opened IgnoreCase
  import opened PropertyTables
  import opened Matching
  import opened Comparison

  /** Introspector lists a `class` property for every object, read through
      `getClass()`. */
  function ClassProperty(id: nat): PropertyDescriptor
  {
    PropertyDescriptor("class", Some("java.lang.Class"), Returned(Value("java.lang.Class", id)))
  }

  /** An object with `id = 5` and `label = "x"`. */
  function FirstBean(): Ref
  {
    Instance(BeanInfo([
      ClassProperty(0),
      PropertyDescriptor("id", Some("int"), Returned(Value("java.lang.Integer", 1))),
      PropertyDescriptor("label", Some("java.lang.String"), Returned(Value("java.lang.String", 2)))]))
  }

  /** An object of the same shape with `id = 7` and `label = null`. */
  function SecondBean(): Ref
  {
    Instance(BeanInfo([
      ClassProperty(3),
      PropertyDescriptor("id", Some("int"), Returned(Value("java.lang.Integer", 4))),
      PropertyDescriptor("label", Some("java.lang.String"), ReturnedNull)]))
  }

  lemma TableOfThree<V>(d0: PropertyDescriptor, d1: PropertyDescriptor, d2: PropertyDescriptor,
                        entry: PropertyDescriptor -> Option<V>)
    ensures Table([d0, d1, d2], entry) == Put(Put(Put(map[], d0, entry), d1, entry), d2, entry)
  {
    assert [d0][..0] == [];
    assert Table([d0], entry) == Put(map[], d0, entry);
    assert [d0, d1][..1] == [d0];
    assert Table([d0, d1], entry) == Put(Put(map[], d0, entry), d1, entry);
    assert [d0, d1, d2][..2] == [d0, d1];
  }

  /** By name all three properties match, `class` included. */
  lemma NullLabelNameCount()
    ensures CommonByName(FirstBean(), SecondBean()) == Normal(3)
  {
    var names := ["class", "id", "label"];
    var ds1, ds2 := FirstBean().info.descriptors, SecondBean().info.descriptors;
    assert NameList(ds1) == names;
    assert NameList(ds2) == names;
    assert HasNameMatch(names[0], names) && HasNameMatch(names[1], names) && HasNameMatch(names[2], names);
    assert MatchedPositions(names, names) == {0, 1, 2};
  }

  /** By declared type all three match, whatever the values are. */
  lemma NullLabelTypeCount()
    ensures CommonByNameAndType(FirstBean(), SecondBean()) == Normal(3)
  {
    var ds1, ds2 := FirstBean().info.descriptors, SecondBean().info.descriptors;
    var types := map["class" := CLASS_OF_CLASS, "id" := CLASS_OF_CLASS, "label" := CLASS_OF_CLASS];
    TableOfThree(ds1[0], ds1[1], ds1[2], DeclaredTypeEntry);
    TableOfThree(ds2[0], ds2[1], ds2[2], DeclaredTypeEntry);
    assert Table(ds1, DeclaredTypeEntry) == types;
    assert Table(ds2, DeclaredTypeEntry) == types;
    assert HasEntryMatch("class", types["class"], types);
    assert HasEntryMatch("id", types["id"], types);
    assert HasEntryMatch("label", types["label"], types);
    assert MatchedKeys(types, types) == {"class", "id", "label"};
  }

  /** The value-type tables of the two objects: the null `label` holds the sentinel. */
  lemma NullLabelValueTypeTables()
    ensures ValueTypesOf(FirstBean())
         == Normal(map["class" := "java.lang.Class", "id" := "java.lang.Integer", "label" := "java.lang.String"])
    ensures ValueTypesOf(SecondBean())
         == Normal(map["class" := "java.lang.Class", "id" := "java.lang.Integer", "label" := NULL_SENTINEL])
  {
    var ds1, ds2 := FirstBean().info.descriptors, SecondBean().info.descriptors;
    TableOfThree(ds1[0], ds1[1], ds1[2], ValueTypeEntry);
    TableOfThree(ds2[0], ds2[1], ds2[2], ValueTypeEntry);
    assert !HasWriteOnly(ds1) && !HasWriteOnly(ds2);
  }

  /** By value type the null `label` does not match the string one, so two remain. */
  lemma NullLabelValueTypeCount()
    ensures CommonByNameAndValueType(FirstBean(), SecondBean()) == Normal(2)
  {
    var values1 := map["class" := "java.lang.Class", "id" := "java.lang.Integer", "label" := "java.lang.String"];
    var values2 := map["class" := "java.lang.Class", "id" := "java.lang.Integer", "label" := NULL_SENTINEL];
    NullLabelValueTypeTables();
    assert "class"[0] != "label"[0];
    assert values1["class"] == values2["class"] && values1["id"] == values2["id"];
    assert EqualsIgnoreCase("class", "class") && EqualsIgnoreCase(values1["class"], values2["class"]);
    assert HasEntryMatch("class", values1["class"], values2);
    assert EqualsIgnoreCase("id", "id") && EqualsIgnoreCase(values1["id"], values2["id"]);
    assert HasEntryMatch("id", values1["id"], values2);
    assert !HasEntryMatch("label", values1["label"], values2);
    assert MatchedKeys(values1, values2) == {"class", "id"};
  }

  lemma TableOfTwo<V>(d0: PropertyDescriptor, d1: PropertyDescriptor, entry: PropertyDescriptor -> Option<V>)
    ensures Table([d0, d1], entry) == Put(Put(map[], d0, entry), d1, entry)
  {
    assert [d0][..0] == [];
    assert Table([d0], entry) == Put(map[], d0, entry);
    assert [d0, d1][..1] == [d0];
  }

  /** Two objects whose `name` properties are a String and an Integer. */
  function StringName(): Ref
  {
    Instance(BeanInfo([ClassProperty(0), PropertyDescriptor("name", Some("java.lang.String"), Returned(Value("java.lang.String", 1)))]))
  }

  function IntegerName(): Ref
  {
    Instance(BeanInfo([ClassProperty(2), PropertyDescriptor("name", Some("java.lang.Integer"), Returned(Value("java.lang.Integer", 3)))]))
  }

  /** Because every declared type is stored as the class of its `Class`
      object, String `name` and Integer `name` match by name and type. */
  lemma StringNameMatchesIntegerNameByType()
    ensures CommonByNameAndType(StringName(), IntegerName()) == Normal(2)
  {
    var ds1, ds2 := StringName().info.descriptors, IntegerName().info.descriptors;
    assert "class"[0] != "name"[0];
    var types := map["class" := CLASS_OF_CLASS, "name" := CLASS_OF_CLASS];
    TableOfTwo(ds1[0], ds1[1], DeclaredTypeEntry);
    TableOfTwo(ds2[0], ds2[1], DeclaredTypeEntry);
    assert HasEntryMatch("class", types["class"], types);
    assert HasEntryMatch("name", types["name"], types);
    assert MatchedKeys(types, types) == {"class", "name"};
  }

  /** By value type the two `name` properties differ. */
  lemma StringNameDiffersFromIntegerNameByValueType()
    ensures CommonByNameAndValueType(StringName(), IntegerName()) == Normal(1)
  {
    var ds1, ds2 := StringName().info.descriptors, IntegerName().info.descriptors;
    assert "class"[0] != "name"[0];
    var values1 := map["class" := "java.lang.Class", "name" := "java.lang.String"];
    var values2 := map["class" := "java.lang.Class", "name" := "java.lang.Integer"];
    TableOfTwo(ds1[0], ds1[1], ValueTypeEntry);
    TableOfTwo(ds2[0], ds2[1], ValueTypeEntry);
    assert !HasWriteOnly(ds1) && !HasWriteOnly(ds2);
    assert EqualsIgnoreCase("class", "class") && EqualsIgnoreCase(values1["class"], values2["class"]);
    assert HasEntryMatch("class", values1["class"], values2);
    assert !HasEntryMatch("name", values1["name"], values2);
    assert MatchedKeys(values1, values2) == {"class"};
  }

  /** `getID` and `getId` give the distinct properties `ID` and `id`; both
      match the single `id` of the other object, and both are counted. */
  lemma CaseVariantsCountedTwice()
    ensures CommonByName(
      Instance(BeanInfo([PropertyDescriptor("ID", Some("int"), Returned(Value("java.lang.Integer", 0))),
                         PropertyDescriptor("id", Some("int"), Returned(Value("java.lang.Integer", 1)))])),
      Instance(BeanInfo([PropertyDescriptor("id", Some("long"), Returned(Value("java.lang.Long", 2)))])))
      == Normal(2)
  {
    var names1, names2 := ["ID", "id"], ["id"];
    assert NameList([PropertyDescriptor("ID", Some("int"), Returned(Value("java.lang.Integer", 0))),
                     PropertyDescriptor("id", Some("int"), Returned(Value("java.lang.Integer", 1)))]) == names1;
    assert NameList([PropertyDescriptor("id", Some("long"), Returned(Value("java.lang.Long", 2)))]) == names2;
    assert ToLower('I') == 'i' && ToLower('D') == 'd';
    assert EqualsIgnoreCase(names1[0], names2[0]) && EqualsIgnoreCase(names1[1], names2[0]);
    assert HasNameMatch(names1[0], names2) && HasNameMatch(names1[1], names2);
    assert MatchedPositions(names1, names2) == {0, 1};
  }

  /** A property with only a setter has no read method: the name and type
      counts are computed, but the value-type count throws. */
  lemma WriteOnlyPropertyThrows()
    ensures var x := Instance(BeanInfo([PropertyDescriptor("secret", Some("java.lang.String"), NoReadMethod)]));
      && CommonByName(x, x) == Normal(1)
      && CommonByNameAndType(x, x) == Normal(1)
      && CommonByNameAndValueType(x, x) == NullPointerException
  {
    var ds := [PropertyDescriptor("secret", Some("java.lang.String"), NoReadMethod)];
    assert ds[..0] == [];
    assert NameList(ds) == ["secret"];
    assert EqualsIgnoreCase("secret", ["secret"][0]);
    assert HasNameMatch("secret", ["secret"]);
    assert MatchedPositions(["secret"], ["secret"]) == {0};
    var types := map["secret" := CLASS_OF_CLASS];
    assert Table(ds, DeclaredTypeEntry) == types;
    assert HasEntryMatch("secret", types["secret"], types);
    assert MatchedKeys(types, types) == {"secret"};
    assert HasWriteOnly(ds);
  }
}
