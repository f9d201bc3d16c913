/** The serializer outputs that src/test/java/JExpressLoomTest.java expects,
    stated for any keys and values of the same shapes. */
module JsonPrinterExamples {
  import opened Wrappers
  import opened Text
  import opened JsonPrinter

  /** A record with one string component, as `record Hello(String id)`
      prints: `{"id": "42"}` for `new Hello("42")`. */
  lemma RecordOneString(k: string, s: string)
    ensures ToJson(VRecord([(k, VString(s))]), WithRecords) ==
            Ok("{" + ("\"" + k + "\": " + ("\"" + s + "\"")) + "}")
    ensures ToJson(VRecord([(k, VString(s))]), WithoutRecords) == Err(VRecord([(k, VString(s))]))
  {
    var e := EntryText(k, "\"" + s + "\"");
    assert [e] + [] == [e];
    assert Entries([(k, VString(s))], WithRecords) == Ok([e]);
  }

  /** A map prints its entries in iteration order and a null value as
      `null`: `{"foo": 4, "bar": null}`. */
  lemma MapIntThenNull(k1: string, i: Int32, k2: string, variant: Variant)
    ensures ToJson(VMap([(k1, VInt(i)), (k2, VNull)]), variant) ==
            Ok("{" + (("\"" + k1 + "\": " + IntToString(i as int)) + ", " + ("\"" + k2 + "\": " + "null")) + "}")
  {
    var entries := [(k1, VInt(i)), (k2, VNull)];
    var first, second := EntryText(k1, IntToString(i as int)), EntryText(k2, "null");
    assert [second] + [] == [second];
    assert Entries(entries[1..], variant) == Ok([second]);
    assert Entries(entries, variant) == Ok([first] + [second]);
    JoinCons(first, [second], ", ");
  }

  /** A list, iterable or stream of a boolean, an integer, a double and a
      string, as `[true, 3, 4.5, "foo"]`: each item's own text, the string
      quoted, joined with ", ". */
  lemma MixedList(shape: Shape, b: bool, i: Int32, d: string, s: string, variant: Variant)
    ensures ToJson(VList(shape, [VBool(b), VInt(i), VDouble(d), VString(s)]), variant) ==
            Ok("[" + (BoolText(b) + ", " + (IntToString(i as int) + ", " + (d + ", " + ("\"" + s + "\"")))) + "]")
  {
    var items := [VBool(b), VInt(i), VDouble(d), VString(s)];
    var parts := [BoolText(b), IntToString(i as int), d, "\"" + s + "\""];
    ItemsOkIff(items, variant);
    ItemsLayout(items, variant);
    assert Items(items, variant).value == parts;
    JoinCons(parts[0], parts[1..], ", ");
    JoinCons(parts[1], parts[1..][1..], ", ");
    JoinCons(parts[2], parts[1..][1..][1..], ", ");
  }
}
