/** `JSONPrettyPrinter` (src/main/java/JExpress.java, and the record-less
    variant of src/main/java/JExpress8.java) and the identical top-level
    `toJSON` of src/main/java/JExpressLoom.java. Objects handed to
    `Response.json(Object)` are described by what the serializer's
    `instanceof` tests see; a record is its components in declaration order
    and a map its entries in iteration order, keys already turned into
    their `toString` text. */
module JsonPrinter {
  import opened Wrappers
  import opened Text

  /** `java.lang.Integer`. */
  newtype Int32 = x: int | -0x8000_0000 <= x < 0x8000_0000

  /** Which of the three array-producing interfaces an object implements:
      `Collection`, a plain `Iterable`, or `Stream`. */
  datatype Shape = CollectionShape | IterableShape | StreamShape

  /** An object given to the serializer. `VDouble` carries the text of
      `Double.toString`; `VOther` is any object of another class. */
  datatype Value =
    | VNull
    | VString(s: string)
    | VBool(b: bool)
    | VInt(i: Int32)
    | VDouble(text: string)
    | VList(shape: Shape, items: seq<Value>)
    | VMap(entries: seq<(string, Value)>)
    | VRecord(components: seq<(string, Value)>)
    | VOther

  /** JExpress.java and JExpressLoom.java serialize records; JExpress8.java,
      written for Java 8, has no record branch. */
  datatype Variant = WithRecords | WithoutRecords

  /** `Boolean.toString`. */
  function BoolText(b: bool): string {
    if b then "true" else "false"
  }

  /** `toJSON(o)`: only a container is accepted; otherwise the error is the
      object the IllegalStateException "unknown json object ..." names. */
  function ToJson(v: Value, variant: Variant): (r: Result<string, Value>)
    ensures r.Ok? ==> v.VList? || v.VMap? || (v.VRecord? && variant == WithRecords)
    ensures r.Ok? ==> |r.value| >= 2
    ensures r.Ok? && v.VList? ==> r.value[0] == '[' && r.value[|r.value| - 1] == ']'
    ensures r.Ok? && !v.VList? ==> r.value[0] == '{' && r.value[|r.value| - 1] == '}'
    decreases v, 0
  {
    match v
    case VList(_, items) =>
      var parts :- Items(items, variant);
      Ok("[" + Join(parts, ", ") + "]")
    case VMap(entries) =>
      var parts :- Entries(entries, variant);
      Ok("{" + Join(parts, ", ") + "}")
    case VRecord(components) =>
      if variant.WithoutRecords? then Err(v)
      else
        var parts :- Entries(components, variant);
        Ok("{" + Join(parts, ", ") + "}")
    case _ => Err(v)
  }

  /** `toJSONItem(item)`: null, strings (quoted, nothing escaped), booleans,
      integers and doubles print directly; anything else goes back to
      `toJSON`. */
  function ItemJson(v: Value, variant: Variant): (r: Result<string, Value>)
    decreases v, 1
  {
    match v
    case VNull => Ok("null")
    case VString(s) => Ok("\"" + s + "\"")
    case VBool(b) => Ok(BoolText(b))
    case VInt(i) => Ok(IntToString(i as int))
    case VDouble(t) => Ok(t)
    case _ => ToJson(v, variant)
  }

  /** `toJSONArray`: the items in order; the first item that cannot be
      printed stops the stream. */
  function Items(items: seq<Value>, variant: Variant): (r: Result<seq<string>, Value>)
    ensures r.Ok? ==> |r.value| == |items|
    decreases items
  {
    if items == [] then Ok([])
    else
      var head :- ItemJson(items[0], variant);
      var tail :- Items(items[1..], variant);
      Ok([head] + tail)
  }

  /** One `"key": item` entry of `toJSONObject`. */
  function EntryText(key: string, item: string): string {
    "\"" + key + "\": " + item
  }

  /** `toJSONObject`, for a map's entries or a record's components. */
  function Entries(entries: seq<(string, Value)>, variant: Variant): (r: Result<seq<string>, Value>)
    ensures r.Ok? ==> |r.value| == |entries|
    decreases entries
  {
    if entries == [] then Ok([])
    else
      assert entries[0].1 < entries[0];
      var item :- ItemJson(entries[0].1, variant);
      var tail :- Entries(entries[1..], variant);
      Ok([EntryText(entries[0].0, item)] + tail)
  }

  // ---------------------------------------------------------------------
  // Which objects the serializer accepts, described independently of how
  // it prints them.

  /** An item prints unless it is (or holds) an object of an unknown class
      or, in the record-less variant, a record. */
  predicate PrintableItem(v: Value, variant: Variant)
    decreases v, 1
  {
    match v
    case VOther => false
    case VList(_, _) => Printable(v, variant)
    case VMap(_) => Printable(v, variant)
    case VRecord(_) => Printable(v, variant)
    case _ => true
  }

  /** A top-level object prints when it is a container whose items all
      print. */
  predicate Printable(v: Value, variant: Variant)
    decreases v, 0
  {
    match v
    case VList(_, items) => forall i :: 0 <= i < |items| ==> PrintableItem(items[i], variant)
    case VMap(entries) => forall i :: 0 <= i < |entries| ==> PrintableItem(entries[i].1, variant)
    case VRecord(components) =>
      variant == WithRecords && forall i :: 0 <= i < |components| ==> PrintableItem(components[i].1, variant)
    case _ => false
  }

  /** `toJSON` succeeds exactly on printable objects. */
  lemma {:induction false} ToJsonOkIff(v: Value, variant: Variant)
    ensures ToJson(v, variant).Ok? <==> Printable(v, variant)
    decreases v, 1
  {
    match v
    case VList(_, items) => ItemsOkIff(items, variant);
    case VMap(entries) => EntriesOkIff(entries, variant);
    case VRecord(components) => EntriesOkIff(components, variant);
    case _ =>
  }

  lemma {:induction false} ItemOkIff(v: Value, variant: Variant)
    ensures ItemJson(v, variant).Ok? <==> PrintableItem(v, variant)
    decreases v, 2
  {
    ToJsonOkIff(v, variant);
  }

  lemma {:induction false} ItemsOkIff(items: seq<Value>, variant: Variant)
    ensures Items(items, variant).Ok? <==> forall i :: 0 <= i < |items| ==> PrintableItem(items[i], variant)
    decreases items
  {
    if items != [] {
      ItemOkIff(items[0], variant);
      ItemsOkIff(items[1..], variant);
      assert forall i :: 1 <= i < |items| ==> items[1..][i - 1] == items[i];
    }
  }

  lemma {:induction false} EntriesOkIff(entries: seq<(string, Value)>, variant: Variant)
    ensures Entries(entries, variant).Ok? <==> forall i :: 0 <= i < |entries| ==> PrintableItem(entries[i].1, variant)
    decreases entries
  {
    if entries != [] {
      assert entries[0].1 < entries[0];
      ItemOkIff(entries[0].1, variant);
      EntriesOkIff(entries[1..], variant);
      assert forall i :: 1 <= i < |entries| ==> entries[1..][i - 1] == entries[i];
    }
  }

  // ---------------------------------------------------------------------
  // The layout of the output.

  /** The printed items are the items' own texts, in order. */
  lemma {:induction false} ItemsLayout(items: seq<Value>, variant: Variant)
    requires Items(items, variant).Ok?
    ensures forall i :: 0 <= i < |items| ==>
              ItemJson(items[i], variant).Ok? && Items(items, variant).value[i] == ItemJson(items[i], variant).value
    decreases items
  {
    if items != [] {
      ItemsLayout(items[1..], variant);
      assert forall i :: 1 <= i < |items| ==> items[1..][i - 1] == items[i];
    }
  }

  /** Each printed entry is the quoted key, a colon, a space and the
      value's item text, in the entries' order. */
  lemma {:induction false} EntriesLayout(entries: seq<(string, Value)>, variant: Variant)
    requires Entries(entries, variant).Ok?
    ensures forall i :: 0 <= i < |entries| ==>
              && ItemJson(entries[i].1, variant).Ok?
              && Entries(entries, variant).value[i] ==
                 "\"" + entries[i].0 + "\": " + ItemJson(entries[i].1, variant).value
    decreases entries
  {
    if entries != [] {
      EntriesLayout(entries[1..], variant);
      assert forall i :: 1 <= i < |entries| ==> entries[1..][i - 1] == entries[i];
    }
  }

  /** Collections, plain iterables and streams with the same elements print
      identically. */
  lemma ShapeIrrelevant(a: Shape, b: Shape, items: seq<Value>, variant: Variant)
    ensures ToJson(VList(a, items), variant) == ToJson(VList(b, items), variant)
  {
  }

  /** Scalars and objects of unknown classes are rejected at the top level,
      as are records by the variant without a record branch. */
  lemma TopLevelNeedsContainer(v: Value, variant: Variant)
    requires !(v.VList? || v.VMap? || v.VRecord?) || (v.VRecord? && variant == WithoutRecords)
    ensures ToJson(v, variant) == Err(v)
  {
  }

  /** Where the record-less variant succeeds, it prints exactly what the
      variant with records prints. */
  lemma {:induction false} VariantsAgree(v: Value)
    requires ToJson(v, WithoutRecords).Ok?
    ensures ToJson(v, WithRecords) == ToJson(v, WithoutRecords)
    decreases v, 1
  {
    match v
    case VList(_, items) => ItemsAgree(items);
    case VMap(entries) => EntriesAgree(entries);
  }

  lemma {:induction false} ItemAgrees(v: Value)
    requires ItemJson(v, WithoutRecords).Ok?
    ensures ItemJson(v, WithRecords) == ItemJson(v, WithoutRecords)
    decreases v, 2
  {
    if v.VList? || v.VMap? || v.VRecord? || v.VOther? {
      VariantsAgree(v);
    }
  }

  lemma {:induction false} ItemsAgree(items: seq<Value>)
    requires Items(items, WithoutRecords).Ok?
    ensures Items(items, WithRecords) == Items(items, WithoutRecords)
    decreases items
  {
    if items != [] {
      ItemAgrees(items[0]);
      ItemsAgree(items[1..]);
    }
  }

  lemma {:induction false} EntriesAgree(entries: seq<(string, Value)>)
    requires Entries(entries, WithoutRecords).Ok?
    ensures Entries(entries, WithRecords) == Entries(entries, WithoutRecords)
    decreases entries
  {
    if entries != [] {
      assert entries[0].1 < entries[0];
      ItemAgrees(entries[0].1);
      EntriesAgree(entries[1..]);
    }
  }
}
