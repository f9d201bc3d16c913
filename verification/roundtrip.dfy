/** What `ToyJSONParser.parse` makes of the text `JSONPrettyPrinter.toJSON`
    prints. The printer escapes nothing and the lexer knows no minus sign
    and no exponent, so the round trip holds for the objects whose printed
    form the lexer reads back token by token: strings without a quote,
    non-negative integers, doubles written as digits, a dot and digits, and
    map keys without a quote. */
module JsonRoundTrip {
  import opened Wrappers
  import opened Text
  import opened JsonLexer
  import opened JsonParser
  import opened JsonPrinter

  /** The object the parser builds for the printed form of `v`: lists
      become `ArrayList`s, maps and records `HashMap`s in which a later
      duplicate key wins. `VOther` never prints; it is given an arbitrary
      image. */
  function Denote(v: Value): Json
    decreases v, 1
  {
    match v
    case VNull => JNull
    case VString(s) => JString(s)
    case VBool(b) => JBool(b)
    case VInt(i) => JInt(Magnitude(i as int))
    case VDouble(t) => JDouble(t)
    case VList(_, items) => JArray(DenoteAll(items))
    case VMap(entries) => JObject(Fields(entries, map[]))
    case VRecord(components) => JObject(Fields(components, map[]))
    case VOther => JNull
  }

  /** The lexer has no minus sign: a printed integer reads back without
      it. */
  function Magnitude(i: int): nat {
    if i < 0 then -i else i
  }

  function DenoteAll(items: seq<Value>): (r: seq<Json>)
    ensures |r| == |items|
    decreases items
  {
    if items == [] then [] else [Denote(items[0])] + DenoteAll(items[1..])
  }

  /** `fields` updated with each entry in order, as `HashMap.put` does. */
  function Fields(entries: seq<(string, Value)>, fields: map<string, Json>): map<string, Json>
    decreases entries
  {
    if entries == [] then fields
    else
      assert entries[0].1 < entries[0];
      Fields(entries[1..], fields[entries[0].0 := Denote(entries[0].1)])
  }

  /** The text `Double.toString` gave has the DOUBLE token's shape: digits,
      a dot, digits, and not the dot alone. */
  predicate DoubleText(t: string) {
    var p := DigitRun(t);
    |t| > 1 && p < |t| && t[p] == '.' && AllDigits(t[p + 1..])
  }

  /** An item whose printed form reads back as one value. */
  predicate ReadableItem(v: Value, variant: Variant)
    decreases v, 1
  {
    match v
    case VNull => true
    case VBool(_) => true
    case VString(s) => '"' !in s
    case VInt(i) => Magnitude(i as int) <= IntMax
    case VDouble(t) => DoubleText(t)
    case VOther => false
    case VList(_, _) => Readable(v, variant)
    case VMap(_) => Readable(v, variant)
    case VRecord(_) => Readable(v, variant)
  }

  /** A container whose printed form reads back: its items (and its keys)
      are readable. */
  predicate Readable(v: Value, variant: Variant)
    decreases v, 0
  {
    match v
    case VList(_, items) => forall i :: 0 <= i < |items| ==> ReadableItem(items[i], variant)
    case VMap(entries) =>
      forall i :: 0 <= i < |entries| ==> '"' !in entries[i].0 && ReadableItem(entries[i].1, variant)
    case VRecord(components) =>
      variant == WithRecords &&
      forall i :: 0 <= i < |components| ==> '"' !in components[i].0 && ReadableItem(components[i].1, variant)
    case _ => false
  }

  /** The entries of a readable map or record. */
  predicate ReadableEntries(entries: seq<(string, Value)>, variant: Variant) {
    forall i :: 0 <= i < |entries| ==> '"' !in entries[i].0 && ReadableItem(entries[i].1, variant)
  }

  /** Text that starts with the token after a value: a comma or a closing
      bracket or brace. */
  predicate Closer(c: string) {
    c != [] && (c[0] == ',' || c[0] == ']' || c[0] == '}')
  }

  /** A double's text splits into its digit runs around the dot. */
  lemma DoubleParts(t: string) returns (d1: string, d2: string)
    requires DoubleText(t)
    ensures AllDigits(d1) && AllDigits(d2) && t == d1 + "." + d2
  {
    var p := DigitRun(t);
    DigitRunSpec(t);
    d1, d2 := t[..p], t[p + 1..];
    assert t == t[..p] + [t[p]] + t[p + 1..];
  }

  /** A printed item is not empty and does not start with a blank, so the
      space the serializer puts before it is stepped over. */
  lemma ItemStart(v: Value, variant: Variant)
    requires ReadableItem(v, variant) && ItemJson(v, variant).Ok?
    ensures |ItemJson(v, variant).value| > 0 && !IsBlank(ItemJson(v, variant).value[0])
  {
    match v
    case VDouble(t) =>
      var d1, d2 := DoubleParts(t);
      if d1 != [] {
        assert t[0] == d1[0];
      }
    case VInt(i) =>
      if i >= 0 {
        assert IntToString(i as int) == NatToString(i as int);
      }
    case _ =>
  }

  /** Reading `s` gives first a token that opens a value, and the value
      starting with it is `j`, after which `c` is left. */
  predicate ValueReadsBack(s: string, base: nat, j: Json, c: string) {
    && NextToken(s, base).Some?
    && var l := NextToken(s, base).value;
       && l.token.kind != RightBracket && l.token.kind != RightCurly
       && var r := ParseValue(l.token, l.rest, l.base);
          r.Ok? && r.value.value == j && r.value.rest == c
  }

  /** Reading `s` gives the opening bracket (or brace, for `isObject`) of a
      container that parses to `j`, after which `c` is left. */
  predicate ContainerReadsBack(s: string, base: nat, isObject: bool, j: Json, c: string) {
    && NextToken(s, base).Some?
    && var l := NextToken(s, base).value;
       && l.token.kind == (if isObject then LeftCurly else LeftBracket)
       && var r := if isObject then ParseObject(l.rest, l.base) else ParseArray(l.rest, l.base);
          r.Ok? && r.value.value == j && r.value.rest == c
  }

  /** Readable objects print. */
  lemma {:induction false} ReadableIsPrintable(v: Value, variant: Variant)
    ensures Readable(v, variant) ==> Printable(v, variant)
    decreases v, 0
  {
    match v
    case VList(_, items) =>
      forall i | 0 <= i < |items| ensures ReadableItem(items[i], variant) ==> PrintableItem(items[i], variant) {
        ReadableItemIsPrintable(items[i], variant);
      }
    case VMap(entries) =>
      forall i | 0 <= i < |entries|
        ensures ReadableItem(entries[i].1, variant) ==> PrintableItem(entries[i].1, variant)
      {
        assert entries[i].1 < entries[i];
        ReadableItemIsPrintable(entries[i].1, variant);
      }
    case VRecord(components) =>
      forall i | 0 <= i < |components|
        ensures ReadableItem(components[i].1, variant) ==> PrintableItem(components[i].1, variant)
      {
        assert components[i].1 < components[i];
        ReadableItemIsPrintable(components[i].1, variant);
      }
    case _ =>
  }

  lemma {:induction false} ReadableItemIsPrintable(v: Value, variant: Variant)
    ensures ReadableItem(v, variant) ==> PrintableItem(v, variant)
    decreases v, 1
  {
    if v.VList? || v.VMap? || v.VRecord? {
      ReadableIsPrintable(v, variant);
    }
  }

  lemma ReadableItemsPrint(items: seq<Value>, variant: Variant)
    requires forall i :: 0 <= i < |items| ==> ReadableItem(items[i], variant)
    ensures Items(items, variant).Ok?
  {
    forall i | 0 <= i < |items| ensures PrintableItem(items[i], variant) {
      ReadableItemIsPrintable(items[i], variant);
    }
    ItemsOkIff(items, variant);
  }

  lemma ReadableEntriesPrint(entries: seq<(string, Value)>, variant: Variant)
    requires ReadableEntries(entries, variant)
    ensures Entries(entries, variant).Ok?
  {
    forall i | 0 <= i < |entries| ensures PrintableItem(entries[i].1, variant) {
      ReadableItemIsPrintable(entries[i].1, variant);
    }
    EntriesOkIff(entries, variant);
  }

  /** What follows an element inside a printed array: the closing bracket
      after the last one, otherwise ", " and the remaining elements. */
  function ElementsTail(parts: seq<string>, c: string): string {
    if parts == [] then "]" + c else ", " + Join(parts, ", ") + "]" + c
  }

  /** The same for the members of a printed object. */
  function MembersTail(parts: seq<string>, c: string): string {
    if parts == [] then "}" + c else ", " + Join(parts, ", ") + "}" + c
  }

  /** The printed list of `parts` cut after its first part. */
  lemma JoinedTail(p: string, more: seq<string>, close: char, c: string)
    ensures Join([p] + more, ", ") + [close] + c ==
            p + (if more == [] then [close] + c else ", " + Join(more, ", ") + [close] + c)
  {
    JoinCons(p, more, ", ");
  }

  lemma {:induction false} WordRoundTrip(k: Kind, j: Json, c: string, base: nat)
    requires (k == NullLit && j == JNull) || (k == TrueLit && j == JBool(true)) || (k == FalseLit && j == JBool(false))
    ensures ValueReadsBack(WordOf(k) + c, base, j, c)
  {
    ReadsWord(k, c, base);
    assert (WordOf(k) + c)[|WordOf(k)|..] == c;
  }

  lemma {:induction false} StringRoundTrip(x: string, c: string, base: nat)
    requires '"' !in x
    ensures ValueReadsBack("\"" + x + "\"" + c, base, JString(x), c)
  {
    ReadsString(x, c, base);
    assert ("\"" + x + "\"" + c)[|x| + 2..] == c;
  }

  lemma {:induction false} IntRoundTrip(i: Int32, c: string, base: nat)
    requires Magnitude(i as int) <= IntMax && Closer(c)
    ensures ValueReadsBack(IntToString(i as int) + c, base, JInt(Magnitude(i as int)), c)
  {
    var n := Magnitude(i as int);
    var d := NatToString(n);
    if i < 0 {
      assert IntToString(i as int) + c == "-" + (d + c);
      DigitsRoundTrip(n, c, base + 1);
      ReadsBackAfterMinus(d + c, base, JInt(n), c);
    } else {
      assert IntToString(i as int) + c == d + c;
      DigitsRoundTrip(n, c, base);
    }
  }

  /** A leading minus sign is passed over by the lexer. */
  lemma ReadsBackAfterMinus(t: string, base: nat, j: Json, c: string)
    requires ValueReadsBack(t, base + 1, j, c)
    ensures ValueReadsBack("-" + t, base, j, c)
  {
    MinusSkipped(t, base);
  }

  /** The decimal digits of a magnitude `parseInt` accepts read back as
      that number. */
  lemma DigitsRoundTrip(n: nat, c: string, base: nat)
    requires n <= IntMax && Closer(c)
    ensures ValueReadsBack(NatToString(n) + c, base, JInt(n), c)
  {
    var d := NatToString(n);
    ReadsInteger(d, c, base);
    assert (d + c)[|d|..] == c;
    ParseIntOfDecimal(n);
    var l := NextToken(d + c, base).value;
    IntegerValue(l.token, n, l.rest, l.base);
  }

  /** An INTEGER token whose text `parseInt` reads is that number. */
  lemma IntegerValue(t: Token, i: int, s: string, base: nat)
    requires t.kind == IntegerNum && ParseInt(t.text) == Ok(i)
    ensures ParseValue(t, s, base) == Ok(Parsed(JInt(i), s, base))
  {
  }

  /** A printed negative number whose magnitude exceeds
      `Integer.MAX_VALUE` (for an `int`, only `Integer.MIN_VALUE`): read
      back without its sign, its digits make `parseInt` fail. */
  lemma TooLargeRejected(n: nat, c: string, base: nat)
    requires n > IntMax && Closer(c)
    ensures var s := "-" + NatToString(n) + c;
            && NextToken(s, base).Some?
            && var l := NextToken(s, base).value;
               && l.token.kind == IntegerNum && l.token.text == NatToString(n)
               && ParseValue(l.token, l.rest, l.base) == Err(BadNumber(NatToString(n)))
  {
    var d := NatToString(n);
    assert "-" + d + c == "-" + (d + c);
    MinusSkipped(d + c, base);
    ReadsInteger(d, c, base + 1);
    DigitsValueOfNatToString(n);
    OverflowRejected(NextToken(d + c, base + 1).value.token, NextToken(d + c, base + 1).value.rest,
                     NextToken(d + c, base + 1).value.base);
  }

  /** An INTEGER token above `Integer.MAX_VALUE` fails to parse. */
  lemma OverflowRejected(t: Token, s: string, base: nat)
    requires t.kind == IntegerNum && AllDigits(t.text) && DigitsValue(t.text) > IntMax
    ensures ParseValue(t, s, base) == Err(BadNumber(t.text))
  {
  }

  lemma {:induction false} DoubleRoundTrip(t: string, c: string, base: nat)
    requires DoubleText(t) && Closer(c)
    ensures ValueReadsBack(t + c, base, JDouble(t), c)
  {
    var d1, d2 := DoubleParts(t);
    ReadsDouble(d1, d2, c, base);
    assert (t + c)[|t|..] == c;
  }

  /** A printed item, followed by the comma or closing character the
      serializer puts after it, reads back as its denotation. */
  lemma {:induction false} ItemRoundTrip(v: Value, variant: Variant, c: string, base: nat)
    requires ReadableItem(v, variant) && Closer(c)
    ensures ItemJson(v, variant).Ok?
    ensures ValueReadsBack(ItemJson(v, variant).value + c, base, Denote(v), c)
    decreases v, 3
  {
    match v
    case VNull => WordRoundTrip(NullLit, JNull, c, base);
    case VBool(b) =>
      if b {
        WordRoundTrip(TrueLit, JBool(true), c, base);
      } else {
        WordRoundTrip(FalseLit, JBool(false), c, base);
      }
    case VString(x) => StringRoundTrip(x, c, base);
    case VInt(i) => IntRoundTrip(i, c, base);
    case VDouble(t) => DoubleRoundTrip(t, c, base);
    case VList(_, _) | VMap(_) | VRecord(_) => ContainerItemRoundTrip(v, variant, c, base);
  }

  /** A printed container in item position reads back as a value. */
  lemma {:induction false} ContainerItemRoundTrip(v: Value, variant: Variant, c: string, base: nat)
    requires Readable(v, variant)
    ensures ItemJson(v, variant).Ok?
    ensures ValueReadsBack(ItemJson(v, variant).value + c, base, Denote(v), c)
    decreases v, 2
  {
    ContainerRoundTrip(v, variant, c, base);
    assert ItemJson(v, variant) == ToJson(v, variant);
    var l := NextToken(ToJson(v, variant).value + c, base).value;
    OpeningValue(l.token, l.rest, l.base);
  }

  /** A value that starts with `{` or `[` is parsed by `parseObject` or
      `parseArray`. */
  lemma OpeningValue(t: Token, s: string, base: nat)
    ensures t.kind == LeftCurly ==> ParseValue(t, s, base) == ParseObject(s, base)
    ensures t.kind == LeftBracket ==> ParseValue(t, s, base) == ParseArray(s, base)
  {
  }

  /** A printed container, followed by any text, reads back as its
      denotation and leaves that text unread. */
  lemma {:induction false} ContainerRoundTrip(v: Value, variant: Variant, c: string, base: nat)
    requires Readable(v, variant)
    ensures ToJson(v, variant).Ok?
    ensures ContainerReadsBack(ToJson(v, variant).value + c, base, !v.VList?, Denote(v), c)
    decreases v, 1
  {
    match v
    case VList(_, items) =>
      ArrayRoundTrip(items, variant, c, base);
    case VMap(entries) =>
      assert ReadableEntries(entries, variant);
      ObjectRoundTrip(entries, variant, c, base);
    case VRecord(components) =>
      assert ReadableEntries(components, variant);
      ObjectRoundTrip(components, variant, c, base);
  }

  lemma {:induction false} ArrayRoundTrip(items: seq<Value>, variant: Variant, c: string, base: nat)
    requires forall i :: 0 <= i < |items| ==> ReadableItem(items[i], variant)
    ensures Items(items, variant).Ok?
    ensures ContainerReadsBack("[" + Join(Items(items, variant).value, ", ") + "]" + c, base, false,
                               JArray(DenoteAll(items)), c)
    decreases items, 2
  {
    ReadableItemsPrint(items, variant);
    var inner := Join(Items(items, variant).value, ", ") + "]" + c;
    assert "[" + Join(Items(items, variant).value, ", ") + "]" + c == [Symbol(LeftBracket)] + inner;
    ReadsPunctuation(LeftBracket, inner, base);
    if items == [] {
      assert inner == [Symbol(RightBracket)] + c;
      ReadsPunctuation(RightBracket, c, base + 1);
    } else {
      ElementsRoundTrip(items, variant, c, base + 1, []);
      assert [] + DenoteAll(items) == DenoteAll(items);
    }
  }

  lemma {:induction false} ObjectRoundTrip(entries: seq<(string, Value)>, variant: Variant, c: string, base: nat)
    requires ReadableEntries(entries, variant)
    ensures Entries(entries, variant).Ok?
    ensures ContainerReadsBack("{" + Join(Entries(entries, variant).value, ", ") + "}" + c, base, true,
                               JObject(Fields(entries, map[])), c)
    decreases entries, 2
  {
    ReadableEntriesPrint(entries, variant);
    var inner := Join(Entries(entries, variant).value, ", ") + "}" + c;
    assert "{" + Join(Entries(entries, variant).value, ", ") + "}" + c == [Symbol(LeftCurly)] + inner;
    ReadsPunctuation(LeftCurly, inner, base);
    ObjectBodyRoundTrip(entries, variant, c, base + 1);
  }

  /** What follows the opening brace of a printed object: `parseObject`
      reads the members and stops after the closing brace. */
  lemma {:induction false} ObjectBodyRoundTrip(entries: seq<(string, Value)>, variant: Variant, c: string, base: nat)
    requires ReadableEntries(entries, variant)
    ensures Entries(entries, variant).Ok?
    ensures var r := ParseObject(Join(Entries(entries, variant).value, ", ") + "}" + c, base);
            r.Ok? && r.value.value == JObject(Fields(entries, map[])) && r.value.rest == c
    decreases entries, 1
  {
    ReadableEntriesPrint(entries, variant);
    var inner := Join(Entries(entries, variant).value, ", ") + "}" + c;
    if entries == [] {
      assert inner == [Symbol(RightCurly)] + c;
      ReadsPunctuation(RightCurly, c, base);
    } else {
      MembersRoundTrip(entries, variant, c, base, map[]);
    }
  }

  /** One printed element followed by `tail`: reading it hands over to
      `ElementsAfter` on `tail`, with the element's denotation appended. */
  lemma {:induction false} ElementRoundTrip(v: Value, variant: Variant, tail: string, base: nat, acc: seq<Json>)
    returns (b: nat)
    requires ReadableItem(v, variant) && Closer(tail)
    ensures ItemJson(v, variant).Ok?
    ensures var u := ItemJson(v, variant).value + tail;
            && NextToken(u, base).Some?
            && var l := NextToken(u, base).value;
               && l.token.kind != RightBracket
               && ParseElements(l.token, l.rest, l.base, acc) == ElementsAfter(tail, b, acc + [Denote(v)])
    decreases v, 4
  {
    ItemRoundTrip(v, variant, tail, base);
    var u := ItemJson(v, variant).value + tail;
    var l := NextToken(u, base).value;
    b := ParseValue(l.token, l.rest, l.base).value.base;
  }

  /** The elements of a non-empty printed array, each followed by ", " or
      by the closing bracket, read back one by one onto `acc`. */
  lemma {:induction false} ElementsRoundTrip(items: seq<Value>, variant: Variant, c: string, base: nat, acc: seq<Json>)
    requires |items| > 0 && forall i :: 0 <= i < |items| ==> ReadableItem(items[i], variant)
    ensures Items(items, variant).Ok?
    ensures var u := Join(Items(items, variant).value, ", ") + "]" + c;
            && NextToken(u, base).Some?
            && var l := NextToken(u, base).value;
               && l.token.kind != RightBracket
               && var r := ParseElements(l.token, l.rest, l.base, acc);
                  r.Ok? && r.value.value == JArray(acc + DenoteAll(items)) && r.value.rest == c
    decreases items, 0
  {
    var v, more := items[0], items[1..];
    ReadableItemsPrint(more, variant);
    var parts := Items(more, variant).value;
    var tail := ElementsTail(parts, c);
    var b := ElementRoundTrip(v, variant, tail, base, acc);
    var p := ItemJson(v, variant).value;
    assert Items(items, variant).value == [p] + parts;
    JoinedTail(p, parts, ']', c);
    ElementsAfterRoundTrip(more, variant, c, b, acc + [Denote(v)]);
    DenoteAllCons(items, acc);
  }

  lemma DenoteAllCons(items: seq<Value>, acc: seq<Json>)
    requires |items| > 0
    ensures acc + [Denote(items[0])] + DenoteAll(items[1..]) == acc + DenoteAll(items)
  {
  }

  /** What follows an element, the closing bracket or ", " and further
      elements, reads back onto `acc` as those elements. */
  lemma {:induction false} ElementsAfterRoundTrip(items: seq<Value>, variant: Variant, c: string, base: nat, acc: seq<Json>)
    requires forall i :: 0 <= i < |items| ==> ReadableItem(items[i], variant)
    ensures Items(items, variant).Ok?
    ensures var r := ElementsAfter(ElementsTail(Items(items, variant).value, c), base, acc);
            r.Ok? && r.value.value == JArray(acc + DenoteAll(items)) && r.value.rest == c
    decreases items, 1
  {
    ReadableItemsPrint(items, variant);
    var parts := Items(items, variant).value;
    if items == [] {
      assert ElementsTail(parts, c) == [Symbol(RightBracket)] + c;
      ReadsPunctuation(RightBracket, c, base);
    } else {
      var w := Join(parts, ", ") + "]" + c;
      assert ElementsTail(parts, c) == [Symbol(Comma)] + (" " + w);
      ReadsPunctuation(Comma, " " + w, base);
      ItemStart(items[0], variant);
      JoinedTail(parts[0], parts[1..], ']', c);
      assert [parts[0]] + parts[1..] == parts;
      ReadsAfterSpace(w, base + 1);
      ElementsRoundTrip(items, variant, c, base + 2, acc);
    }
  }

  /** The item of one printed member followed by `tail`: reading it hands
      over to `MembersAfter` on `tail`, with the member put into `fields`. */
  lemma {:induction false} MemberRoundTrip(key: string, v: Value, variant: Variant, tail: string, base: nat,
                                           fields: map<string, Json>)
    returns (b: nat)
    requires ReadableItem(v, variant) && Closer(tail)
    ensures ItemJson(v, variant).Ok?
    ensures var item := ItemJson(v, variant).value;
            && |item| > 0 && !IsBlank(item[0])
            && MemberValue(item + tail, base, key, fields) == MembersAfter(tail, b, fields[key := Denote(v)])
    decreases v, 4
  {
    ReadableItemIsPrintable(v, variant);
    ItemOkIff(v, variant);
    ItemStart(v, variant);
    var item := ItemJson(v, variant).value;
    ItemRoundTrip(v, variant, tail, base);
    var first := NextToken(item + tail, base).value;
    b := ParseValue(first.token, first.rest, first.base).value.base;
  }

  /** A quoted key, the colon and the space the serializer prints after it
      are read as a STRING token, a COLON and skipped blank; the value
      starts `|key| + 4` characters on. */
  lemma KeyThenValue(l: Lexed, key: string, r: string, fields: map<string, Json>)
    requires l.token.kind == StringLit && l.token.text == key && l.rest == ": " + r
    requires r == [] || !IsBlank(r[0])
    ensures ParseMembers(l.token, l.rest, l.base, fields) == MemberValue(r, l.base + 2, key, fields)
  {
    ColonSpace(l.rest, r, l.base, l.base + 2);
    SameFirstToken(" " + r, l.base + 1, r, l.base + 2, key, fields);
  }

  /** `u` starts with the quoted `key`, followed by `t`. */
  predicate KeyFirst(u: string, base: nat, key: string, t: string) {
    && NextToken(u, base).Some?
    && var l := NextToken(u, base).value;
       && l.token.kind == StringLit && l.token.text == key && l.rest == t
  }

  /** A quoted key followed by `t` is read as a STRING token, then `t`. */
  lemma KeyRead(u: string, key: string, t: string, base: nat)
    requires u == "\"" + key + "\"" + t && '"' !in key
    ensures KeyFirst(u, base, key, t)
  {
    ReadsString(key, t, base);
    assert u[|key| + 2..] == t;
  }

  /** ": " then `r`: a COLON, then a blank that is skipped before `r`. */
  lemma ColonSpace(s: string, r: string, base: nat, after: nat)
    requires s == ": " + r && (r == [] || !IsBlank(r[0])) && after == base + 2
    ensures NextToken(s, base) == Some(Lexed(Token(Colon, ":", base), " " + r, base + 1, base))
    ensures NextToken(" " + r, base + 1) == NextToken(r, after)
  {
    assert s == [Symbol(Colon)] + (" " + r);
    ReadsPunctuation(Colon, " " + r, base);
    assert s[1..] == " " + r;
    ReadsAfterSpace(r, base + 1);
  }

  /** `MemberValue` depends on its text only through the first token
      and what follows it. */
  lemma SameFirstToken(s: string, base: nat, s': string, base': nat, key: string, fields: map<string, Json>)
    requires NextToken(s, base) == NextToken(s', base')
    ensures MemberValue(s, base, key, fields) == MemberValue(s', base', key, fields)
  {
  }

  /** The members of a non-empty printed object, each followed by ", " or
      by the closing brace, read back one by one into `fields`. */
  lemma {:induction false} MembersRoundTrip(entries: seq<(string, Value)>, variant: Variant, c: string, base: nat,
                                            fields: map<string, Json>)
    requires |entries| > 0 && ReadableEntries(entries, variant)
    ensures Entries(entries, variant).Ok?
    ensures var u := Join(Entries(entries, variant).value, ", ") + "}" + c;
            && NextToken(u, base).Some?
            && var l := NextToken(u, base).value;
               && l.token.kind != RightCurly
               && var r := ParseMembers(l.token, l.rest, l.base, fields);
                  r.Ok? && r.value.value == JObject(Fields(entries, fields)) && r.value.rest == c
    decreases entries, 0
  {
    var key, v, more := entries[0].0, entries[0].1, entries[1..];
    ReadableEntriesTail(entries, variant);
    ReadableEntriesPrint(more, variant);
    var parts := Entries(more, variant).value;
    var tail := MembersTail(parts, c);
    ReadableItemIsPrintable(v, variant);
    ItemOkIff(v, variant);
    var item := ItemJson(v, variant).value;
    EntriesCons(entries, variant);
    PrintedMember(key, item, parts, c);
    var u := Join(Entries(entries, variant).value, ", ") + "}" + c;
    KeyRead(u, key, ": " + (item + tail), base);
    var l := NextToken(u, base).value;
    assert v < entries[0];
    var b := MemberRoundTrip(key, v, variant, tail, l.base + 2, fields);
    KeyThenValue(l, key, item + tail, fields);
    MembersAfterRoundTrip(more, variant, c, b, fields[key := Denote(v)]);
    FieldsCons(entries, fields);
  }

  lemma ReadableEntriesTail(entries: seq<(string, Value)>, variant: Variant)
    requires |entries| > 0 && ReadableEntries(entries, variant)
    ensures '"' !in entries[0].0 && ReadableItem(entries[0].1, variant)
    ensures ReadableEntries(entries[1..], variant)
  {
    assert forall i :: 0 <= i < |entries| - 1 ==> entries[1..][i] == entries[i + 1];
  }

  lemma EntriesCons(entries: seq<(string, Value)>, variant: Variant)
    requires |entries| > 0 && ItemJson(entries[0].1, variant).Ok? && Entries(entries[1..], variant).Ok?
    ensures Entries(entries, variant).Ok?
    ensures Entries(entries, variant).value ==
            [EntryText(entries[0].0, ItemJson(entries[0].1, variant).value)] + Entries(entries[1..], variant).value
  {
  }

  lemma FieldsCons(entries: seq<(string, Value)>, fields: map<string, Json>)
    requires |entries| > 0
    ensures Fields(entries, fields) == Fields(entries[1..], fields[entries[0].0 := Denote(entries[0].1)])
  {
  }

  /** The printed object from its first member on: the quoted key, ": ",
      the item, and what follows the member. */
  lemma PrintedMember(key: string, item: string, parts: seq<string>, c: string)
    ensures Join([EntryText(key, item)] + parts, ", ") + "}" + c ==
            "\"" + key + "\": " + (item + MembersTail(parts, c))
  {
    JoinedTail(EntryText(key, item), parts, '}', c);
  }

  /** What follows a member, the closing brace or ", " and further
      members, reads back into `fields` as those members. */
  lemma {:induction false} MembersAfterRoundTrip(entries: seq<(string, Value)>, variant: Variant, c: string, base: nat,
                                                 fields: map<string, Json>)
    requires ReadableEntries(entries, variant)
    ensures Entries(entries, variant).Ok?
    ensures var r := MembersAfter(MembersTail(Entries(entries, variant).value, c), base, fields);
            r.Ok? && r.value.value == JObject(Fields(entries, fields)) && r.value.rest == c
    decreases entries, 1
  {
    ReadableEntriesPrint(entries, variant);
    var parts := Entries(entries, variant).value;
    if entries == [] {
      assert MembersTail(parts, c) == [Symbol(RightCurly)] + c;
      ReadsPunctuation(RightCurly, c, base);
    } else {
      var w := Join(parts, ", ") + "}" + c;
      assert MembersTail(parts, c) == [Symbol(Comma)] + (" " + w);
      ReadsPunctuation(Comma, " " + w, base);
      JoinedTail(parts[0], parts[1..], '}', c);
      assert [parts[0]] + parts[1..] == parts;
      assert w[0] == '"';
      ReadsAfterSpace(w, base + 1);
      MembersRoundTrip(entries, variant, c, base + 2, fields);
    }
  }

  // ---------------------------------------------------------------------
  // The round trip and what it implies.

  /** Parsing the printed form of a readable container gives back its
      denotation, whatever text follows the closing bracket or brace. */
  lemma RoundTrip(v: Value, variant: Variant, tail: string)
    requires Readable(v, variant)
    ensures ToJson(v, variant).Ok?
    ensures Parse(ToJson(v, variant).value + tail) == Ok(Denote(v))
  {
    ContainerRoundTrip(v, variant, tail, 0);
  }

  /** `body()` on a printed container: with the JSON media type it is the
      container's denotation, with any other Content-Type it is refused. */
  lemma BodyRoundTrip(v: Value, variant: Variant, tail: string, contentType: Option<string>)
    requires Readable(v, variant)
    ensures ToJson(v, variant).Ok?
    ensures Body(Some(JsonMediaType), ToJson(v, variant).value + tail) == Ok(Denote(v))
    ensures contentType != Some(JsonMediaType) ==> Body(contentType, ToJson(v, variant).value + tail).Err?
  {
    RoundTrip(v, variant, tail);
  }

  /** `bodyObject()` on a printed map gives back the `HashMap` of its
      entries, and `bodyArray()` on it fails with a ClassCastException. */
  lemma BodyObjectRoundTrip(entries: seq<(string, Value)>, variant: Variant, tail: string)
    requires Readable(VMap(entries), variant)
    ensures ToJson(VMap(entries), variant).Ok?
    ensures BodyObject(Some(JsonMediaType), ToJson(VMap(entries), variant).value + tail) == Ok(Fields(entries, map[]))
    ensures BodyArray(Some(JsonMediaType), ToJson(VMap(entries), variant).value + tail) == Err(ClassCast)
  {
    RoundTrip(VMap(entries), variant, tail);
  }

  /** `bodyArray()` on a printed list gives back its items' denotations in
      order, and `bodyObject()` on it fails with a ClassCastException. */
  lemma BodyArrayRoundTrip(shape: Shape, items: seq<Value>, variant: Variant, tail: string)
    requires Readable(VList(shape, items), variant)
    ensures ToJson(VList(shape, items), variant).Ok?
    ensures BodyArray(Some(JsonMediaType), ToJson(VList(shape, items), variant).value + tail) == Ok(DenoteAll(items))
    ensures BodyObject(Some(JsonMediaType), ToJson(VList(shape, items), variant).value + tail) == Err(ClassCast)
  {
    RoundTrip(VList(shape, items), variant, tail);
  }

  /** A key that no entry carries keeps its value (or its absence). */
  lemma {:induction false} FieldsUntouched(entries: seq<(string, Value)>, fields: map<string, Json>, k: string)
    requires forall i :: 0 <= i < |entries| ==> entries[i].0 != k
    ensures (k in Fields(entries, fields)) == (k in fields)
    ensures k in fields ==> Fields(entries, fields)[k] == fields[k]
    decreases entries
  {
    if entries != [] {
      assert forall i :: 0 <= i < |entries| - 1 ==> entries[1..][i] == entries[i + 1];
      FieldsUntouched(entries[1..], fields[entries[0].0 := Denote(entries[0].1)], k);
    }
  }

  /** Among entries with the same key, the last one decides the value. */
  lemma {:induction false} FieldsLastWins(entries: seq<(string, Value)>, fields: map<string, Json>, i: nat)
    requires i < |entries|
    requires forall j :: i < j < |entries| ==> entries[j].0 != entries[i].0
    ensures entries[i].0 in Fields(entries, fields)
    ensures Fields(entries, fields)[entries[i].0] == Denote(entries[i].1)
    decreases entries
  {
    var next := fields[entries[0].0 := Denote(entries[0].1)];
    assert forall j :: 0 <= j < |entries| - 1 ==> entries[1..][j] == entries[j + 1];
    if i == 0 {
      FieldsUntouched(entries[1..], next, entries[0].0);
    } else {
      FieldsLastWins(entries[1..], next, i - 1);
    }
  }

  /** The keys after the updates: those of `fields` and those of the
      entries. */
  lemma {:induction false} FieldsKeys(entries: seq<(string, Value)>, fields: map<string, Json>)
    ensures Fields(entries, fields).Keys == fields.Keys + (set i | 0 <= i < |entries| :: entries[i].0)
    decreases entries
  {
    if entries != [] {
      var next := fields[entries[0].0 := Denote(entries[0].1)];
      FieldsKeys(entries[1..], next);
      var rest := set i | 0 <= i < |entries| - 1 :: entries[1..][i].0;
      var all := set i | 0 <= i < |entries| :: entries[i].0;
      assert all == {entries[0].0} + rest by {
        forall k | k in all ensures k in {entries[0].0} + rest {
          var i :| 0 <= i < |entries| && entries[i].0 == k;
          if i > 0 {
            assert entries[1..][i - 1].0 == k;
          }
        }
        forall k | k in rest ensures k in all {
          var i :| 0 <= i < |entries| - 1 && entries[1..][i].0 == k;
          assert entries[i + 1].0 == k;
        }
      }
    }
  }

  /** A printed map read back is a `HashMap` holding each key once, with
      the value of the last entry for that key. */
  lemma ReadBackMap(entries: seq<(string, Value)>, variant: Variant, tail: string, i: nat)
    requires Readable(VMap(entries), variant)
    requires i < |entries| && forall j :: i < j < |entries| ==> entries[j].0 != entries[i].0
    ensures ToJson(VMap(entries), variant).Ok?
    ensures var r := Parse(ToJson(VMap(entries), variant).value + tail);
            && r.Ok? && r.value.JObject?
            && r.value.fields.Keys == (set j | 0 <= j < |entries| :: entries[j].0)
            && r.value.fields[entries[i].0] == Denote(entries[i].1)
  {
    RoundTrip(VMap(entries), variant, tail);
    FieldsKeys(entries, map[]);
    FieldsLastWins(entries, map[], i);
  }

  /** The printed array of one integer. */
  lemma PrintedSingleInt(shape: Shape, i: Int32, variant: Variant)
    ensures ToJson(VList(shape, [VInt(i)]), variant) == Ok("[" + IntToString(i as int) + "]")
  {
    var p := IntToString(i as int);
    assert [VInt(i)][1..] == [];
    assert ItemJson(VInt(i), variant) == Ok(p);
    assert Items([], variant) == Ok([]);
    assert [p] + [] == [p];
    assert Items([VInt(i)], variant) == Ok([p]);
    assert Join([p], ", ") == p;
  }

  lemma Bracketed(p: string, tail: string)
    ensures "[" + p + "]" + tail == [Symbol(LeftBracket)] + (p + ("]" + tail))
  {
  }

  /** A negative integer reads back without its sign. */
  lemma NegativeLosesSign(shape: Shape, i: Int32, variant: Variant, tail: string)
    requires -IntMax <= i as int < 0
    ensures ToJson(VList(shape, [VInt(i)]), variant).Ok?
    ensures Parse(ToJson(VList(shape, [VInt(i)]), variant).value + tail) == Ok(JArray([JInt(-(i as int))]))
  {
    var v := VList(shape, [VInt(i)]);
    assert Readable(v, variant);
    RoundTrip(v, variant, tail);
    assert [VInt(i)][1..] == [];
    assert DenoteAll([VInt(i)]) == [JInt(-(i as int))];
  }

  /** Inside an array, a printed negative number too large in magnitude
      stops the parse. */
  lemma TooLargeInArray(n: nat, c: string, base: nat)
    requires n > IntMax && Closer(c)
    ensures ParseArray("-" + NatToString(n) + c, base) == Err(BadNumber(NatToString(n)))
  {
    TooLargeRejected(n, c, base);
  }

  /** `Integer.MIN_VALUE` is printed but cannot be read back: `parseInt`
      rejects its digits, and that exception is not wrapped. */
  lemma MinValueNotReadBack(shape: Shape, i: Int32, variant: Variant, tail: string)
    requires i as int < -IntMax
    ensures ToJson(VList(shape, [VInt(i)]), variant).Ok?
    ensures Parse(ToJson(VList(shape, [VInt(i)]), variant).value + tail) == Err(NumberFormat(NatToString(-(i as int))))
  {
    PrintedSingleInt(shape, i, variant);
    var n: nat := -(i as int);
    var p := IntToString(i as int);
    assert p == "-" + NatToString(n);
    var inner := p + ("]" + tail);
    var s := ToJson(VList(shape, [VInt(i)]), variant).value + tail;
    Bracketed(p, tail);
    ReadsPunctuation(LeftBracket, inner, 0);
    assert s[1..] == inner;
    TooLargeInArray(n, "]" + tail, 1);
    assert ParseText(s) == Err(BadNumber(NatToString(n)));
  }
}
