/** Inputs of src/test/java/ToyJSONParserTest.java and a few error cases,
    each stated for an arbitrary text `t` after the closing token: `parse`
    never reads past it. */
module JsonParserExamples {
  import opened Wrappers
  import opened Text
  import opened JsonLexer
  import opened JsonParser

  // ---------------------------------------------------------------------
  // Small lexing steps the examples are built from.

  /** A newline is passed over. */
  lemma AfterNewline(t: string, base: nat)
    ensures NextToken("\n" + t, base) == NextToken(t, base + 1)
  {
    var s := "\n" + t;
    NewlineSkipped(s);
    assert s[1..] == t;
  }

  /** Two blanks before a non-blank character are one blank run. */
  lemma AfterTwoSpaces(t: string, base: nat)
    requires t == [] || !IsBlank(t[0])
    ensures NextToken("  " + t, base) == NextToken(t, base + 2)
  {
    var s := "  " + t;
    assert (" " + t)[1..] == t;
    assert BlankRun(" " + t) == 1;
    assert s[1..] == " " + t;
    assert s[2..] == t;
    assert BlankRun(s) == 2;
  }

  /** The one-character token of a punctuation kind, at `base`. */
  lemma Punctuation(k: Kind, t: string, base: nat)
    requires IsPunctuation(k)
    ensures NextToken([Symbol(k)] + t, base) == Some(Lexed(Token(k, [Symbol(k)], base), t, base + 1, base))
  {
    ReadsPunctuation(k, t, base);
    assert ([Symbol(k)] + t)[1..] == t;
  }

  /** The token of a literal word, at `base`. */
  lemma Literal(k: Kind, t: string, base: nat)
    requires k == NullLit || k == TrueLit || k == FalseLit
    ensures NextToken(WordOf(k) + t, base) == Some(Lexed(Token(k, WordOf(k), base), t, base + |WordOf(k)|, base))
  {
    ReadsWord(k, t, base);
    assert (WordOf(k) + t)[|WordOf(k)|..] == t;
  }

  /** The token of digits, a dot and digits, at `base`. */
  lemma Decimal(d1: string, d2: string, t: string, base: nat, end: nat)
    requires AllDigits(d1) && AllDigits(d2) && (t == [] || !IsDigit(t[0]))
    requires end == base + |d1| + 1 + |d2|
    ensures NextToken(d1 + "." + d2 + t, base) == Some(Lexed(Token(DoubleNum, d1 + "." + d2, base), t, end, base))
  {
    var s := d1 + "." + d2 + t;
    ReadsDouble(d1, d2, t, base);
    assert s[end - base..] == t;
    var l := NextToken(s, base).value;
    assert l.token == Token(DoubleNum, d1 + "." + d2, base);
  }

  // ---------------------------------------------------------------------
  // Empty containers.

  lemma EmptyObject(t: string)
    ensures Parse("{}" + t) == Ok(JObject(map[]))
  {
    assert "{}" + t == [Symbol(LeftCurly)] + ([Symbol(RightCurly)] + t);
    Punctuation(LeftCurly, [Symbol(RightCurly)] + t, 0);
    Punctuation(RightCurly, t, 1);
  }

  lemma EmptyObjectBlank(t: string)
    ensures Parse("{ }" + t) == Ok(JObject(map[]))
  {
    var r := [Symbol(RightCurly)] + t;
    assert "{ }" + t == [Symbol(LeftCurly)] + (" " + r);
    Punctuation(LeftCurly, " " + r, 0);
    ReadsAfterSpace(r, 1);
    Punctuation(RightCurly, t, 2);
  }

  lemma EmptyArray(t: string)
    ensures Parse("[]" + t) == Ok(JArray([]))
  {
    assert "[]" + t == [Symbol(LeftBracket)] + ([Symbol(RightBracket)] + t);
    Punctuation(LeftBracket, [Symbol(RightBracket)] + t, 0);
    Punctuation(RightBracket, t, 1);
  }

  lemma EmptyArrayBlank(t: string)
    ensures Parse("[ ]" + t) == Ok(JArray([]))
  {
    var r := [Symbol(RightBracket)] + t;
    assert "[ ]" + t == [Symbol(LeftBracket)] + (" " + r);
    Punctuation(LeftBracket, " " + r, 0);
    ReadsAfterSpace(r, 1);
    Punctuation(RightBracket, t, 2);
  }

  // ---------------------------------------------------------------------
  // The inputs with a `null` member and a `null` element, laid out over
  // several lines.

  /** `\n}` closes an object after its last member. */
  lemma CloseObjectOnNextLine(t: string, base: nat, fields: map<string, Json>)
    ensures MembersAfter("\n}" + t, base, fields) == Ok(Parsed(JObject(fields), t, base + 2))
  {
    var r := [Symbol(RightCurly)] + t;
    assert "\n}" + t == "\n" + r;
    AfterNewline(r, base);
    Punctuation(RightCurly, t, base + 1);
  }

  /** The value ` null` after a key's colon. */
  lemma NullMember(t: string, base: nat, key: string, fields: map<string, Json>)
    ensures MemberValue(" null\n}" + t, base, key, fields) == Ok(Parsed(JObject(fields[key := JNull]), t, base + 7))
  {
    var r := "\n}" + t;
    assert " null\n}" + t == " " + (WordOf(NullLit) + r);
    ReadsAfterSpace(WordOf(NullLit) + r, base);
    ReadsWord(NullLit, r, base + 1);
    assert (WordOf(NullLit) + r)[4..] == r;
    CloseObjectOnNextLine(t, base + 5, fields[key := JNull]);
  }

  /** `"foo": null` as the member after the key. */
  lemma FooIsNull(t: string, key: Token)
    requires key == Token(StringLit, "foo", 5)
    ensures ParseMembers(key, ": null\n}" + t, 9, map[]) == Ok(Parsed(JObject(map["foo" := JNull]), t, 17))
  {
    var r := " null\n}" + t;
    assert ": null\n}" + t == [Symbol(Colon)] + r;
    Punctuation(Colon, r, 9);
    NullMember(t, 10, "foo", map[]);
  }

  /** The key on the next line, indented by two blanks. */
  lemma FooKey(r: string)
    ensures NextToken("\n  \"foo\"" + r, 1) == Some(Lexed(Token(StringLit, "foo", 5), r, 9, 4))
  {
    var k := "\"" + "foo" + "\"" + r;
    assert "\n  \"foo\"" + r == "\n" + ("  " + k);
    AfterNewline("  " + k, 1);
    AfterTwoSpaces(k, 2);
    ReadsString("foo", r, 4);
    assert k[5..] == r;
  }

  /** The object of `parseObjectsWithNull`: its one key maps to null. */
  lemma ObjectWithNull(t: string)
    ensures Parse("{\n  \"foo\": null\n}" + t) == Ok(JObject(map["foo" := JNull]))
  {
    var r := ": null\n}" + t;
    var body := "\n  \"foo\"" + r;
    assert "{\n  \"foo\": null\n}" + t == [Symbol(LeftCurly)] + body;
    Punctuation(LeftCurly, body, 0);
    FooKey(r);
    assert ParseObject(body, 1) == ParseMembers(Token(StringLit, "foo", 5), r, 9, map[]);
    FooIsNull(t, Token(StringLit, "foo", 5));
  }

  /** ` ]` closes an array. */
  lemma CloseArrayAfterSpace(t: string, base: nat, items: seq<Json>)
    ensures ElementsAfter(" ]" + t, base, items) == Ok(Parsed(JArray(items), t, base + 2))
  {
    assert " ]" + t == " " + ([Symbol(RightBracket)] + t);
    ReadsAfterSpace([Symbol(RightBracket)] + t, base);
    Punctuation(RightBracket, t, base + 1);
  }

  /** `, null ]` ends an array after an element. */
  lemma NullLastElement(t: string, base: nat, items: seq<Json>)
    ensures ElementsAfter(", null ]" + t, base, items) == Ok(Parsed(JArray(items + [JNull]), t, base + 8))
  {
    var r := " ]" + t;
    var n := " " + (WordOf(NullLit) + r);
    assert ", null ]" + t == [Symbol(Comma)] + n;
    Punctuation(Comma, n, base);
    ReadsAfterSpace(WordOf(NullLit) + r, base + 1);
    Literal(NullLit, r, base + 2);
    assert ElementsAfter(", null ]" + t, base, items) == ParseElements(Token(NullLit, "null", base + 2), r, base + 6, items);
    CloseArrayAfterSpace(t, base + 6, items + [JNull]);
  }

  /** A blank and a decimal number as the first element. */
  lemma DecimalFirst(d1: string, d2: string, r: string, base: nat, end: nat)
    requires |d1| > 0 && AllDigits(d1) && AllDigits(d2) && (r == [] || !IsDigit(r[0]))
    requires end == base + 1 + |d1| + 1 + |d2|
    ensures ParseArray(" " + (d1 + "." + d2 + r), base) == ElementsAfter(r, end, [JDouble(d1 + "." + d2)])
  {
    var d := d1 + "." + d2;
    assert d + r == d1 + "." + d2 + r;
    ReadsAfterSpace(d + r, base);
    Decimal(d1, d2, r, base + 1, end);
    assert ParseArray(" " + (d + r), base) == ParseElements(Token(DoubleNum, d, base + 1), r, end, []);
    assert |d| > 1;
    assert [] + [JDouble(d)] == [JDouble(d)];
  }

  /** The array of `parseArraysWithNull`: a double, then null. */
  lemma ArrayWithNull(t: string)
    ensures Parse("[ 13.4, null ]" + t) == Ok(JArray([JDouble("13.4"), JNull]))
  {
    var r := ", null ]" + t;
    var body := " " + ("13" + "." + "4" + r);
    assert "[ 13.4, null ]" + t == [Symbol(LeftBracket)] + body;
    Punctuation(LeftBracket, body, 0);
    DecimalFirst("13", "4", r, 1, 6);
    assert "13" + "." + "4" == "13.4";
    NullLastElement(t, 6, [JDouble("13.4")]);
    assert [JDouble("13.4")] + [JNull] == [JDouble("13.4"), JNull];
    assert ParseArray(body, 1) == Ok(Parsed(JArray([JDouble("13.4"), JNull]), t, 14));
  }

  // ---------------------------------------------------------------------
  // Errors.

  /** `,]`: the token after a comma must start a value. */
  lemma CommaThenClose(t: string, base: nat, items: seq<Json>)
    ensures ElementsAfter(",]" + t, base, items) == Err(Unexpected(ValueKinds, Token(RightBracket, "]", base + 1)))
  {
    assert ",]" + t == [Symbol(Comma)] + ([Symbol(RightBracket)] + t);
    Punctuation(Comma, [Symbol(RightBracket)] + t, base);
    Punctuation(RightBracket, t, base + 1);
    assert [Symbol(RightBracket)] == "]";
    var close := Token(RightBracket, "]", base + 1);
    assert ElementsAfter(",]" + t, base, items) == ParseElements(close, t, base + 2, items);
    assert ParseValue(close, t, base + 2) == Err(Unexpected(ValueKinds, close));
  }

  /** After a comma a value must follow: `]` is reported with the kinds a
      value may start with. */
  lemma TrailingComma(t: string)
    ensures ParseText("[null,]" + t) == Err(Unexpected(ValueKinds, Token(RightBracket, "]", 6)))
  {
    var r := ",]" + t;
    var n := WordOf(NullLit) + r;
    assert "[null,]" + t == [Symbol(LeftBracket)] + n;
    Punctuation(LeftBracket, n, 0);
    Literal(NullLit, r, 1);
    assert ParseArray(n, 1) == ParseElements(Token(NullLit, "null", 1), r, 5, []);
    assert [] + [JNull] == [JNull];
    CommaThenClose(t, 5, [JNull]);
  }

  /** The message of the top-level error. */
  lemma TopLevelMessage(t: Token)
    ensures ErrorMessage(Unexpected([LeftCurly, LeftBracket], t)) ==
            "expect " + "LEFT_CURLY, LEFT_BRACKET" + " but recognized " + Name(t.kind) + " at " + IntToString(t.location)
  {
    var ks := [LeftCurly, LeftBracket];
    var names := seq(|ks|, i requires 0 <= i < |ks| => Name(ks[i]));
    assert names == ["LEFT_CURLY", "LEFT_BRACKET"];
    assert names[1..] == ["LEFT_BRACKET"];
    assert Join(names, ", ") == "LEFT_CURLY, LEFT_BRACKET";
  }

  /** Input whose first token opens neither an object nor an array is
      rejected with that token's kind and location, and the input. */
  lemma TopLevelRejects(input: string)
    requires NextToken(input, 0).Some?
    requires NextToken(input, 0).value.token.kind !in {LeftCurly, LeftBracket}
    ensures var t := NextToken(input, 0).value.token;
            Parse(input) ==
            Err(IllegalState("expect " + "LEFT_CURLY, LEFT_BRACKET" + " but recognized " + Name(t.kind) + " at "
                             + IntToString(t.location) + "\n while parsing " + input))
  {
    var t := NextToken(input, 0).value.token;
    assert ParseText(input) == Err(Unexpected([LeftCurly, LeftBracket], t));
    TopLevelMessage(t);
  }

  /** A bare `true` is not a document. */
  lemma NotAContainer(t: string)
    ensures Parse("true" + t) ==
            Err(IllegalState("expect " + "LEFT_CURLY, LEFT_BRACKET" + " but recognized " + "TRUE" + " at " + "0"
                             + "\n while parsing " + ("true" + t)))
  {
    assert WordOf(TrueLit) == "true";
    Literal(TrueLit, t, 0);
    TopLevelRejects("true" + t);
    assert Name(TrueLit) == "TRUE";
    assert IntToString(0) == "0";
  }

  /** Input that ends inside an object fails in the lexer. */
  lemma Truncated(t: string)
    requires NextToken(t, 1).None?
    ensures Parse("{" + t) == Err(IllegalState("no token recognized" + "\n while parsing " + ("{" + t)))
  {
    assert "{" + t == [Symbol(LeftCurly)] + t;
    Punctuation(LeftCurly, t, 0);
    assert ParseObject(t, 1) == Err(NoToken);
    assert ParseText("{" + t) == Err(NoToken);
  }
}
