/** `ToyJSONParser`'s recursive descent, identical in src/main/java/JExpress.java
    and src/main/java/JExpress8.java. Each parse function receives the text
    still to be lexed together with its absolute offset, and returns the
    value it built with the text and offset where the lexer stopped. */
module JsonParser {
  import opened Wrappers
  import opened Text
  import opened JsonLexer

  /** The Java objects the parser builds: `null`, `Boolean`, `Integer`,
      `Double` (kept as the DOUBLE token's text), `String`, `ArrayList` and
      `HashMap` (a map: a later duplicate key replaces the earlier value). */
  datatype Json =
    | JNull
    | JBool(b: bool)
    | JInt(i: int)
    | JDouble(text: string)
    | JString(s: string)
    | JArray(items: seq<Json>)
    | JObject(fields: map<string, Json>)

  /** Why parsing stopped: `next()` found no token, a token of the wrong
      kind (`Token.error`), or a number `parseInt`/`parseDouble` rejects. */
  datatype ParseError =
    | NoToken
    | Unexpected(expected: seq<Kind>, found: Token)
    | BadNumber(text: string)

  /** What `parse(String)` lets escape: a wrapped IllegalStateException,
      the NumberFormatException of `parseInt`/`parseDouble` unwrapped, or
      the ClassCastException of `bodyObject`/`bodyArray`. */
  datatype Failure = IllegalState(message: string) | NumberFormat(text: string) | ClassCast

  /** A value together with where the lexer stopped after it. */
  datatype Parsed<T> = Parsed(value: T, rest: string, base: nat)

  const IntMax: int := 0x7fff_ffff

  /** The kinds the value error lists, in the source's order (the last one
      is RIGHT_CURLY although a value never starts with it). */
  const ValueKinds: seq<Kind> :=
    [NullLit, FalseLit, TrueLit, IntegerNum, DoubleNum, StringLit, LeftBracket, RightCurly]

  /** The exception message of a lexing or syntax error. */
  function ErrorMessage(e: ParseError): string
    requires !e.BadNumber?
  {
    match e
    case NoToken => "no token recognized"
    case Unexpected(ks, t) =>
      "expect " + Join(seq(|ks|, i requires 0 <= i < |ks| => Name(ks[i])), ", ")
      + " but recognized " + Name(t.kind) + " at " + IntToString(t.location)
  }

  /** `lexer.next()`. */
  function Next(s: string, base: nat): (r: Result<Lexed, ParseError>)
    ensures r.Ok? ==> |r.value.rest| < |s| && NextToken(s, base) == Some(r.value)
    ensures r.Err? ==> NextToken(s, base).None? && r.error == NoToken
  {
    match NextToken(s, base)
    case None => Err(NoToken)
    case Some(l) => Ok(l)
  }

  /** `lexer.next()` fails exactly when every remaining position is passed
      over; otherwise it yields the token at the leftmost position that is
      not. */
  lemma NextSpec(s: string, base: nat)
    ensures Next(s, base).Err? <==> SkippedBefore(s, |s|)
    ensures Next(s, base).Err? ==> Next(s, base).error == NoToken
    ensures Next(s, base).Ok? ==> FoundFirst(s, base, Next(s, base).value)
  {
    NextTokenNone(s, base);
    if NextToken(s, base).Some? {
      NextTokenFound(s, base);
    }
  }

  /** `Integer.parseInt` of an INTEGER token: its digits, unless they
      exceed 2^31 - 1. */
  function ParseInt(text: string): (r: Result<int, ParseError>)
    ensures r.Ok? <==> AllDigits(text) && DigitsValue(text) <= IntMax
    ensures r.Ok? ==> r.value == DigitsValue(text)
    ensures r.Err? ==> r.error == BadNumber(text)
  {
    if AllDigits(text) && DigitsValue(text) <= IntMax then Ok(DigitsValue(text)) else Err(BadNumber(text))
  }

  /** `Integer.parseInt` reads back the decimal text of every number up to
      2^31 - 1 and rejects the text of every larger one. */
  lemma ParseIntOfDecimal(n: nat)
    ensures ParseInt(NatToString(n)).Ok? <==> n <= IntMax
    ensures n <= IntMax ==> ParseInt(NatToString(n)) == Ok(n)
    ensures n > IntMax ==> ParseInt(NatToString(n)) == Err(BadNumber(NatToString(n)))
  {
    DigitsValueOfNatToString(n);
  }

  /** `Double.parseDouble` of a DOUBLE token, kept as text; of the texts
      `[0-9]*\.[0-9]*` matches, only the lone dot is rejected. */
  function ParseDouble(text: string): (r: Result<string, ParseError>)
    ensures r.Ok? <==> text != "."
    ensures r.Ok? ==> r.value == text
  {
    if text == "." then Err(BadNumber(text)) else Ok(text)
  }

  /** Of the texts a DOUBLE token can have (digits, a dot, digits),
      `Double.parseDouble` accepts exactly those that hold a digit, and
      the value keeps the text. */
  lemma ParseDoubleSpec(d1: string, d2: string)
    requires AllDigits(d1) && AllDigits(d2)
    ensures var t := d1 + "." + d2;
            ParseDouble(t).Ok? <==> exists i :: 0 <= i < |t| && IsDigit(t[i])
    ensures ParseDouble(d1 + "." + d2).Ok? ==> ParseDouble(d1 + "." + d2).value == d1 + "." + d2
  {
    var t := d1 + "." + d2;
    if d1 != [] {
      assert IsDigit(t[0]);
    } else if d2 != [] {
      assert t[1] == d2[0];
    } else {
      assert t == ".";
    }
  }

  /** `parseObjectValue`/`parseArrayValue`: the value that starts with
      token `t`, the text after `t` being `s` at offset `base`. */
  function ParseValue(t: Token, s: string, base: nat): (r: Result<Parsed<Json>, ParseError>)
    ensures r.Ok? ==> |r.value.rest| <= |s|
    decreases |s|, 2
  {
    match t.kind
    case NullLit => Ok(Parsed(JNull, s, base))
    case FalseLit => Ok(Parsed(JBool(false), s, base))
    case TrueLit => Ok(Parsed(JBool(true), s, base))
    case IntegerNum =>
      var i :- ParseInt(t.text);
      Ok(Parsed(JInt(i), s, base))
    case DoubleNum =>
      var d :- ParseDouble(t.text);
      Ok(Parsed(JDouble(d), s, base))
    case StringLit => Ok(Parsed(JString(t.text), s, base))
    case LeftCurly => ParseObject(s, base)
    case LeftBracket => ParseArray(s, base)
    case _ => Err(Unexpected(ValueKinds, t))
  }

  /** `parseObject`, called once the `{` is consumed: `}` at once, or the
      members. */
  function ParseObject(s: string, base: nat): (r: Result<Parsed<Json>, ParseError>)
    ensures r.Ok? ==> |r.value.rest| < |s| && r.value.value.JObject?
    decreases |s|, 1
  {
    var l :- Next(s, base);
    if l.token.kind == RightCurly then Ok(Parsed(JObject(map[]), l.rest, l.base))
    else ParseMembers(l.token, l.rest, l.base, map[])
  }

  /** The first half of a turn of `parseObject`'s loop: `key` must be a
      STRING, then come a COLON and a value. `fields` holds the members
      read so far. */
  function ParseMembers(key: Token, s: string, base: nat, fields: map<string, Json>)
    : (r: Result<Parsed<Json>, ParseError>)
    ensures r.Ok? ==> |r.value.rest| < |s| && r.value.value.JObject?
    decreases |s|, 0
  {
    if key.kind != StringLit then Err(Unexpected([StringLit], key))
    else
      var colon :- Next(s, base);
      if colon.token.kind != Colon then Err(Unexpected([Colon], colon.token))
      else MemberValue(colon.rest, colon.base, key.text, fields)
  }

  /** After the COLON: the next token starts the value
      (`parseObjectValue`), which is put under `key`; then the loop goes on
      with `MembersAfter`. */
  function MemberValue(s: string, base: nat, key: string, fields: map<string, Json>)
    : (r: Result<Parsed<Json>, ParseError>)
    ensures r.Ok? ==> |r.value.rest| < |s| && r.value.value.JObject?
    decreases |s|, 0
  {
    var first :- Next(s, base);
    var v :- ParseValue(first.token, first.rest, first.base);
    MembersAfter(v.rest, v.base, fields[key := v.value])
  }

  /** The second half: `}` ends the object, a COMMA starts the next
      member. */
  function MembersAfter(s: string, base: nat, fields: map<string, Json>)
    : (r: Result<Parsed<Json>, ParseError>)
    ensures r.Ok? ==> |r.value.rest| < |s| && r.value.value.JObject?
    decreases |s|, 0
  {
    var after :- Next(s, base);
    if after.token.kind == RightCurly then Ok(Parsed(JObject(fields), after.rest, after.base))
    else if after.token.kind != Comma then Err(Unexpected([Comma], after.token))
    else
      var nextKey :- Next(after.rest, after.base);
      ParseMembers(nextKey.token, nextKey.rest, nextKey.base, fields)
  }

  /** `parseArray`, called once the `[` is consumed: `]` at once, or the
      elements. */
  function ParseArray(s: string, base: nat): (r: Result<Parsed<Json>, ParseError>)
    ensures r.Ok? ==> |r.value.rest| < |s| && r.value.value.JArray?
    decreases |s|, 1
  {
    var l :- Next(s, base);
    if l.token.kind == RightBracket then Ok(Parsed(JArray([]), l.rest, l.base))
    else ParseElements(l.token, l.rest, l.base, [])
  }

  /** The first half of a turn of `parseArray`'s loop: the value that
      starts with `t`. `items` holds the elements read so far. */
  function ParseElements(t: Token, s: string, base: nat, items: seq<Json>)
    : (r: Result<Parsed<Json>, ParseError>)
    ensures r.Ok? ==> |r.value.rest| < |s| && r.value.value.JArray?
    ensures r.Ok? ==> |r.value.value.items| > |items| && r.value.value.items[..|items|] == items
    ensures r.Ok? ==> ParseValue(t, s, base).Ok? && r.value.value.items[|items|] == ParseValue(t, s, base).value.value
    decreases |s|, 3
  {
    var v :- ParseValue(t, s, base);
    var r := ElementsAfter(v.rest, v.base, items + [v.value]);
    assert r.Ok? ==> r.value.value.items[..|items| + 1] == items + [v.value];
    assert r.Ok? ==> r.value.value.items[..|items|] == (items + [v.value])[..|items|];
    r
  }

  /** The second half: `]` ends the array, a COMMA introduces the next
      element. */
  function ElementsAfter(s: string, base: nat, items: seq<Json>)
    : (r: Result<Parsed<Json>, ParseError>)
    ensures r.Ok? ==> |r.value.rest| < |s| && r.value.value.JArray?
    ensures r.Ok? ==> |r.value.value.items| >= |items| && r.value.value.items[..|items|] == items
    decreases |s|, 0
  {
    var after :- Next(s, base);
    if after.token.kind == RightBracket then Ok(Parsed(JArray(items), after.rest, after.base))
    else if after.token.kind != Comma then Err(Unexpected([Comma], after.token))
    else
      var n :- Next(after.rest, after.base);
      var r := ParseElements(n.token, n.rest, n.base, items);
      r
  }

  /** `parse(Lexer)`: the first token must open an object or an array;
      whatever follows the closing token is never read. */
  function ParseText(input: string): (r: Result<Json, ParseError>)
    ensures r.Ok? ==> NextToken(input, 0).Some?
    ensures r.Ok? ==> (r.value.JObject? <==> NextToken(input, 0).value.token.kind == LeftCurly)
    ensures r.Ok? ==> (r.value.JArray? <==> NextToken(input, 0).value.token.kind == LeftBracket)
  {
    var l :- Next(input, 0);
    match l.token.kind
    case LeftCurly =>
      var p :- ParseObject(l.rest, l.base);
      Ok(p.value)
    case LeftBracket =>
      var p :- ParseArray(l.rest, l.base);
      Ok(p.value)
    case _ => Err(Unexpected([LeftCurly, LeftBracket], l.token))
  }

  /** `ToyJSONParser.parse(String)`: an IllegalStateException is re-thrown
      with the input appended; a NumberFormatException passes through. */
  function Parse(input: string): (r: Result<Json, Failure>)
    ensures r.Ok? <==> ParseText(input).Ok?
    ensures r.Ok? ==> r.value == ParseText(input).value && (r.value.JObject? || r.value.JArray?)
    ensures ParseText(input).Err? && !ParseText(input).error.BadNumber? ==>
              r == Err(IllegalState(ErrorMessage(ParseText(input).error) + "\n while parsing " + input))
    ensures ParseText(input).Err? && ParseText(input).error.BadNumber? ==>
              r == Err(NumberFormat(ParseText(input).error.text))
  {
    match ParseText(input)
    case Ok(j) => Ok(j)
    case Err(e) =>
      if e.BadNumber? then Err(NumberFormat(e.text))
      else Err(IllegalState(ErrorMessage(e) + "\n while parsing " + input))
  }

  const JsonMediaType: string := "application/json"

  /** `RequestImpl.body()`: the Content-Type header must be exactly
      "application/json" (an absent header is `None`); the body text is
      then parsed. */
  function Body(contentType: Option<string>, text: string): (r: Result<Json, Failure>)
    ensures contentType != Some(JsonMediaType) ==>
              r == Err(IllegalState("Content-Type is not 'application/json'"))
    ensures contentType == Some(JsonMediaType) ==> r == Parse(text)
  {
    if contentType != Some(JsonMediaType) then Err(IllegalState("Content-Type is not 'application/json'"))
    else Parse(text)
  }

  /** `bodyObject()`: the parsed body cast to a map. */
  function BodyObject(contentType: Option<string>, text: string): (r: Result<map<string, Json>, Failure>)
    ensures r.Ok? <==> Body(contentType, text).Ok? && Body(contentType, text).value.JObject?
    ensures r.Ok? ==> r.value == Body(contentType, text).value.fields
    ensures Body(contentType, text).Ok? && !Body(contentType, text).value.JObject? ==> r == Err(ClassCast)
  {
    var j :- Body(contentType, text);
    if j.JObject? then Ok(j.fields) else Err(ClassCast)
  }

  /** `bodyArray()`: the parsed body cast to a list. */
  function BodyArray(contentType: Option<string>, text: string): (r: Result<seq<Json>, Failure>)
    ensures r.Ok? <==> Body(contentType, text).Ok? && Body(contentType, text).value.JArray?
    ensures r.Ok? ==> r.value == Body(contentType, text).value.items
    ensures Body(contentType, text).Ok? && !Body(contentType, text).value.JArray? ==> r == Err(ClassCast)
  {
    var j :- Body(contentType, text);
    if j.JArray? then Ok(j.items) else Err(ClassCast)
  }
}
