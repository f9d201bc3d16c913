# jexpress in Dafny

A model of the pure core of jexpress, a small Express.js-like web framework
written in Java. The repository holds four near-identical variants:
`src/main/java/JExpress.java`, `src/main/java/JExpress8.java` (Java 8, no
records), `src/main/java/JExpressLoom.java` (no JSON parser) and the older
single-file `src/JExpress.java`. The model covers:

- the route pattern matcher `matcher(String)`. It splits the pattern with
  Java's `String.split("/")`. It then applies a length guard and one
  equality check per literal segment, and binds each `:name` segment by
  index (`matcher.dfy`, with `split` in `text.dfy`);
- the handler pipeline of the three newer variants (`pipeline.dfy`):
  - `use(path, handler)` puts a new head in front of the old pipeline;
  - `get/post/put/delete` add a method filter that compares the method
    ignoring case;
  - the initial pipeline sends the 404 page `no match METHOD PATH`;
  - `param(name)` reads the captured parameters;
- `ToyJSONParser`. Its lexer is a regular-expression alternation driven by
  `Matcher.find()`; it is written out as one recogniser per token kind,
  with the leftmost-first rule (`lexer.dfy`). The recursive-descent parser
  follows, with its exact error messages and the `"\n while parsing "`
  wrapping (`parser.dfy`). `RequestImpl.body`, `bodyObject` and
  `bodyArray` are modelled too;
- `JSONPrettyPrinter`, with and without the record branch (`printer.dfy`);
- the round trip from printer to parser (`roundtrip.dfy`). It states which
  printed objects read back, and what they read back as;
- the older `src/JExpress.java` (`legacy.dfy`):
  - routing that checks the method before the path;
  - the matcher that splits the raw path itself;
  - `type(t, charset)` and `json(Stream)`.
  It also proves that method-first routing agrees with the newer
  path-first routing;
- the inputs of the repository's tests, stated for arbitrary strings of the
  same shape (`matcher_examples.dfy`, `parser_examples.dfy`,
  `printer_examples.dfy`).

Where the code and its documentation differ, the model follows the code:

- `"/".split("/")` is the empty array, so the pattern `"/"` of `use(handler)`
  has no segment at all and matches every path.
- When a value is expected, the error message lists `LEFT_BRACKET` and
  `RIGHT_CURLY`, not `LEFT_CURLY`. `ValueKinds` keeps that list exactly as
  the source writes it.

## Model

| member | source | states |
|---|---|---|
| Text.JavaSplitSpec | src/main/java/JExpress.java:410 | `split("/")`: no part contains '/'. A string without '/' comes back whole. Otherwise the parts are the full split minus its trailing empty pieces, and the last part kept is never empty. |
| Text.FullSplitJoin | src/main/java/JExpress.java:410 | Joining the full split with the separator gives back the input. |
| Text.EqualsIgnoreCaseUpper | src/main/java/JExpress.java:824 | Comparing the upper-cased `request.method()` ignoring case gives the same answer as comparing the method as sent. |
| Text.DigitsValueOfNatToString | src/main/java/JExpress.java:557 | Reading back the decimal text that `Integer.toString` prints for a non-negative number gives that number. |
| RouteMatcher.CompileSpec | src/main/java/JExpress.java:410-424 | There is one segment per pattern component, and it renders back to that component. A segment is a parameter exactly when its component starts with ':'. |
| RouteMatcher.LiteralChecksMeaning | src/main/java/JExpress.java:421-423 | The chained `Predicate.and` checks hold exactly when every literal segment equals the request component at its index. |
| RouteMatcher.BindSpec | src/main/java/JExpress.java:417-420 | The chained consumers bind exactly the parameter names. Each name gets the component at the last index that names it. |
| RouteMatcher.MatchSpec | src/main/java/JExpress.java:409-438 | A match happens exactly when the request has at least as many components as the pattern and every literal equals its component. The map then has exactly the parameter names as keys, the later index winning for a repeated name. |
| RouteMatcher.ExtraComponentsIgnored | src/main/java/JExpress.java:412 | Request components beyond the pattern's length never change the outcome. |
| RouteMatcher.RootPatternMatchesEverything | src/main/java/JExpress.java:842-844 | The pattern "/" has no segment, so it matches any components and binds nothing. |
| RouteMatcherExamples.SplitTwo | src/main/java/JExpress.java:898 | A path `/a/b` splits into the empty component, `a` and `b`. |
| RouteMatcherExamples.CompileWordParam | src/main/java/JExpressLoom.java:415-444 | `/w/:x` compiles to an empty literal, the literal `w` and the parameter `x`. |
| RouteMatcherExamples.WordParam | src/main/java/JExpressLoom.java:415-444 | `/w/:x` against `/w/v` binds `x` to `v`. Against `/w`, which has fewer components, it does not match. |
| RouteMatcherExamples.HelloId | src/test/java/JExpressLoomTest.java:39-47 | `/hello/:id` against `/hello/42` binds `id` to "42". `/hello` does not match. |
| Pipeline.DispatchNotFoundIffNoneAccepts | src/main/java/JExpress.java:851-863 | The request falls through to the 404 page exactly when no registered route accepts it. |
| Pipeline.NotFoundIsNoMatch | src/main/java/JExpress.java:777-780 | The only 404 outcome is the initial pipeline's: status 404 and the page naming the upper-cased method and the path. |
| Pipeline.LayerAnswersIffAccepts | src/main/java/JExpress.java:851-863 | One layer answers exactly when the request is accepted: its path matches, its handler does not call `next()`, and a method filter's method equals the request's ignoring case. It then answers with that route's callback and captures. |
| Pipeline.DispatchIsLastAccepting | src/main/java/JExpress.java:851-863 | The most recently registered accepting route answers, with its own captures as the parameters. |
| Pipeline.DispatchPrefix | src/main/java/JExpress.java:852 | Routes registered later do not change how the earlier pipeline behaves. |
| Pipeline.LatestRouteFirst | src/main/java/JExpressLoom.java:616-628 | A newly registered route that accepts the request answers it before any older route. |
| Pipeline.FallsThrough | src/main/java/JExpress8.java:803-815 | A new route that does not accept leaves the request to the older pipeline, unchanged. This holds whether its path misses, its method differs, or it calls `next()`. |
| Pipeline.MethodRouteFilters | src/main/java/JExpress.java:822-830 | On a matching path, a method route runs its callback when the methods are equal ignoring case. Otherwise it behaves exactly like a path miss. |
| Pipeline.UseEverywhereMatchesAll | src/main/java/JExpress.java:842-844 | A responding handler registered with `use(handler)` answers every request, with no parameters. |
| Pipeline.ParamSeenByCallback | src/main/java/JExpressLoom.java:616-628 | Inside the answering callback, `param` sees that route's captures: each parameter is bound to the component at its last index, and any other name gives "". |
| JsonLexer.RecogniseString | src/main/java/JExpress.java:465 | A STRING match is an opening quote, a quote-free text and the closing quote. The token text is the text between the quotes. |
| JsonLexer.MatchAtIsFirstKind | src/main/java/JExpress.java:517-518 | The per-character dispatch picks the same alternative as trying the kinds in declaration order. |
| JsonLexer.MatchAtSpec | src/main/java/JExpress.java:508-509 | At one position, nothing matches exactly when no kind does. Otherwise the winning kind matches and every kind declared before it does not. |
| JsonLexer.FirstRecognised | src/main/java/JExpress.java:508-509 | A kind that matches, while every kind declared before it does not, is the one picked. |
| JsonLexer.DoubleBeforeInteger | src/main/java/JExpress.java:463-464 | Digits followed by a dot lex as DOUBLE even though INTEGER also matches there. |
| JsonLexer.NextTokenFound | src/main/java/JExpress.java:503-514 | `next()` returns the match at the first position not passed over. Every earlier position matches nothing or a blank run, and the result is never BLANK. |
| JsonLexer.NextTokenNone | src/main/java/JExpress.java:505-506 | `next()` throws "no token recognized" exactly when every remaining position is passed over. |
| JsonLexer.BlankRunSkipped | src/main/java/JExpress.java:510 | Every position inside a dropped blank run is itself passed over. |
| JsonLexer.NewlineSkipped | src/main/java/JExpress8.java:528-540 | No token starts with a newline. |
| JsonLexer.MinusSkipped | src/main/java/JExpress.java:463-464 | No token starts with a minus sign, so the lexer steps over it. |
| JsonLexer.ReadsString | src/main/java/JExpress.java:511 | A quoted text without quotes is one STRING token. Its text is the inside and its location is just after the opening quote. |
| JsonLexer.ReadsInteger | src/main/java/JExpress.java:464 | Digits not followed by a digit or a dot are one INTEGER token. |
| JsonLexer.ReadsDouble | src/main/java/JExpress.java:463 | Digits, a dot and digits not followed by a digit are one DOUBLE token. |
| JsonLexer.ReadsAfterSpace | src/main/java/JExpress.java:472 | A single blank before a non-blank character is dropped. |
| JsonParser.NextSpec | src/main/java/JExpress.java:503-514 | `next()` fails with "no token recognized" exactly when every remaining position is passed over. Otherwise its token sits at the leftmost position that is not passed over and is never BLANK. |
| JsonParser.ParseIntOfDecimal | src/main/java/JExpress.java:557 | `parseInt` reads the decimal text of any number back as that number when it is at most 2^31 - 1. For a larger number it fails with a NumberFormat failure carrying the text. |
| JsonParser.ParseDoubleSpec | src/main/java/JExpress.java:558 | Every DOUBLE token text is digits, a dot and digits. `parseDouble` accepts such a text exactly when it holds at least one digit, and keeps the text. |
| JsonParser.ParseElements | src/main/java/JExpress.java:615-629 | The array loop only appends. The elements read before are kept in order, and the next one is the value that starts with the current token. |
| JsonParser.ParseText | src/main/java/JExpress.java:535-550 | A parse succeeds only when the first token is `{` or `[`. The result is an object exactly when that token is `{`, and an array exactly when it is `[`. |
| JsonParser.Parse | src/main/java/JExpress.java:526-533 | A syntax or lexing error is re-thrown with "\n while parsing " and the input appended. A number format error passes through unwrapped. Success gives an object or an array. |
| JsonRoundTrip.BodyRoundTrip | src/main/java/JExpress.java:289-294 | With Content-Type "application/json", `body()` of a printed container and any following text is that container's denotation. Any other Content-Type is refused. |
| JsonRoundTrip.BodyObjectRoundTrip | src/main/java/JExpress.java:296-300 | `bodyObject()` of a printed map is the HashMap of its entries, later keys winning. `bodyArray()` of the same body is a ClassCastException. |
| JsonRoundTrip.BodyArrayRoundTrip | src/main/java/JExpress.java:302-306 | `bodyArray()` of a printed list is its items' denotations in order. `bodyObject()` of the same body is a ClassCastException. |
| JsonParserExamples.EmptyObject | src/test/java/ToyJSONParserTest.java:21 | `{}` followed by anything parses to the empty map. |
| JsonParserExamples.EmptyObjectBlank | src/test/java/ToyJSONParserTest.java:22 | `{ }` parses to the empty map. |
| JsonParserExamples.EmptyArray | src/test/java/ToyJSONParserTest.java:66 | `[]` parses to the empty list. |
| JsonParserExamples.EmptyArrayBlank | src/test/java/ToyJSONParserTest.java:67 | `[ ]` parses to the empty list. |
| JsonParserExamples.ObjectWithNull | src/test/java/ToyJSONParserTest.java:52-61 | The multi-line object with `"foo": null` parses to the map with its one key bound to null. |
| JsonParserExamples.ArrayWithNull | src/test/java/ToyJSONParserTest.java:87-92 | `[ 13.4, null ]` parses to the double 13.4 followed by null. |
| JsonParserExamples.CommaThenClose | src/main/java/JExpress.java:592 | After a comma, `]` is rejected with the value error and the bracket's location. |
| JsonParserExamples.TrailingComma | src/main/java/JExpress.java:620-628 | `[null,]` is rejected: the token after a comma must start a value. |
| JsonParserExamples.TopLevelRejects | src/main/java/JExpress.java:548 | A first token that is not `{` or `[` fails with "expect LEFT_CURLY, LEFT_BRACKET but recognized K at L", then the input. |
| JsonParserExamples.NotAContainer | src/main/java/JExpress.java:548 | A bare `true` is not a document. |
| JsonParserExamples.Truncated | src/main/java/JExpress.java:505-506 | Input that ends inside an object fails with "no token recognized", then the input. |
| JsonPrinter.ToJson | src/main/java/JExpress.java:633-650 | Only a list, a map or (with records) a record prints. Its text is bracketed by `[`…`]` for a list and by `{`…`}` otherwise. |
| JsonPrinter.ToJsonOkIff | src/main/java/JExpress.java:633-662 | `toJSON` succeeds exactly on containers whose items are all null, strings, booleans, integers, doubles or printable containers. Without records, no record may occur. |
| JsonPrinter.ItemOkIff | src/main/java/JExpress.java:651-662 | An item prints exactly when it is a scalar or a printable container. |
| JsonPrinter.ItemsLayout | src/main/java/JExpress.java:663-665 | The printed array parts are the items' own texts, in order. |
| JsonPrinter.EntriesLayout | src/main/java/JExpress.java:666-670 | Each printed entry is the quoted key, `": "` and the value's item text, in the entries' order. |
| JsonPrinter.ShapeIrrelevant | src/main/java/JExpressLoom.java:355-371 | A Collection, an Iterable and a Stream with the same elements print identically. |
| JsonPrinter.TopLevelNeedsContainer | src/main/java/JExpress.java:649 | A scalar or an unknown object at the top level, or a record in the variant without records, is rejected with that object. |
| JsonPrinter.VariantsAgree | src/main/java/JExpress8.java:683-720 | Where the record-less serializer succeeds, it prints exactly what the serializer with records prints. |
| JsonPrinterExamples.RecordOneString | src/test/java/JExpressLoomTest.java:37-56 | A one-string record prints as `{"k": "s"}`. The variant without records rejects it. |
| JsonPrinterExamples.MapIntThenNull | src/test/java/JExpressLoomTest.java:58-76 | A map with an integer and a null prints as `{"k1": i, "k2": null}`, in iteration order. |
| JsonPrinterExamples.MixedList | src/test/java/JExpressLoomTest.java:78-116 | A list, iterable or stream of a boolean, an integer, a double and a string prints as `[b, i, d, "s"]`. |
| JsonRoundTrip.ReadableIsPrintable | src/main/java/JExpress.java:633-662 | Every container the round trip covers prints. |
| JsonRoundTrip.IntRoundTrip | src/main/java/JExpress.java:557 | A printed integer followed by a comma or closer reads back as its magnitude, since the lexer has no minus sign. |
| JsonRoundTrip.StringRoundTrip | src/main/java/JExpress.java:559 | A printed string without quotes reads back as the same string. |
| JsonRoundTrip.DoubleRoundTrip | src/main/java/JExpress.java:558 | A double printed as digits, a dot and digits reads back as the same text. |
| JsonRoundTrip.ItemRoundTrip | src/main/java/JExpress.java:651-662 | A readable item's printed text, followed by a comma or closer, parses to the item's denotation and leaves the closer. |
| JsonRoundTrip.ContainerRoundTrip | src/main/java/JExpress.java:633-650 | A readable container's printed text parses to its denotation and leaves whatever follows unread. |
| JsonRoundTrip.ArrayRoundTrip | src/main/java/JExpress.java:615-629 | A printed list parses to the list of its items' denotations. |
| JsonRoundTrip.ObjectRoundTrip | src/main/java/JExpress.java:596-613 | A printed map or record parses to the HashMap obtained by putting its entries in order. |
| JsonRoundTrip.RoundTrip | src/main/java/JExpress.java:526-550 | `parse(toJSON(v) + tail)` is the denotation of `v` for every readable container, whatever `tail` is. |
| JsonRoundTrip.FieldsLastWins | src/main/java/JExpress.java:554 | Among members with the same key, the last one's value is kept. |
| JsonRoundTrip.FieldsKeys | src/main/java/JExpress.java:596-613 | The parsed map's keys are exactly the keys of the members. |
| JsonRoundTrip.ReadBackMap | src/main/java/JExpress.java:596-613 | A printed map reads back as a map holding each key once, with the value of the last entry for it. |
| JsonRoundTrip.OverflowRejected | src/main/java/JExpress.java:557 | An INTEGER token above 2^31 - 1 fails with a number format error. |
| JsonRoundTrip.NegativeLosesSign | src/main/java/JExpress.java:659 | A printed negative integer reads back without its sign. |
| JsonRoundTrip.MinValueNotReadBack | src/main/java/JExpress.java:526-533 | `Integer.MIN_VALUE` prints but reading it back throws an unwrapped NumberFormatException. |
| LegacyRouter.LegacyMatch | src/JExpress.java:280-309 | The legacy matcher splits the raw path itself, then applies the same length, literal and parameter rules as the newer matcher. |
| LegacyRouter.NotFoundIffNoneAccepts | src/JExpress.java:377-392 | The 404 page is sent exactly when no route's method and path both fit. |
| LegacyRouter.NotFoundIsNoMatch | src/JExpress.java:331-335 | The only 404 outcome is the initial pipeline's page. |
| LegacyRouter.AnsweredByLastAccepting | src/JExpress.java:377-392 | Otherwise the newest route whose method and path fit answers, with its captures. |
| LegacyRouter.DispatchPrefix | src/JExpress.java:378 | Routes registered later do not change how the earlier pipeline behaves. |
| LegacyRouter.RegisterSpec | src/JExpress.java:377-392 | A new route answers when its method (ignoring case) and path both fit. Otherwise the request goes to the older pipeline unchanged. |
| LegacyRouter.SameAsPathFirst | src/JExpress.java:382-384 | Checking the method before the path dispatches every request exactly as the newer path-first pipeline with method filters does. |
| LegacyRouter.LayerAgrees | src/JExpress.java:382-384 | One legacy layer answers, or defers, exactly as the corresponding newer method route does. |
| LegacyRouter.ContentTypeReadsBack | src/JExpress.java:146-148 | From that value, the media type `t` and the parameter `charset=…` can be read back. |
| LegacyRouter.JsonContentType | src/JExpress.java:213-215 | `json(String)` sends media type "application/json" with charset utf-8. |
| LegacyRouter.JsonStream | src/JExpress.java:208-210 | `json(Stream)` writes a text bracketed by `[` and `]`. An empty stream gives `[]`, and a single element appears between the brackets unchanged. |
| LegacyRouter.JsonStreamCons | src/JExpress.java:208-210 | For two or more elements, the first element's `toString` text and ", " come before what the rest of the stream would give. So the texts are joined with ", " in stream order. |
| LegacyRouter.StreamAgreesWithPrinter | src/JExpress.java:208-210 | On a stream of integers, booleans and doubles, the legacy `json(Stream)` writes what the newer serializer writes. |
| LegacyRouter.StringsUnquoted | src/JExpress.java:208-210 | A string element is written without quotes, where the newer serializer quotes it. |

## Left out

- HTTP and I/O are not modelled: `listen`, `HttpServer`/`HttpExchange`, `send`, `sendFile`, `staticFiles`, `bodyText`, headers other than Content-Type, and status handling beyond the 404 outcome. A request is its method and path; a callback is a number.
- Concurrency and reflection hacks are not modelled: `VirtualThreadExecutor`, the executor, Unsafe and MethodHandle use.
- A handler is one of three shapes: it answers, it calls `next()`, or it is a method filter. Arbitrary Java handler code cannot be expressed.
- Floating point is not modelled. A double is the text `Double.toString` printed or the DOUBLE token matched. `Double.parseDouble` is reduced to rejecting the lone dot, the one matched text it cannot read.
- The text of a `NumberFormatException` is not modelled. The failure carries the token text.
- Record reflection is not modelled. A record is its list of component names and values in declaration order.
- A map's iteration order is not modelled. A map given to the serializer is a list of entries in that order, with each key already turned into its `toString` text.
- `Value.VOther` stands for any object of another class. Its `toString` text in "unknown json object …" is not modelled; the error carries the object itself.
- `String.toUpperCase` and `equalsIgnoreCase` are modelled with ASCII case mapping only. The legacy `toUpperCase()` uses the default locale; the model uses ASCII there too.
- Offsets are counted in Unicode characters. Java's `Matcher.start()` counts UTF-16 code units, so after a character outside the Basic Multilingual Plane a token's location, and the "at L" of an error message, differ from the Java value.
- Regular expressions in general are not modelled. Each token kind's expression is a hand-written recogniser.
- `JExpressLoom.java` has no parser. Its matcher, pipeline and serializer are the same as in `JExpress.java`, so the same members model them.
- The legacy response helpers other than `type(t, charset)`, `json(String)` and `json(Stream)` are I/O.
- The tests' inputs with several members, or with a nested layout, are covered by `JsonRoundTrip.RoundTrip` and the parser lemmas rather than by one example each.
- JsonParser.ParseObject: the contract only says the result is an object and input was consumed. The members read are pinned by `JsonRoundTrip.ObjectRoundTrip` and the parser examples.
- JsonParser.ParseArray: the contract only says the result is an array and input was consumed. The elements are pinned by `JsonRoundTrip.ArrayRoundTrip` and the parser examples.
- JsonParser.ParseElements: the contract pins the first element it adds and keeps the earlier ones. The elements after it are pinned by `JsonRoundTrip.ArrayRoundTrip` and the parser examples.
- JsonParser.ParseValue: the contract only bounds the text consumed. What each token kind becomes is pinned by the round-trip lemmas for words, integers, doubles and strings.
- JsonRoundTrip.RoundTrip: stated only for the objects whose printed text the lexer reads back token by token. These are strings and keys without a quote, integers of magnitude at most 2^31 - 1 (read back without sign), and doubles written as digits, a dot and digits. Other texts, such as an escaped quote, an exponent or `NaN`, are not covered.
