/** The tokenizer of ToyJSONParser (the same in src/main/java/JExpress.java
    and JExpress8.java). The source joins one regular expression per token
    kind into a single alternation and calls `Matcher.find()` repeatedly:
    the search picks the leftmost position where some alternative matches,
    and at that position the first alternative in declaration order wins.
    Characters no alternative matches, a newline for instance, are passed
    over, and blank runs are matched but dropped.

    Here every kind's regular expression is written out as a recogniser on
    the text from the candidate position on. The lexer state is the rest of
    the input together with its absolute offset, which is what a token's
    location is measured from. */
module JsonLexer {
  import opened Wrappers
  import opened Text

  /** The token kinds, in declaration order. */
  datatype Kind =
    | NullLit | TrueLit | FalseLit | DoubleNum | IntegerNum | StringLit
    | LeftCurly | RightCurly | LeftBracket | RightBracket | Colon | Comma | Blank

  /** The kinds in declaration order: the order of the alternatives. */
  const Kinds: seq<Kind> :=
    [NullLit, TrueLit, FalseLit, DoubleNum, IntegerNum, StringLit,
     LeftCurly, RightCurly, LeftBracket, RightBracket, Colon, Comma, Blank]

  /** The position of a kind in declaration order. */
  function Ordinal(k: Kind): (o: nat)
    ensures o < |Kinds| && Kinds[o] == k
  {
    match k
    case NullLit => 0
    case TrueLit => 1
    case FalseLit => 2
    case DoubleNum => 3
    case IntegerNum => 4
    case StringLit => 5
    case LeftCurly => 6
    case RightCurly => 7
    case LeftBracket => 8
    case RightBracket => 9
    case Colon => 10
    case Comma => 11
    case Blank => 12
  }

  /** The kinds are distinct: each one sits at its own ordinal. */
  lemma OrdinalOfIndex(i: nat)
    requires i < |Kinds|
    ensures Ordinal(Kinds[i]) == i
  {
  }

  /** The enum constant name, as error messages print it. */
  function Name(k: Kind): string {
    match k
    case NullLit => "NULL"
    case TrueLit => "TRUE"
    case FalseLit => "FALSE"
    case DoubleNum => "DOUBLE"
    case IntegerNum => "INTEGER"
    case StringLit => "STRING"
    case LeftCurly => "LEFT_CURLY"
    case RightCurly => "RIGHT_CURLY"
    case LeftBracket => "LEFT_BRACKET"
    case RightBracket => "RIGHT_BRACKET"
    case Colon => "COLON"
    case Comma => "COMMA"
    case Blank => "BLANK"
  }

  /** A token: its kind, the text of its capturing group and the absolute
      position where that group starts. */
  datatype Token = Token(kind: Kind, text: string, location: nat)

  /** Where a kind's expression matched, relative to the match start: the
      capturing group spans `groupStart..groupEnd` and the whole match ends
      at `end`. */
  datatype Hit = Hit(groupStart: nat, groupEnd: nat, end: nat)

  /** The match ends within `n` characters and is not empty, and the group
      lies inside it. */
  predicate Fits(h: Hit, n: nat) {
    h.groupStart <= h.groupEnd <= h.end <= n && 0 < h.end
  }

  predicate IsBlank(c: char) {
    c == ' ' || c == '\t'
  }

  /** Length of the longest prefix of decimal digits (`[0-9]*`, greedy). */
  function DigitRun(s: string): (n: nat)
    ensures n <= |s|
  {
    if s != [] && IsDigit(s[0]) then 1 + DigitRun(s[1..]) else 0
  }

  /** Length of the longest prefix of spaces and tabs (`[ \t]*`, greedy). */
  function BlankRun(s: string): (n: nat)
    ensures n <= |s|
  {
    if s != [] && IsBlank(s[0]) then 1 + BlankRun(s[1..]) else 0
  }

  /** The run is made of digits and cannot be extended. */
  lemma {:induction false} DigitRunSpec(s: string)
    ensures forall i :: 0 <= i < DigitRun(s) ==> IsDigit(s[i])
    ensures DigitRun(s) < |s| ==> !IsDigit(s[DigitRun(s)])
  {
    if s != [] && IsDigit(s[0]) {
      DigitRunSpec(s[1..]);
    }
  }

  /** The run is made of blanks and cannot be extended. */
  lemma {:induction false} BlankRunSpec(s: string)
    ensures forall i :: 0 <= i < BlankRun(s) ==> IsBlank(s[i])
    ensures BlankRun(s) < |s| ==> !IsBlank(s[BlankRun(s)])
  {
    if s != [] && IsBlank(s[0]) {
      BlankRunSpec(s[1..]);
    }
  }

  /** A digit string followed by a non-digit is exactly the run. */
  lemma {:induction false} DigitRunOf(d: string, t: string)
    requires AllDigits(d)
    requires t == [] || !IsDigit(t[0])
    ensures DigitRun(d + t) == |d|
  {
    if d != [] {
      assert (d + t)[1..] == d[1..] + t;
      DigitRunOf(d[1..], t);
    } else {
      assert d + t == t;
    }
  }

  /** `s` begins with `w`. */
  predicate StartsWith(s: string, w: string) {
    |w| <= |s| && forall i :: 0 <= i < |w| ==> s[i] == w[i]
  }

  /** A literal word at the start of the text. */
  function Word(s: string, w: string): Option<Hit> {
    if StartsWith(s, w) then Some(Hit(0, |w|, |w|)) else None
  }

  /** A single character at the start of the text. */
  function Single(s: string, c: char): Option<Hit> {
    if |s| > 0 && s[0] == c then Some(Hit(0, 1, 1)) else None
  }

  /** `[0-9]*\.[0-9]*`: digits, a dot, digits. */
  function DoubleAt(s: string): (r: Option<Hit>)
    ensures r.Some? ==> Fits(r.value, |s|)
  {
    var d := DigitRun(s);
    if d < |s| && s[d] == '.' then
      var e := d + 1 + DigitRun(s[d + 1..]);
      Some(Hit(0, e, e))
    else None
  }

  /** `[0-9]+`. */
  function IntegerAt(s: string): (r: Option<Hit>)
    ensures r.Some? ==> Fits(r.value, |s|)
  {
    var d := DigitRun(s);
    if d > 0 then Some(Hit(0, d, d)) else None
  }

  /** `"([^"]*)"`: the group is the text between the quotes. */
  function StringAt(s: string): (r: Option<Hit>)
    ensures r.Some? ==> Fits(r.value, |s|)
  {
    if |s| > 0 && s[0] == '"' && '"' in s[1..] then
      var q := IndexOf(s[1..], '"');
      Some(Hit(1, 1 + q, 2 + q))
    else None
  }

  /** `[ \t]+`. */
  function BlankAt(s: string): (r: Option<Hit>)
    ensures r.Some? ==> Fits(r.value, |s|)
  {
    var b := BlankRun(s);
    if b > 0 then Some(Hit(0, b, b)) else None
  }

  /** Where the expression of kind `k` matches at the start of `s`, if it
      does; no kind matches the empty text. */
  function Recognise(k: Kind, s: string): (r: Option<Hit>)
    ensures r.Some? ==> Fits(r.value, |s|)
  {
    match k
    case NullLit => Word(s, "null")
    case TrueLit => Word(s, "true")
    case FalseLit => Word(s, "false")
    case DoubleNum => DoubleAt(s)
    case IntegerNum => IntegerAt(s)
    case StringLit => StringAt(s)
    case LeftCurly => Single(s, '{')
    case RightCurly => Single(s, '}')
    case LeftBracket => Single(s, '[')
    case RightBracket => Single(s, ']')
    case Colon => Single(s, ':')
    case Comma => Single(s, ',')
    case Blank => BlankAt(s)
  }

  /** A STRING match spans an opening quote, a quote-free text and the
      closing quote; the text is the capturing group. */
  lemma RecogniseString(s: string)
    ensures Recognise(StringLit, s).Some? <==> |s| > 0 && s[0] == '"' && '"' in s[1..]
    ensures Recognise(StringLit, s).Some? ==>
              var h := Recognise(StringLit, s).value;
              && h.groupStart == 1 && h.groupEnd + 1 == h.end
              && s[h.groupEnd] == '"'
              && '"' !in s[h.groupStart..h.groupEnd]
  {
    if |s| > 0 && s[0] == '"' && '"' in s[1..] {
      var q := IndexOf(s[1..], '"');
      assert s[1..1 + q] == s[1..][..q];
    }
  }

  /** The first kind, from position `i` of the declaration order on, whose
      expression matches at the start of `s`: the capturing group
      `findFirst` picks among the alternatives. */
  function FirstKind(s: string, i: nat): (r: Option<(Kind, Hit)>)
    requires i <= |Kinds|
    ensures r.Some? ==> Fits(r.value.1, |s|)
    decreases |Kinds| - i
  {
    if i == |Kinds| then None
    else
      match Recognise(Kinds[i], s)
      case Some(h) => Some((Kinds[i], h))
      case None => FirstKind(s, i + 1)
  }

  function Tagged(k: Kind, r: Option<Hit>): Option<(Kind, Hit)> {
    match r
    case Some(h) => Some((k, h))
    case None => None
  }

  /** The alternation tried at one position, decided by the first
      character: only DOUBLE and INTEGER can both match at one position, and
      DOUBLE comes first. `MatchAtIsFirstKind` shows this is the first kind
      in declaration order whose expression matches. */
  function MatchAt(s: string): (r: Option<(Kind, Hit)>)
    ensures r.Some? ==> Fits(r.value.1, |s|)
  {
    if s == [] then None
    else
      var c := s[0];
      if c == 'n' then Tagged(NullLit, Word(s, "null"))
      else if c == 't' then Tagged(TrueLit, Word(s, "true"))
      else if c == 'f' then Tagged(FalseLit, Word(s, "false"))
      else if IsDigit(c) || c == '.' then
        if DoubleAt(s).Some? then Tagged(DoubleNum, DoubleAt(s)) else Tagged(IntegerNum, IntegerAt(s))
      else if c == '"' then Tagged(StringLit, StringAt(s))
      else if c == '{' then Some((LeftCurly, Hit(0, 1, 1)))
      else if c == '}' then Some((RightCurly, Hit(0, 1, 1)))
      else if c == '[' then Some((LeftBracket, Hit(0, 1, 1)))
      else if c == ']' then Some((RightBracket, Hit(0, 1, 1)))
      else if c == ':' then Some((Colon, Hit(0, 1, 1)))
      else if c == ',' then Some((Comma, Hit(0, 1, 1)))
      else if IsBlank(c) then Tagged(Blank, BlankAt(s))
      else None
  }

  /** The character dispatch agrees with trying the alternatives in
      declaration order. */
  lemma MatchAtIsFirstKind(s: string)
    ensures MatchAt(s) == FirstKind(s, 0)
  {
    if s != [] {
      var c := s[0];
      if c == 'n' || c == 't' || c == 'f' {
        WordFirstKind(s);
      } else if IsDigit(c) || c == '.' || c == '"' {
        NumberOrStringFirstKind(s);
      } else {
        OtherFirstKind(s);
      }
    }
  }

  lemma WordFirstKind(s: string)
    requires s != [] && (s[0] == 'n' || s[0] == 't' || s[0] == 'f')
    ensures MatchAt(s) == FirstKind(s, 0)
  {
    NoNumberAt(s);
    if s[0] == 'n' {
      LetterFirstKind(s, 'n');
    } else if s[0] == 't' {
      LetterFirstKind(s, 't');
    } else {
      LetterFirstKind(s, 'f');
    }
  }

  lemma LetterFirstKind(s: string, c: char)
    requires s != [] && s[0] == c && (c == 'n' || c == 't' || c == 'f')
    requires DoubleAt(s).None? && IntegerAt(s).None?
    ensures MatchAt(s) == FirstKind(s, 0)
  {
  }

  /** Neither number matches text that starts with neither a digit nor a dot. */
  lemma NoNumberAt(s: string)
    requires s != [] && !IsDigit(s[0]) && s[0] != '.'
    ensures DoubleAt(s).None? && IntegerAt(s).None?
  {
    assert DigitRun(s) == 0;
  }

  lemma NumberOrStringFirstKind(s: string)
    requires s != [] && (IsDigit(s[0]) || s[0] == '.' || s[0] == '"')
    ensures MatchAt(s) == FirstKind(s, 0)
  {
    if s[0] == '"' {
      NoNumberAt(s);
    }
  }

  lemma OtherFirstKind(s: string)
    requires s != [] && !(s[0] == 'n' || s[0] == 't' || s[0] == 'f')
    requires !(IsDigit(s[0]) || s[0] == '.' || s[0] == '"')
    ensures MatchAt(s) == FirstKind(s, 0)
  {
  }

  lemma FirstKindSpec(s: string, i: nat)
    requires i <= |Kinds|
    ensures FirstKind(s, i).None? <==> forall j :: i <= j < |Kinds| ==> Recognise(Kinds[j], s).None?
    ensures FirstKind(s, i).Some? ==>
              var (k, h) := FirstKind(s, i).value;
              && Recognise(k, s) == Some(h)
              && i <= Ordinal(k) && forall j :: i <= j < Ordinal(k) ==> Recognise(Kinds[j], s).None?
  {
    FirstKindNone(s, i);
    FirstKindSome(s, i);
  }

  /** No alternative from `i` on matches exactly when none is found. */
  lemma {:induction false} FirstKindNone(s: string, i: nat)
    requires i <= |Kinds|
    ensures FirstKind(s, i).None? <==> forall j :: i <= j < |Kinds| ==> Recognise(Kinds[j], s).None?
    decreases |Kinds| - i
  {
    if i < |Kinds| {
      FirstKindNone(s, i + 1);
    }
  }

  /** The alternative found matches, and none between `i` and it does. */
  lemma {:induction false} FirstKindSome(s: string, i: nat)
    requires i <= |Kinds|
    ensures FirstKind(s, i).Some? ==>
              var (k, h) := FirstKind(s, i).value;
              && Recognise(k, s) == Some(h)
              && i <= Ordinal(k) && forall j :: i <= j < Ordinal(k) ==> Recognise(Kinds[j], s).None?
    decreases |Kinds| - i
  {
    if i < |Kinds| {
      FirstKindSome(s, i + 1);
      if Recognise(Kinds[i], s).Some? {
        OrdinalOfIndex(i);
      } else if FirstKind(s, i + 1).Some? {
        var k := FirstKind(s, i + 1).value.0;
        forall j | i <= j < Ordinal(k)
          ensures Recognise(Kinds[j], s).None?
        {
        }
      }
    }
  }

  /** At one position, nothing matches exactly when no kind's expression
      does; otherwise the winner is a kind that matches and every kind
      declared before it does not. */
  lemma MatchAtSpec(s: string)
    ensures MatchAt(s).None? <==> forall k :: Recognise(k, s).None?
    ensures MatchAt(s).Some? ==>
              var (k, h) := MatchAt(s).value;
              && Recognise(k, s) == Some(h)
              && forall k' :: Ordinal(k') < Ordinal(k) ==> Recognise(k', s).None?
  {
    MatchAtIsFirstKind(s);
    FirstKindSpec(s, 0);
    if MatchAt(s).None? {
      forall k ensures Recognise(k, s).None? {
        assert Kinds[Ordinal(k)] == k;
      }
    } else {
      var k := MatchAt(s).value.0;
      forall k' | Ordinal(k') < Ordinal(k) ensures Recognise(k', s).None? {
        assert Kinds[Ordinal(k')] == k';
      }
    }
  }

  /** The converse of `MatchAtSpec`: a kind that matches while every kind
      declared before it fails is the one the alternation picks. */
  lemma FirstRecognised(s: string, k: Kind, h: Hit)
    requires Recognise(k, s) == Some(h)
    requires forall k' :: Ordinal(k') < Ordinal(k) ==> Recognise(k', s).None?
    ensures MatchAt(s) == Some((k, h))
  {
    MatchAtSpec(s);
    var (k2, h2) := MatchAt(s).value;
    assert Kinds[Ordinal(k)] == k && Kinds[Ordinal(k2)] == k2;
  }

  /** A position the lexer passes over: nothing matches there, or a blank
      run does. */
  predicate Skipped(s: string) {
    MatchAt(s).None? || MatchAt(s).value.0 == Blank
  }

  /** The result of `Lexer.next()`: the token, the text after its match with
      that text's absolute offset, and the absolute offset where the match
      (the opening quote, for a STRING) starts. */
  datatype Lexed = Lexed(token: Token, rest: string, base: nat, at: nat)

  /** `Lexer.next()` on the text `s` that starts at absolute offset `base`.
      `Matcher.find()` looks for the leftmost position where the alternation
      matches, and the loop around it drops blank runs; scanning one position
      at a time does both: a position where nothing matches is passed over, a
      blank run is stepped across, and the first other match is the token.
      `None` stands for the "no token recognized" failure. */
  function NextToken(s: string, base: nat): (r: Option<Lexed>)
    ensures r.Some? ==> |r.value.rest| < |s|
    decreases |s|
  {
    if s == [] then None
    else
      match MatchAt(s)
      case None => NextToken(s[1..], base + 1)
      case Some((k, h)) =>
        if k == Blank then NextToken(s[h.end..], base + h.end)
        else Some(Lexed(Token(k, s[h.groupStart..h.groupEnd], base + h.groupStart), s[h.end..], base + h.end, base))
  }

  /** A blank character starts a blank run and nothing else. */
  lemma BlankStartSkipped(s: string)
    requires s != [] && IsBlank(s[0])
    ensures MatchAt(s).Some? && MatchAt(s).value.0 == Blank
  {
    var b := BlankRun(s);
    FirstRecognised(s, Blank, Hit(0, b, b));
  }

  /** Every position inside a blank run is passed over. */
  lemma BlankRunSkipped(s: string, h: Hit)
    requires MatchAt(s) == Some((Blank, h))
    ensures h.end <= |s| && SkippedBefore(s, h.end)
  {
    MatchAtSpec(s);
    BlankRunSpec(s);
    forall q | 0 <= q < h.end
      ensures SkippedAt(s, q)
    {
      if q == 0 {
        assert s[0..] == s;
      } else {
        assert s[q..][0] == s[q];
        BlankStartSkipped(s[q..]);
      }
    }
  }

  /** The alternation, tried at the start of `t`, yields the token and
      continuation that `l` records. */
  predicate TokenAt(t: string, l: Lexed) {
    && MatchAt(t).Some?
    && var (k, h) := MatchAt(t).value;
       && k != Blank
       && l.token.kind == k
       && l.token.text == t[h.groupStart..h.groupEnd]
       && l.token.location == l.at + h.groupStart
       && l.rest == t[h.end..]
       && l.base == l.at + h.end
  }

  /** Position `q` of `s` is passed over. */
  predicate SkippedAt(s: string, q: nat)
    requires q <= |s|
  {
    Skipped(s[q..])
  }

  /** Positions `0..n` of `s` are all passed over. */
  predicate SkippedBefore(s: string, n: nat)
    requires n <= |s|
  {
    forall q :: 0 <= q < n ==> SkippedAt(s, q)
  }

  lemma SkippedConcat(s: string, n: nat, m: nat)
    requires n + m <= |s|
    requires SkippedBefore(s, n)
    requires SkippedBefore(s[n..], m)
    ensures SkippedBefore(s, n + m)
  {
    forall q | n <= q < n + m
      ensures SkippedAt(s, q)
    {
      assert SkippedAt(s[n..], q - n);
      assert s[n..][q - n..] == s[q..];
    }
  }

  lemma SkippedSuffix(s: string, n: nat)
    requires n <= |s|
    ensures SkippedBefore(s, |s|) ==> SkippedBefore(s[n..], |s| - n)
  {
    if SkippedBefore(s, |s|) {
      forall j | 0 <= j < |s| - n
        ensures SkippedAt(s[n..], j)
      {
        assert SkippedAt(s, n + j);
        assert s[n..][j..] == s[n + j..];
      }
    }
  }

  /** What `NextTokenFound` states about the text after `n` passed-over
      positions carries over to the whole text. */
  lemma FoundAfterSkipped(s: string, n: nat, base: nat, l: Lexed)
    requires n <= |s| && SkippedBefore(s, n)
    requires FoundFirst(s[n..], base + n, l)
    ensures FoundFirst(s, base, l)
  {
    var q := l.at - (base + n);
    assert s[n..][q..] == s[l.at - base..];
    SkippedConcat(s, n, q);
  }

  /** `Lexer.next()` returns the match at the first position that is not
      passed over, which is never a blank run. */
  predicate FoundFirst(s: string, base: nat, l: Lexed) {
    && base <= l.at < base + |s|
    && SkippedBefore(s, l.at - base)
    && TokenAt(s[l.at - base..], l)
  }

  lemma {:induction false} NextTokenFound(s: string, base: nat)
    requires NextToken(s, base).Some?
    ensures FoundFirst(s, base, NextToken(s, base).value)
    decreases |s|, 1
  {
    if Skipped(s) {
      FoundAfterSkip(s, base);
    } else {
      LeadingToken(s, base);
    }
  }

  /** `NextTokenFound` across a passed-over start: the token is the one
      found after it. */
  lemma {:induction false} FoundAfterSkip(s: string, base: nat)
    requires s != [] && Skipped(s) && NextToken(s, base).Some?
    ensures FoundFirst(s, base, NextToken(s, base).value)
    decreases |s|, 0
  {
    var n := SkipLength(s);
    var rest := s[n..];
    LeadingSkip(s, base);
    var l := NextToken(s, base).value;
    assert NextToken(rest, base + n) == Some(l);
    NextTokenFound(rest, base + n);
    FoundAfterSkipped(s, n, base, l);
  }

  /** `Lexer.next()` fails exactly when every remaining position is passed
      over. */
  lemma {:induction false} NextTokenNone(s: string, base: nat)
    ensures NextToken(s, base).None? <==> SkippedBefore(s, |s|)
    decreases |s|, 1
  {
    if s != [] {
      if Skipped(s) {
        NoneAfterSkip(s, base);
      } else {
        LeadingToken(s, base);
        assert !SkippedAt(s, 0);
      }
    }
  }

  /** `NextTokenNone` across a passed-over start: the lexer goes on after
      it, and everything is passed over when everything after it is. */
  lemma {:induction false} NoneAfterSkip(s: string, base: nat)
    requires s != [] && Skipped(s)
    ensures NextToken(s, base).None? <==> SkippedBefore(s, |s|)
    decreases |s|, 0
  {
    var n := SkipLength(s);
    var rest := s[n..];
    NextTokenNone(rest, base + n);
    LeadingSkip(s, base);
    AllSkippedAfter(s, n, NextToken(s, base).None?);
  }

  /** With the first `n` positions passed over, all of `s` is passed over
      exactly when all of the rest is. */
  lemma AllSkippedAfter(s: string, n: nat, restSkipped: bool)
    requires n <= |s| && SkippedBefore(s, n)
    requires restSkipped <==> SkippedBefore(s[n..], |s[n..]|)
    ensures restSkipped <==> SkippedBefore(s, |s|)
  {
    if restSkipped {
      SkippedConcat(s, n, |s| - n);
    }
    SkippedSuffix(s, n);
  }

  /** How far the lexer moves past a start it passes over: one position
      when nothing matches, the whole run when a blank run does. */
  function SkipLength(s: string): (n: nat)
    requires s != [] && Skipped(s)
    ensures 0 < n <= |s|
  {
    if MatchAt(s).None? then 1 else MatchAt(s).value.1.end
  }

  /** Passing over the start of the text: every position stepped across is
      passed over, and the lexer goes on from the first one that is not. */
  lemma LeadingSkip(s: string, base: nat)
    requires s != [] && Skipped(s)
    ensures 0 < SkipLength(s) <= |s| && SkippedBefore(s, SkipLength(s))
    ensures NextToken(s, base) == NextToken(s[SkipLength(s)..], base + SkipLength(s))
  {
    if MatchAt(s).None? {
      UnmatchedSkip(s, base);
    } else {
      BlankSkip(s, base, MatchAt(s).value.1);
    }
  }

  /** `LeadingSkip` where nothing matches: one position is passed over. */
  lemma UnmatchedSkip(s: string, base: nat)
    requires s != [] && MatchAt(s).None?
    ensures SkippedBefore(s, 1)
    ensures NextToken(s, base) == NextToken(s[1..], base + 1)
  {
    assert s[0..] == s;
    assert SkippedAt(s, 0);
  }

  /** `LeadingSkip` where a blank run matches: the whole run is passed over. */
  lemma BlankSkip(s: string, base: nat, h: Hit)
    requires s != [] && MatchAt(s) == Some((Blank, h))
    ensures h.end <= |s| && SkippedBefore(s, h.end)
    ensures NextToken(s, base) == NextToken(s[h.end..], base + h.end)
  {
    BlankRunSkipped(s, h);
  }

  /** A token match at the very start is what `next()` returns. */
  lemma LeadingToken(s: string, base: nat)
    requires s != [] && !Skipped(s)
    ensures NextToken(s, base).Some? && FoundFirst(s, base, NextToken(s, base).value)
  {
    assert s[0..] == s;
  }

  /** When the alternation matches a token at the very start, `next()`
      returns it and continues right after it. */
  lemma NextTokenAtStart(s: string, base: nat, k: Kind, h: Hit)
    requires MatchAt(s) == Some((k, h)) && k != Blank
    ensures NextToken(s, base).Some?
    ensures TokenAt(s, NextToken(s, base).value) && NextToken(s, base).value.at == base
  {
    MatchAtSpec(s);
  }

  /** A newline starts no token: the lexer passes over it. */
  lemma NewlineSkipped(s: string)
    requires s != [] && s[0] == '\n'
    ensures MatchAt(s).None?
  {
    MatchAtSpec(s);
    forall k ensures Recognise(k, s).None? {
      if k == StringLit {
        RecogniseString(s);
      }
    }
  }

  /** A minus sign starts no token either: the lexer knows only unsigned
      numbers, so the sign `Integer.toString` prints is passed over. */
  lemma MinusSkipped(t: string, base: nat)
    ensures NextToken("-" + t, base) == NextToken(t, base + 1)
  {
    var s := "-" + t;
    assert s[1..] == t;
    MatchAtSpec(s);
    forall k ensures Recognise(k, s).None? {
      if k == StringLit {
        RecogniseString(s);
      }
    }
  }

  /** A digit run followed by a dot lexes as DOUBLE even though INTEGER
      matches there too: DOUBLE is declared first. */
  lemma DoubleBeforeInteger(d1: string, d2: string, t: string)
    requires AllDigits(d1) && AllDigits(d2)
    requires t == [] || !IsDigit(t[0])
    ensures var s := d1 + "." + d2 + t;
            var e := |d1| + 1 + |d2|;
            && MatchAt(s) == Some((DoubleNum, Hit(0, e, e)))
            && (|d1| > 0 ==> Recognise(IntegerNum, s).Some?)
  {
    var s := d1 + "." + d2 + t;
    var e := |d1| + 1 + |d2|;
    DigitRunOf(d1, "." + d2 + t);
    assert s == d1 + ("." + d2 + t);
    assert s[|d1| + 1..] == d2 + t;
    DigitRunOf(d2, t);
    assert Recognise(DoubleNum, s) == Some(Hit(0, e, e));
    FirstRecognised(s, DoubleNum, Hit(0, e, e));
  }

  // ---------------------------------------------------------------------
  // How the lexer reads the forms the serializer prints. Each lemma fixes
  // the token that `next()` returns at the start of a printed piece and
  // the text it leaves, whatever follows the piece.

  predicate IsPunctuation(k: Kind) {
    k == LeftCurly || k == RightCurly || k == LeftBracket || k == RightBracket || k == Colon || k == Comma
  }

  /** The one character a punctuation kind matches. */
  function Symbol(k: Kind): char
    requires IsPunctuation(k)
  {
    match k
    case LeftCurly => '{'
    case RightCurly => '}'
    case LeftBracket => '['
    case RightBracket => ']'
    case Colon => ':'
    case Comma => ','
  }

  /** The literal word of NULL, TRUE and FALSE. */
  function WordOf(k: Kind): string
    requires k == NullLit || k == TrueLit || k == FalseLit
  {
    match k
    case NullLit => "null"
    case TrueLit => "true"
    case FalseLit => "false"
  }

  /** `next()` on text that starts with a token of kind `k` whose group is
      `text`, `skip` characters into the match, the match ending at `end`;
      the match starts at the very beginning. */
  predicate Reads(s: string, base: nat, k: Kind, text: string, skip: nat, end: nat)
    requires end <= |s|
  {
    && NextToken(s, base).Some?
    && var l := NextToken(s, base).value;
       && l.token.kind == k && l.token.text == text && l.token.location == base + skip
       && l.rest == s[end..] && l.base == base + end && l.at == base
  }

  lemma ReadsPunctuation(k: Kind, t: string, base: nat)
    requires IsPunctuation(k)
    ensures Reads([Symbol(k)] + t, base, k, [Symbol(k)], 0, 1)
  {
    var s := [Symbol(k)] + t;
    NextTokenAtStart(s, base, k, Hit(0, 1, 1));
    assert s[0..1] == [Symbol(k)];
  }

  lemma ReadsWord(k: Kind, t: string, base: nat)
    requires k == NullLit || k == TrueLit || k == FalseLit
    ensures Reads(WordOf(k) + t, base, k, WordOf(k), 0, |WordOf(k)|)
  {
    var w := WordOf(k);
    var s := w + t;
    assert StartsWith(s, w);
    NextTokenAtStart(s, base, k, Hit(0, |w|, |w|));
    assert s[0..|w|] == w;
  }

  /** Digits not followed by a digit or a dot are one INTEGER. */
  lemma ReadsInteger(d: string, t: string, base: nat)
    requires |d| > 0 && AllDigits(d)
    requires t == [] || (!IsDigit(t[0]) && t[0] != '.')
    ensures Reads(d + t, base, IntegerNum, d, 0, |d|)
  {
    var s := d + t;
    DigitRunOf(d, t);
    assert |d| < |s| ==> s[|d|] == t[0];
    assert DoubleAt(s).None?;
    NextTokenAtStart(s, base, IntegerNum, Hit(0, |d|, |d|));
    assert s[0..|d|] == d;
  }

  /** Digits, a dot and digits not followed by a digit are one DOUBLE. */
  lemma ReadsDouble(d1: string, d2: string, t: string, base: nat)
    requires AllDigits(d1) && AllDigits(d2)
    requires t == [] || !IsDigit(t[0])
    ensures Reads(d1 + "." + d2 + t, base, DoubleNum, d1 + "." + d2, 0, |d1| + 1 + |d2|)
  {
    var s := d1 + "." + d2 + t;
    var e := |d1| + 1 + |d2|;
    DoubleBeforeInteger(d1, d2, t);
    NextTokenAtStart(s, base, DoubleNum, Hit(0, e, e));
    assert s[0..e] == d1 + "." + d2;
  }

  /** A quoted text without quotes is one STRING whose group is the text;
      its location is the position after the opening quote. */
  lemma ReadsString(x: string, t: string, base: nat)
    requires '"' !in x
    ensures Reads("\"" + x + "\"" + t, base, StringLit, x, 1, |x| + 2)
  {
    var s := "\"" + x + "\"" + t;
    var inner := s[1..];
    assert inner == x + "\"" + t;
    assert inner[..|x|] == x;
    IndexOfFirst(inner, '"', |x|);
    assert StringAt(s) == Some(Hit(1, 1 + |x|, 2 + |x|));
    NextTokenAtStart(s, base, StringLit, Hit(1, 1 + |x|, 2 + |x|));
    assert s[1..1 + |x|] == x;
  }

  /** One space before a non-blank character is stepped over. */
  lemma ReadsAfterSpace(t: string, base: nat)
    requires t == [] || !IsBlank(t[0])
    ensures NextToken(" " + t, base) == NextToken(t, base + 1)
  {
    var s := " " + t;
    assert s[1..] == t;
    assert BlankRun(s) == 1;
  }
}
