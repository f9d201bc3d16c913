/** The few java.lang.String and java.lang.Integer operations the framework
    relies on, written out so that their corner cases are explicit. */
module Text {

  predicate IsDigit(c: char) {
    '0' <= c <= '9'
  }

  predicate AllDigits(s: string) {
    forall i :: 0 <= i < |s| ==> IsDigit(s[i])
  }

  /** `items` with `sep` between consecutive elements (Collectors.joining). */
  function Join(items: seq<string>, sep: string): string {
    if |items| == 0 then ""
    else if |items| == 1 then items[0]
    else items[0] + sep + Join(items[1..], sep)
  }

  /** Joining a non-empty list: its head, then the separator and the join
      of the rest unless the rest is empty. */
  lemma JoinCons(x: string, xs: seq<string>, sep: string)
    ensures Join([x] + xs, sep) == if xs == [] then x else x + sep + Join(xs, sep)
  {
    assert ([x] + xs)[1..] == xs;
  }

  /** Index of the first occurrence of `c` in `s`. */
  function IndexOf(s: string, c: char): (i: nat)
    requires c in s
    ensures i < |s| && s[i] == c
    ensures c !in s[..i]
  {
    if s[0] == c then 0
    else
      assert c in s[1..] by {
        var k :| 0 <= k < |s| && s[k] == c;
        assert s[1..][k - 1] == c;
      }
      var j := IndexOf(s[1..], c);
      assert s[..j + 1] == [s[0]] + s[1..][..j];
      1 + j
  }

  /** The first occurrence is the only position holding `c` with no `c`
      before it. */
  lemma IndexOfFirst(s: string, c: char, i: nat)
    requires i < |s| && s[i] == c && c !in s[..i]
    ensures c in s && IndexOf(s, c) == i
  {
    var j := IndexOf(s, c);
    assert forall k :: 0 <= k < i ==> s[..i][k] == s[k];
    assert forall k :: 0 <= k < j ==> s[..j][k] == s[k];
  }

  /** Every piece between two occurrences of `sep`, empty pieces included:
      the split that Java's String.split performs before it trims. */
  function FullSplit(s: string, sep: char): (pieces: seq<string>)
    ensures |pieces| >= 1
    ensures forall k :: 0 <= k < |pieces| ==> sep !in pieces[k]
    decreases |s|
  {
    if sep !in s then [s]
    else
      var i := IndexOf(s, sep);
      [s[..i]] + FullSplit(s[i + 1..], sep)
  }

  /** `xs` without its trailing empty strings. */
  function DropTrailingEmpty(xs: seq<string>): (ys: seq<string>)
    ensures |ys| <= |xs| && ys == xs[..|ys|]
    ensures |ys| > 0 ==> ys[|ys| - 1] != ""
    ensures forall k :: |ys| <= k < |xs| ==> xs[k] == ""
  {
    if |xs| > 0 && xs[|xs| - 1] == "" then DropTrailingEmpty(xs[..|xs| - 1]) else xs
  }

  /** `s.split(sep)` with Java's limit-0 semantics: a string without `sep`
      is returned whole (so "" gives [""]); otherwise the pieces between
      separators are kept, a leading empty piece included, and the trailing
      empty pieces are removed (so "/" gives []). */
  function JavaSplit(s: string, sep: char): seq<string> {
    if sep !in s then [s] else DropTrailingEmpty(FullSplit(s, sep))
  }

  /** The parts never contain the separator; without a separator the input
      comes back whole; otherwise the parts are the full split up to its
      trailing empty pieces, and the last part kept is not empty. */
  lemma JavaSplitSpec(s: string, sep: char)
    ensures forall k :: 0 <= k < |JavaSplit(s, sep)| ==> sep !in JavaSplit(s, sep)[k]
    ensures sep !in s ==> JavaSplit(s, sep) == [s]
    ensures sep in s ==>
              var full := FullSplit(s, sep);
              var parts := JavaSplit(s, sep);
              && |parts| <= |full|
              && parts == full[..|parts|]
              && (forall k :: |parts| <= k < |full| ==> full[k] == "")
              && (|parts| > 0 ==> parts[|parts| - 1] != "")
  {
  }

  /** Joining the full split with the separator gives back the input. */
  lemma {:induction false} FullSplitJoin(s: string, sep: char)
    ensures Join(FullSplit(s, sep), [sep]) == s
    decreases |s|
  {
    if sep in s {
      var i := IndexOf(s, sep);
      var rest := FullSplit(s[i + 1..], sep);
      FullSplitJoin(s[i + 1..], sep);
      JoinAfter(s[..i], rest, [sep], s[i + 1..]);
      assert s == s[..i] + [sep] + s[i + 1..];
    }
  }

  lemma JoinAfter(head: string, rest: seq<string>, sep: string, tail: string)
    requires rest != [] && Join(rest, sep) == tail
    ensures Join([head] + rest, sep) == head + sep + tail
  {
    JoinCons(head, rest, sep);
  }

  /** ASCII upper-casing of one character (Character.toUpperCase on ASCII). */
  function UpperChar(c: char): char {
    if 'a' <= c <= 'z' then (c as int - 32) as char else c
  }

  /** `s.toUpperCase(Locale.ROOT)` restricted to ASCII case mapping. */
  function Upper(s: string): (u: string)
    ensures |u| == |s|
    ensures forall i :: 0 <= i < |s| ==> u[i] == UpperChar(s[i])
  {
    if s == [] then [] else [UpperChar(s[0])] + Upper(s[1..])
  }

  /** `a.equalsIgnoreCase(b)` for ASCII text: same length, and each pair of
      characters is equal once upper-cased. */
  predicate EqualsIgnoreCase(a: string, b: string) {
    |a| == |b| && forall i :: 0 <= i < |a| ==> UpperChar(a[i]) == UpperChar(b[i])
  }

  lemma UpperCharIdempotent(c: char)
    ensures UpperChar(UpperChar(c)) == UpperChar(c)
  {
  }

  /** Upper-casing one side does not change a case-insensitive comparison. */
  lemma EqualsIgnoreCaseUpper(a: string, b: string)
    ensures EqualsIgnoreCase(Upper(a), b) <==> EqualsIgnoreCase(a, b)
  {
    var u := Upper(a);
    forall i | 0 <= i < |a|
      ensures UpperChar(u[i]) == UpperChar(a[i])
    {
      UpperCharIdempotent(a[i]);
    }
  }

  function DigitChar(d: nat): char
    requires d < 10
  {
    ('0' as int + d) as char
  }

  function DigitValue(c: char): nat
    requires IsDigit(c)
  {
    c as int - '0' as int
  }

  /** Decimal text of a natural number, without leading zeros. */
  function NatToString(n: nat): (s: string)
    ensures |s| >= 1 && AllDigits(s)
    ensures |s| > 1 ==> s[0] != '0'
  {
    if n < 10 then [DigitChar(n)] else NatToString(n / 10) + [DigitChar(n % 10)]
  }

  /** `Integer.toString(i)`: a minus sign for negatives, then the digits. */
  function IntToString(i: int): string {
    if i < 0 then "-" + NatToString(-i) else NatToString(i)
  }

  /** The number a string of decimal digits denotes (leading zeros allowed). */
  function DigitsValue(s: string): nat
    requires AllDigits(s)
  {
    if s == [] then 0 else 10 * DigitsValue(s[..|s| - 1]) + DigitValue(s[|s| - 1])
  }

  /** Reading back the decimal text of `n` gives `n`. */
  lemma {:induction false} DigitsValueOfNatToString(n: nat)
    ensures DigitsValue(NatToString(n)) == n
  {
    if n >= 10 {
      var s := NatToString(n);
      var prefix := NatToString(n / 10);
      assert s[..|s| - 1] == prefix;
      DigitsValueOfNatToString(n / 10);
    }
  }
}
