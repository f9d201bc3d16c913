/** The route pattern matcher, `matcher(String)`, identical in the three
    framework variants under src/main/java. A pattern is compiled once into
    segments; a request matches when it has at least as many path
    components as the pattern and every literal segment equals the
    component at its index. Parameter segments `:name` then bind the
    component at their index. */
module RouteMatcher {
  import opened Wrappers
  import opened Text

  /** One `/`-separated piece of a route pattern. */
  datatype Segment = Literal(text: string) | Param(name: string)

  /** The pattern text a segment was compiled from. */
  function SegmentText(seg: Segment): string {
    match seg
    case Literal(t) => t
    case Param(n) => ":" + n
  }

  /** A piece that starts with ':' names a parameter (the rest of the
      piece, possibly empty); every other piece, the empty one included,
      is a literal. */
  function Classify(part: string): (seg: Segment)
    ensures SegmentText(seg) == part
    ensures seg.Param? <==> |part| > 0 && part[0] == ':'
  {
    if |part| > 0 && part[0] == ':' then
      assert part == ":" + part[1..];
      Param(part[1..])
    else Literal(part)
  }

  /** The path components of a request or pattern: Java's `split("/")`. */
  function Components(path: string): seq<string> {
    JavaSplit(path, '/')
  }

  /** Compiles a pattern into one segment per component of the pattern. */
  function Compile(pattern: string): seq<Segment> {
    var parts := Components(pattern);
    seq(|parts|, i requires 0 <= i < |parts| => Classify(parts[i]))
  }

  /** Each segment renders back to its pattern component, and it is a
      parameter exactly when the component starts with ':'. */
  lemma CompileSpec(pattern: string)
    ensures |Compile(pattern)| == |Components(pattern)|
    ensures forall i :: 0 <= i < |Compile(pattern)| ==> SegmentText(Compile(pattern)[i]) == Components(pattern)[i]
    ensures forall i :: 0 <= i < |Compile(pattern)| ==>
              (Compile(pattern)[i].Param? <==> |Components(pattern)[i]| > 0 && Components(pattern)[i][0] == ':')
  {
  }

  /** The conjunction of the literal checks from index `i` on, one check per
      literal segment, as the source chains them with `Predicate.and`. */
  predicate LiteralChecks(segs: seq<Segment>, comps: seq<string>, i: nat)
    requires i <= |segs| <= |comps|
    decreases |segs| - i
  {
    i == |segs| || ((segs[i].Literal? ==> segs[i].text == comps[i]) && LiteralChecks(segs, comps, i + 1))
  }

  lemma {:induction false} LiteralChecksMeaning(segs: seq<Segment>, comps: seq<string>, i: nat)
    requires i <= |segs| <= |comps|
    ensures LiteralChecks(segs, comps, i) <==>
            forall j :: i <= j < |segs| && segs[j].Literal? ==> segs[j].text == comps[j]
    decreases |segs| - i
  {
    if i < |segs| {
      LiteralChecksMeaning(segs, comps, i + 1);
    }
  }

  /** The parameter names among the first `n` segments. */
  function ParamNames(segs: seq<Segment>, n: nat): set<string>
    requires n <= |segs|
  {
    set i | 0 <= i < n && segs[i].Param? :: segs[i].name
  }

  /** Segment `i` is the last parameter segment before `n` that uses its name. */
  predicate LastBinding(segs: seq<Segment>, i: nat, n: nat)
    requires i < n <= |segs|
  {
    segs[i].Param? &&
    forall j :: i < j < n ==> !(segs[j].Param? && segs[j].name == segs[i].name)
  }

  /** The map the chained consumers fill for the first `n` segments: each
      parameter segment puts its component under its name, in index order. */
  function Bind(segs: seq<Segment>, comps: seq<string>, n: nat): map<string, string>
    requires n <= |segs| <= |comps|
  {
    if n == 0 then map[]
    else
      var m := Bind(segs, comps, n - 1);
      if segs[n - 1].Param? then m[segs[n - 1].name := comps[n - 1]] else m
  }

  /** The bound names are exactly the parameter names, and a repeated name
      keeps the component of its later segment. */
  lemma {:induction false} BindSpec(segs: seq<Segment>, comps: seq<string>, n: nat)
    requires n <= |segs| <= |comps|
    ensures Bind(segs, comps, n).Keys == ParamNames(segs, n)
    ensures forall i :: 0 <= i < n && LastBinding(segs, i, n) ==> Bind(segs, comps, n)[segs[i].name] == comps[i]
  {
    if n > 0 {
      BindSpec(segs, comps, n - 1);
      ParamNamesStep(segs, n);
      if segs[n - 1].Param? {
        assert forall i :: 0 <= i < n - 1 && LastBinding(segs, i, n) ==>
                 LastBinding(segs, i, n - 1) && segs[i].name != segs[n - 1].name;
      } else {
        assert forall i :: 0 <= i < n - 1 && LastBinding(segs, i, n) ==> LastBinding(segs, i, n - 1);
      }
    }
  }

  lemma ParamNamesStep(segs: seq<Segment>, n: nat)
    requires 0 < n <= |segs|
    ensures ParamNames(segs, n) ==
            ParamNames(segs, n - 1) + (if segs[n - 1].Param? then {segs[n - 1].name} else {})
  {
  }

  /** The compiled matcher applied to request components: the length guard,
      then the literal checks, then the bindings. */
  function Match(segs: seq<Segment>, comps: seq<string>): Option<map<string, string>> {
    if |comps| >= |segs| && LiteralChecks(segs, comps, 0) then Some(Bind(segs, comps, |segs|)) else None
  }

  /** A request matches exactly when it has at least as many components as
      the pattern and every literal segment equals the component at its
      index; the result then binds exactly the parameter names, each to the
      component at the last index that names it. */
  lemma MatchSpec(segs: seq<Segment>, comps: seq<string>)
    ensures Match(segs, comps).Some? <==>
            |comps| >= |segs| && forall j :: 0 <= j < |segs| && segs[j].Literal? ==> segs[j].text == comps[j]
    ensures Match(segs, comps).Some? ==> Match(segs, comps).value.Keys == ParamNames(segs, |segs|)
    ensures Match(segs, comps).Some? ==>
              forall i :: 0 <= i < |segs| && LastBinding(segs, i, |segs|) ==>
                Match(segs, comps).value[segs[i].name] == comps[i]
  {
    if |comps| >= |segs| {
      LiteralChecksMeaning(segs, comps, 0);
      BindSpec(segs, comps, |segs|);
    }
  }

  /** Matching a request path against a pattern, both split on '/'. */
  function MatchPath(pattern: string, path: string): Option<map<string, string>> {
    Match(Compile(pattern), Components(path))
  }

  /** `"/"` splits into no component at all, so the pattern `use(handler)`
      registers with matches every request, binding nothing. */
  lemma RootPatternMatchesEverything(comps: seq<string>)
    ensures Match(Compile("/"), comps) == Some(map[])
  {
    assert '/' in "/";
    assert FullSplit("/", '/') == ["", ""] by {
      assert IndexOf("/", '/') == 0;
      assert "/"[1..] == "";
    }
    assert Compile("/") == [];
  }

  /** Extra trailing request components never change the outcome. */
  lemma {:induction false} ExtraComponentsIgnored(segs: seq<Segment>, comps: seq<string>, extra: seq<string>)
    requires |comps| >= |segs|
    ensures Match(segs, comps + extra) == Match(segs, comps)
  {
    MatchSpec(segs, comps + extra);
    MatchSpec(segs, comps);
    assert forall j :: 0 <= j < |segs| ==> (comps + extra)[j] == comps[j];
    BindPrefix(segs, comps, extra, |segs|);
  }

  lemma {:induction false} BindPrefix(segs: seq<Segment>, comps: seq<string>, extra: seq<string>, n: nat)
    requires n <= |segs| <= |comps|
    ensures Bind(segs, comps + extra, n) == Bind(segs, comps, n)
    decreases n
  {
    if n > 0 {
      var longer := comps + extra;
      BindPrefix(segs, comps, extra, n - 1);
      assert longer[n - 1] == comps[n - 1];
    }
  }
}
