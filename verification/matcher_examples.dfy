/** The route of src/test/java/JExpressLoomTest.java, `/hello/:id`, stated
    for any literal word, parameter name and request value. */
module RouteMatcherExamples {
  import opened Wrappers
  import opened Text
  import opened RouteMatcher

  /** A leading '/' then one piece: the empty component, then the piece. */
  lemma SplitOne(a: string)
    requires '/' !in a && a != ""
    ensures Components("/" + a) == ["", a]
  {
    var s := "/" + a;
    IndexOfFirst(s, '/', 0);
    assert s[1..] == a;
    assert FullSplit(s, '/') == [""] + FullSplit(a, '/');
  }

  /** A leading '/' then two pieces separated by '/'. */
  lemma SplitTwo(a: string, b: string)
    requires '/' !in a && '/' !in b && b != ""
    ensures Components("/" + a + "/" + b) == ["", a, b]
  {
    var s := "/" + a + "/" + b;
    var t := a + "/" + b;
    assert s == "" + "/" + t;
    SplitAfterFirst("", t);
    SplitAfterFirst(a, b);
  }

  /** Splitting at the first '/': the piece before it, then the split of
      the rest. */
  lemma SplitAfterFirst(a: string, t: string)
    requires '/' !in a
    ensures FullSplit(a + "/" + t, '/') == [a] + FullSplit(t, '/')
  {
    var s := a + "/" + t;
    assert s[..|a|] == a;
    IndexOfFirst(s, '/', |a|);
    assert s[|a| + 1..] == t;
  }

  /** The pattern `/w/:x` compiles to an empty literal, the literal `w` and
      the parameter `x`. */
  lemma CompileWordParam(w: string, x: string)
    requires '/' !in w && '/' !in x && (w == "" || w[0] != ':')
    ensures Compile("/" + w + "/" + (":" + x)) == [Literal(""), Literal(w), Param(x)]
  {
    SplitTwo(w, ":" + x);
    assert (":" + x)[1..] == x;
  }

  /** `/w/:x` against `/w/v` binds `x` to `v`; against `/w` alone, which has
      fewer components than the pattern, it does not match. */
  lemma WordParam(w: string, x: string, v: string)
    requires '/' !in w && '/' !in x && '/' !in v && v != "" && w != "" && w[0] != ':'
    ensures MatchPath("/" + w + "/" + (":" + x), "/" + w + "/" + v) == Some(map[x := v])
    ensures MatchPath("/" + w + "/" + (":" + x), "/" + w) == None
  {
    CompileWordParam(w, x);
    SplitTwo(w, v);
    SplitOne(w);
    var segs := [Literal(""), Literal(w), Param(x)];
    MatchSpec(segs, ["", w, v]);
    assert Bind(segs, ["", w, v], 1) == map[];
    assert Bind(segs, ["", w, v], 2) == map[];
  }

  /** `/hello/:id` against `/hello/42` binds `id` to "42". */
  lemma HelloId()
    ensures MatchPath("/hello/:id", "/hello/42") == Some(map["id" := "42"])
    ensures MatchPath("/hello/:id", "/hello") == None
  {
    assert "/" + "hello" + "/" + (":" + "id") == "/hello/:id";
    assert "/" + "hello" + "/" + "42" == "/hello/42";
    assert "/" + "hello" == "/hello";
    WordParam("hello", "id", "42");
  }
}
