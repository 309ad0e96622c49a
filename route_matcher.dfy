/**
 * The glob matcher: a pattern is read as literal characters, `*` (a run of
 * characters without `/`, possibly empty) and `**` (any run of characters),
 * matched against the whole path ignoring case; `FindMatch` returns the
 * first enabled rule of the request's method whose pattern matches.
 */
module RouteMatcher {
  import opened Wrappers
  import opened Text
  import opened Errors
  import opened Results
  import opened Routes

  datatype Token = Lit(c: char) | Star | DoubleStar

  /** Reads a pattern left to right, pairing consecutive stars: `***` is `**` then `*`. */
  function Tokenize(p: string): seq<Token>
    decreases |p|
  {
    if p == [] then []
    else if |p| >= 2 && p[0] == '*' && p[1] == '*' then [DoubleStar] + Tokenize(p[2..])
    else if p[0] == '*' then [Star] + Tokenize(p[1..])
    else [Lit(p[0])] + Tokenize(p[1..])
  }

  /** The pattern text a token sequence stands for. */
  function Render(toks: seq<Token>): string
  {
    if toks == [] then []
    else
      match toks[0]
      case Lit(c) => [c] + Render(toks[1..])
      case Star => "*" + Render(toks[1..])
      case DoubleStar => "**" + Render(toks[1..])
  }

  /**
   * The sequences `Tokenize` can produce: no literal star, and every single
   * star is the last token or followed by a literal.
   */
  ghost predicate Canonical(toks: seq<Token>) {
    && (forall i :: 0 <= i < |toks| ==> toks[i] != Lit('*'))
    && (forall i :: 0 <= i < |toks| - 1 && toks[i] == Star ==> toks[i + 1].Lit?)
  }

  lemma {:induction false} RenderTokenize(p: string)
    ensures Render(Tokenize(p)) == p
    decreases |p|
  {
    if p == [] {
    } else if |p| >= 2 && p[0] == '*' && p[1] == '*' {
      RenderTokenize(p[2..]);
      assert p == "**" + p[2..];
    } else {
      RenderTokenize(p[1..]);
      assert p == [p[0]] + p[1..];
    }
  }

  lemma {:induction false} TokenizeCanonical(p: string)
    ensures Canonical(Tokenize(p))
    decreases |p|
  {
    if p != [] {
      if |p| >= 2 && p[0] == '*' && p[1] == '*' {
        TokenizeCanonical(p[2..]);
      } else {
        TokenizeCanonical(p[1..]);
        var rest := Tokenize(p[1..]);
        if p[0] == '*' && rest != [] {
          // p[1] is not a star, so the token after this star is a literal
          assert |p| >= 2 && p[1] != '*';
          assert rest[0] == Lit(p[1]);
        }
      }
    }
  }

  lemma {:induction false} TokenizeRender(toks: seq<Token>)
    requires Canonical(toks)
    ensures Tokenize(Render(toks)) == toks
  {
    if toks != [] {
      var rest := toks[1..];
      assert Canonical(rest) by {
        forall i | 0 <= i < |rest| - 1 && rest[i] == Star ensures rest[i + 1].Lit? {
          assert toks[i + 1] == Star;
        }
      }
      TokenizeRender(rest);
      var r := Render(rest);
      match toks[0]
      case Lit(c) =>
        assert c != '*' by { assert toks[0] != Lit('*'); }
        assert Render(toks) == [c] + r;
        assert ([c] + r)[1..] == r;
      case Star =>
        assert Render(toks) == "*" + r;
        if rest != [] {
          assert rest[0].Lit? && rest[0] != Lit('*') by { assert toks[0] == Star && toks[1] == rest[0]; }
          assert r == [rest[0].c] + Render(rest[1..]);
        }
        assert ("*" + r)[1..] == r;
      case DoubleStar =>
        assert Render(toks) == "**" + r;
        assert ("**" + r)[2..] == r;
    }
  }

  /** Anchored, case-insensitive match of the whole of `s`. */
  predicate MatchTokens(toks: seq<Token>, s: string)
    decreases |toks|, |s|
  {
    if toks == [] then s == []
    else
      match toks[0]
      case Lit(c) => s != [] && CharEqualsIgnoreCase(s[0], c) && MatchTokens(toks[1..], s[1..])
      case Star => MatchTokens(toks[1..], s) || (s != [] && s[0] != '/' && MatchTokens(toks, s[1..]))
      case DoubleStar => MatchTokens(toks[1..], s) || (s != [] && MatchTokens(toks, s[1..]))
  }

  /** `IsMatch`: equality ignoring case, else the glob reading of the pattern. */
  predicate IsMatch(path: string, pattern: string) {
    EqualsIgnoreCase(path, pattern) || MatchTokens(Tokenize(pattern), path)
  }

  /** `*` consumes a possibly empty prefix without `/`, and nothing more. */
  lemma {:induction false} StarSpan(rest: seq<Token>, s: string)
    ensures MatchTokens([Star] + rest, s) <==>
              exists k :: 0 <= k <= |s| && '/' !in s[..k] && MatchTokens(rest, s[k..])
    decreases |s|
  {
    var toks := [Star] + rest;
    assert toks[1..] == rest;
    if MatchTokens(toks, s) {
      if MatchTokens(rest, s) {
        assert s[..0] == [] && s[0..] == s;
      } else {
        StarSpan(rest, s[1..]);
        var k :| 0 <= k <= |s[1..]| && '/' !in s[1..][..k] && MatchTokens(rest, s[1..][k..]);
        assert s[..k + 1] == [s[0]] + s[1..][..k];
        assert s[k + 1..] == s[1..][k..];
      }
    }
    if exists k :: 0 <= k <= |s| && '/' !in s[..k] && MatchTokens(rest, s[k..]) {
      var k :| 0 <= k <= |s| && '/' !in s[..k] && MatchTokens(rest, s[k..]);
      if k == 0 {
        assert s[0..] == s;
      } else {
        assert s[0] == s[..k][0];
        assert s[1..][..k - 1] == s[1..k];
        assert '/' !in s[1..][..k - 1] by { assert s[1..k] == s[..k][1..]; }
        assert s[1..][k - 1..] == s[k..];
        StarSpan(rest, s[1..]);
      }
    }
  }

  /** `**` consumes any prefix, `/` included. */
  lemma {:induction false} DoubleStarSpan(rest: seq<Token>, s: string)
    ensures MatchTokens([DoubleStar] + rest, s) <==>
              exists k :: 0 <= k <= |s| && MatchTokens(rest, s[k..])
    decreases |s|
  {
    var toks := [DoubleStar] + rest;
    assert toks[1..] == rest;
    if MatchTokens(toks, s) {
      if MatchTokens(rest, s) {
        assert s[0..] == s;
      } else {
        DoubleStarSpan(rest, s[1..]);
        var k :| 0 <= k <= |s[1..]| && MatchTokens(rest, s[1..][k..]);
        assert s[k + 1..] == s[1..][k..];
      }
    }
    if exists k :: 0 <= k <= |s| && MatchTokens(rest, s[k..]) {
      var k :| 0 <= k <= |s| && MatchTokens(rest, s[k..]);
      if k == 0 {
        assert s[0..] == s;
      } else {
        assert s[1..][k - 1..] == s[k..];
        DoubleStarSpan(rest, s[1..]);
      }
    }
  }

  /** A lone `*` pattern matches exactly the strings without `/`: it never crosses a segment. */
  lemma StarNeverCrossesSlash(s: string)
    ensures IsMatch(s, "*") <==> '/' !in s
  {
    assert Tokenize("*") == [Star];
    StarSpan([], s);
    assert [Star] + [] == [Star];
    if '/' !in s {
      assert s[..|s|] == s && s[|s|..] == [];
    }
    if MatchTokens([Star], s) {
      var k :| 0 <= k <= |s| && '/' !in s[..k] && MatchTokens([], s[k..]);
      assert s[..k] == s;
    }
    if EqualsIgnoreCase(s, "*") {
      assert s[0] == '*';
    }
  }

  /** A lone `**` pattern matches every path. */
  lemma DoubleStarMatchesEverything(s: string)
    ensures IsMatch(s, "**")
  {
    assert Tokenize("**") == [DoubleStar];
    DoubleStarSpan([], s);
    assert [DoubleStar] + [] == [DoubleStar];
    assert MatchTokens([], s[|s|..]);
  }

  /** The token sequence of a pattern without stars: one literal per character. */
  lemma {:induction false} TokenizeLiteral(p: string)
    requires '*' !in p
    ensures |Tokenize(p)| == |p|
    ensures forall i :: 0 <= i < |p| ==> Tokenize(p)[i] == Lit(p[i])
    decreases |p|
  {
    if p != [] {
      TokenizeLiteral(p[1..]);
    }
  }

  lemma {:induction false} MatchLiterals(toks: seq<Token>, p: string, s: string)
    requires |toks| == |p| && forall i :: 0 <= i < |p| ==> toks[i] == Lit(p[i])
    ensures MatchTokens(toks, s) <==> EqualsIgnoreCase(s, p)
    decreases |p|
  {
    if p != [] {
      MatchLiterals(toks[1..], p[1..], if s == [] then s else s[1..]);
      if s != [] && EqualsIgnoreCase(s, p) {
        assert EqualsIgnoreCase(s[1..], p[1..]) by {
          forall i | 0 <= i < |s| - 1 ensures CharEqualsIgnoreCase(s[1..][i], p[1..][i]) {
            assert CharEqualsIgnoreCase(s[i + 1], p[i + 1]);
          }
        }
      }
      if s != [] && CharEqualsIgnoreCase(s[0], p[0]) && EqualsIgnoreCase(s[1..], p[1..]) {
        forall i | 0 <= i < |s| ensures CharEqualsIgnoreCase(s[i], p[i]) {
          if i > 0 { assert s[1..][i - 1] == s[i] && p[1..][i - 1] == p[i]; }
        }
      }
    }
  }

  /** A pattern without wildcards matches only its own text, up to case. */
  lemma LiteralPatternMatchesOnlyItself(path: string, pattern: string)
    requires '*' !in pattern
    ensures IsMatch(path, pattern) <==> EqualsIgnoreCase(path, pattern)
  {
    TokenizeLiteral(pattern);
    MatchLiterals(Tokenize(pattern), pattern, path);
  }

  /** A path equal to the pattern up to case always matches. */
  lemma ExactPathMatches(path: string, pattern: string)
    requires EqualsIgnoreCase(path, pattern)
    ensures IsMatch(path, pattern)
  {
  }

  /** A star-free prefix tokenises on its own: no pairing reaches across it. */
  lemma {:induction false} TokenizeAppend(a: string, b: string)
    requires '*' !in a
    ensures Tokenize(a + b) == Tokenize(a) + Tokenize(b)
    decreases |a|
  {
    if a != [] {
      assert (a + b)[1..] == a[1..] + b;
      TokenizeAppend(a[1..], b);
    } else {
      assert a + b == b;
    }
  }

  /** A literal prefix consumes exactly as many characters, matched ignoring case. */
  lemma {:induction false} MatchLiteralPrefix(a: string, rest: seq<Token>, s: string)
    requires '*' !in a
    ensures MatchTokens(Tokenize(a) + rest, s) <==>
              |a| <= |s| && EqualsIgnoreCase(s[..|a|], a) && MatchTokens(rest, s[|a|..])
    decreases |a|
  {
    if a == [] {
      assert Tokenize(a) + rest == rest;
      assert s[0..] == s;
    } else {
      var toks := Tokenize(a) + rest;
      assert toks[0] == Lit(a[0]) && toks[1..] == Tokenize(a[1..]) + rest;
      if s != [] {
        MatchLiteralPrefix(a[1..], rest, s[1..]);
        if |a| <= |s| {
          assert s[1..][..|a| - 1] == s[..|a|][1..];
          assert s[1..][|a| - 1..] == s[|a|..];
          EqualsIgnoreCaseCons(s[..|a|], a);
        }
      }
    }
  }

  lemma EqualsIgnoreCaseCons(x: string, y: string)
    requires |x| == |y| > 0
    ensures EqualsIgnoreCase(x, y) <==> CharEqualsIgnoreCase(x[0], y[0]) && EqualsIgnoreCase(x[1..], y[1..])
  {
    if CharEqualsIgnoreCase(x[0], y[0]) && EqualsIgnoreCase(x[1..], y[1..]) {
      forall i | 0 <= i < |x| ensures CharEqualsIgnoreCase(x[i], y[i]) {
        if i > 0 { assert x[1..][i - 1] == x[i] && y[1..][i - 1] == y[i]; }
      }
    }
    if EqualsIgnoreCase(x, y) {
      forall i | 0 <= i < |x| - 1 ensures CharEqualsIgnoreCase(x[1..][i], y[1..][i]) {
        assert CharEqualsIgnoreCase(x[i + 1], y[i + 1]);
      }
    }
  }

  /**
   * `prefix*` matches a path exactly when the path starts with `prefix`
   * (ignoring case) and the rest holds no `/`: one segment, possibly empty.
   */
  lemma SingleSegmentWildcard(prefix: string, path: string)
    requires '*' !in prefix
    ensures IsMatch(path, prefix + "*") <==>
              |prefix| <= |path| && EqualsIgnoreCase(path[..|prefix|], prefix) && '/' !in path[|prefix|..]
  {
    var n := |prefix|;
    TokenizeAppend(prefix, "*");
    assert Tokenize("*") == [Star];
    if |prefix| <= |path| {
      MatchLiteralPrefix(prefix, [Star], path);
      StarNeverCrossesSlash(path[n..]);
      assert Tokenize("*") + [] == [Star];
      if EqualsIgnoreCase(path, prefix + "*") {
        assert path[n] == '*' && path[n..] == [path[n]];
        assert EqualsIgnoreCase(path[..n], prefix) by {
          forall i | 0 <= i < n ensures CharEqualsIgnoreCase(path[..n][i], prefix[i]) {
            assert (prefix + "*")[i] == prefix[i];
          }
        }
      }
    } else {
      MatchLiteralPrefix(prefix, [Star], path);
    }
  }

  /** `prefix**` matches a path exactly when the path starts with `prefix`, ignoring case. */
  lemma MultiSegmentWildcard(prefix: string, path: string)
    requires '*' !in prefix
    ensures IsMatch(path, prefix + "**") <==>
              |prefix| <= |path| && EqualsIgnoreCase(path[..|prefix|], prefix)
  {
    var n := |prefix|;
    TokenizeAppend(prefix, "**");
    assert Tokenize("**") == [DoubleStar];
    MatchLiteralPrefix(prefix, [DoubleStar], path);
    if |prefix| <= |path| {
      DoubleStarMatchesEverything(path[n..]);
      if EqualsIgnoreCase(path, prefix + "**") {
        assert EqualsIgnoreCase(path[..n], prefix) by {
          forall i | 0 <= i < n ensures CharEqualsIgnoreCase(path[..n][i], prefix[i]) {
            assert (prefix + "**")[i] == prefix[i];
          }
        }
      }
    }
  }

  // The segment examples of the matcher tests: a single star after "/api/users/" takes
  // "/api/users/123" but not "/api/users/123/posts"; a double star after "/api/" takes both.
  lemma SegmentExamples()
    ensures IsMatch("/api/users/123", "/api/users/*")
    ensures !IsMatch("/api/users/123/posts", "/api/users/*")
    ensures IsMatch("/api/users/123/posts", "/api/**")
  {
    SingleSegmentWildcard("/api/users/", "/api/users/123");
    assert "/api/users/123"[11..] == "123";
    SingleSegmentWildcard("/api/users/", "/api/users/123/posts");
    assert "/api/users/123/posts"[11..][3] == '/';
    MultiSegmentWildcard("/api/", "/api/users/123/posts");
    assert "/api/users/" + "*" == "/api/users/*";
    assert "/api/" + "**" == "/api/**";
  }

  /** The rule `FindMatch` may return: enabled, same method ignoring case, pattern matching. */
  predicate Selects(route: RouteConfiguration, httpMethod: string, path: string) {
    route.enabled && EqualsIgnoreCase(route.httpMethod, httpMethod) && IsMatch(path, route.pathPattern)
  }

  /** The index of the first selected rule, if any. */
  function FirstSelected(routes: seq<RouteConfiguration>, httpMethod: string, path: string): (r: Option<nat>)
    ensures r.Some? ==> r.value < |routes| && Selects(routes[r.value], httpMethod, path)
    ensures r.Some? ==> forall j :: 0 <= j < r.value ==> !Selects(routes[j], httpMethod, path)
    ensures r.None? ==> forall j :: 0 <= j < |routes| ==> !Selects(routes[j], httpMethod, path)
  {
    if routes == [] then None
    else if Selects(routes[0], httpMethod, path) then Some(0)
    else
      match FirstSelected(routes[1..], httpMethod, path)
      case None => None
      case Some(i) => Some(i + 1)
  }

  /** First match wins, in sequence order; no match is a NotFound failure. */
  function FindMatch(httpMethod: string, path: string, routes: seq<RouteConfiguration>): (r: ValueResult<RouteConfiguration>)
    ensures r.IsSuccess() ==> exists i :: 0 <= i < |routes| && routes[i] == r.GetValue()
                                  && Selects(routes[i], httpMethod, path)
                                  && forall j :: 0 <= j < i ==> !Selects(routes[j], httpMethod, path)
    ensures r.IsSuccess() ==> r.GetValue().enabled && EqualsIgnoreCase(r.GetValue().httpMethod, httpMethod)
    ensures r.IsFailure() <==> forall j :: 0 <= j < |routes| ==> !Selects(routes[j], httpMethod, path)
    ensures r.IsFailure() ==> r.GetError() == RouteNotFound(httpMethod, path)
  {
    match FirstSelected(routes, httpMethod, path)
    case Some(i) => Ok(routes[i])
    case None => Err(RouteNotFound(httpMethod, path))
  }

  /** Rules registered after the chosen one never change the answer. */
  lemma {:induction false} FindMatchIgnoresLaterRules(httpMethod: string, path: string,
                                                      routes: seq<RouteConfiguration>, later: seq<RouteConfiguration>)
    requires FindMatch(httpMethod, path, routes).IsSuccess()
    ensures FindMatch(httpMethod, path, routes + later) == FindMatch(httpMethod, path, routes)
  {
    var i :| 0 <= i < |routes| && FirstSelected(routes, httpMethod, path) == Some(i);
    FirstSelectedOfExtension(httpMethod, path, routes, later, i);
  }

  lemma {:induction false} FirstSelectedOfExtension(httpMethod: string, path: string,
                                                    routes: seq<RouteConfiguration>, later: seq<RouteConfiguration>, i: nat)
    requires FirstSelected(routes, httpMethod, path) == Some(i)
    ensures FirstSelected(routes + later, httpMethod, path) == Some(i)
  {
    var all := routes + later;
    if !Selects(routes[0], httpMethod, path) {
      assert all[1..] == routes[1..] + later;
      FirstSelectedOfExtension(httpMethod, path, routes[1..], later, i - 1);
    }
  }

  // Overlapping rules resolve by order, not specificity: with the double-star
  // "/api/" rule registered before the single-star users rule, "/api/users/123"
  // gets the first.
  lemma FirstMatchWinsExample(first: RouteResponse, second: RouteResponse)
    ensures var routes := [RouteConfiguration("GET", "/api/**", first, true, 1),
                           RouteConfiguration("GET", "/api/users/*", second, true, 1)];
      FindMatch("GET", "/api/users/123", routes) == Ok(routes[0])
  {
    MultiSegmentWildcard("/api/", "/api/users/123");
    assert "/api/" + "**" == "/api/**";
  }

  /** A disabled rule is passed over even when its pattern matches. */
  lemma DisabledRuleSkippedExample(off: RouteResponse, on: RouteResponse)
    ensures var routes := [RouteConfiguration("GET", "/api/users", off, false, 1),
                           RouteConfiguration("GET", "/api/users", on, true, 1)];
      FindMatch("get", "/api/users", routes) == Ok(routes[1])
  {
    var routes := [RouteConfiguration("GET", "/api/users", off, false, 1),
                   RouteConfiguration("GET", "/api/users", on, true, 1)];
    assert !Selects(routes[0], "get", "/api/users");
    assert Selects(routes[1], "get", "/api/users");
    assert FirstSelected(routes[1..], "get", "/api/users") == Some(0);
  }
}
