/** The access partition of the HTTP API: a fixed allow-list, everything else needs authentication. */
module Security {

  /** One segment of a path pattern: a literal, or a single star for exactly one arbitrary segment. */
  datatype SegmentPattern = Literal(text: string) | AnySegment

  /** A path pattern: its leading segments, and whether a trailing double-star segment admits any further segments. */
  datatype PathPattern = PathPattern(segments: seq<SegmentPattern>, anySuffix: bool)

  predicate SegmentMatches(p: SegmentPattern, segment: string)
  {
    match p
    case Literal(text) => segment == text
    case AnySegment => true
  }

  /** The texts of a pattern made of literal segments only. */
  function LiteralTexts(segments: seq<SegmentPattern>): (texts: seq<string>)
    requires forall i | 0 <= i < |segments| :: segments[i].Literal?
    ensures |texts| == |segments|
    ensures forall i | 0 <= i < |segments| :: texts[i] == segments[i].text
  {
    if segments == [] then [] else [segments[0].text] + LiteralTexts(segments[1..])
  }

  /**
   * A request path, given as its segments, matches a pattern: it has the pattern's length, or at
   * least that length under a trailing `**`, and every literal segment is equal.
   */
  function Matches(p: PathPattern, path: seq<string>): (m: bool)
    ensures m ==> |p.segments| <= |path| && (p.anySuffix || |path| == |p.segments|)
    ensures m ==> forall i | 0 <= i < |p.segments| && p.segments[i].Literal? :: path[i] == p.segments[i].text
  {
    && (if p.anySuffix then |p.segments| <= |path| else |p.segments| == |path|)
    && forall i | 0 <= i < |p.segments| :: SegmentMatches(p.segments[i], path[i])
  }

  /** A pattern without `*` matches exactly the paths that start with its texts, alone or followed by more under `**`. */
  lemma LiteralPatternMatches(p: PathPattern, path: seq<string>)
    requires forall i | 0 <= i < |p.segments| :: p.segments[i].Literal?
    ensures Matches(p, path) <==> |p.segments| <= |path| && path[..|p.segments|] == LiteralTexts(p.segments)
                                  && (p.anySuffix || |path| == |p.segments|)
  {
    if |p.segments| <= |path| && path[..|p.segments|] == LiteralTexts(p.segments) {
      assert forall i | 0 <= i < |p.segments| :: path[..|p.segments|][i] == path[i];
    }
  }

  datatype Access = PermitAll | Authenticated

  /** One `requestMatchers(...)` line: its patterns and the access it grants. */
  datatype Rule = Rule(patterns: seq<PathPattern>, access: Access)

  predicate RuleMatches(r: Rule, path: seq<string>)
  {
    exists k | 0 <= k < |r.patterns| :: Matches(r.patterns[k], path)
  }

  /**
   * The access of the first rule that matches; `anyRequest().authenticated()` when none does.
   * So the answer is the fallback or the access of some matching rule.
   */
  function Decide(rules: seq<Rule>, path: seq<string>): (a: Access)
    ensures (forall j | 0 <= j < |rules| :: !RuleMatches(rules[j], path)) ==> a == Authenticated
    ensures a == Authenticated || exists j | 0 <= j < |rules| :: RuleMatches(rules[j], path) && rules[j].access == a
  {
    if rules == [] then Authenticated
    else if RuleMatches(rules[0], path) then rules[0].access
    else
      var a := Decide(rules[1..], path);
      assert forall j | 1 <= j < |rules| :: rules[1..][j - 1] == rules[j];
      a
  }

  /** Rules are tried in order: the first matching rule decides, and no match means authentication. */
  lemma {:induction false} DecideFirstMatch(rules: seq<Rule>, path: seq<string>, i: nat)
    requires i < |rules| && RuleMatches(rules[i], path)
    requires forall j | 0 <= j < i :: !RuleMatches(rules[j], path)
    ensures Decide(rules, path) == rules[i].access
  {
    if i > 0 {
      assert !RuleMatches(rules[0], path);
      DecideFirstMatch(rules[1..], path, i - 1);
    }
  }

  /** When every rule permits, a path is permitted exactly when some rule matches it. */
  lemma {:induction false} DecideAllPermit(rules: seq<Rule>, path: seq<string>)
    requires forall j | 0 <= j < |rules| :: rules[j].access == PermitAll
    ensures Decide(rules, path) == PermitAll <==> exists j | 0 <= j < |rules| :: RuleMatches(rules[j], path)
  {
    if rules != [] {
      DecideAllPermit(rules[1..], path);
      if !RuleMatches(rules[0], path) {
        assert forall j | 1 <= j < |rules| :: RuleMatches(rules[j], path) == RuleMatches(rules[1..][j - 1], path);
      }
    }
  }

  const REGISTRATION: PathPattern := PathPattern([Literal("api"), Literal("usuarios"), Literal("registro")], false)
  const EMAIL_LOOKUP: PathPattern := PathPattern([Literal("api"), Literal("usuarios"), Literal("email")], true)
  const LAST_LOGIN: PathPattern := PathPattern([Literal("api"), Literal("usuarios"), AnySegment, Literal("login")], false)
  const LOGIN: PathPattern := PathPattern([Literal("api"), Literal("usuarios"), Literal("login")], false)
  const SWAGGER_UI: PathPattern := PathPattern([Literal("swagger-ui")], true)
  const SWAGGER_PAGE: PathPattern := PathPattern([Literal("swagger-ui.html")], false)
  const API_DOCS: PathPattern := PathPattern([Literal("api-docs")], true)
  const H2_CONSOLE: PathPattern := PathPattern([Literal("h2-console")], true)

  /** The permit-all lines of the filter chain, in their order. */
  const RULES: seq<Rule> := [
    Rule([REGISTRATION], PermitAll),
    Rule([EMAIL_LOOKUP], PermitAll),
    Rule([LAST_LOGIN], PermitAll),
    Rule([LOGIN], PermitAll),
    Rule([SWAGGER_UI, SWAGGER_PAGE, API_DOCS, H2_CONSOLE], PermitAll)
  ]

  /** Every pattern of those lines, in order; `RulesListPublicPatterns` ties this list to `RULES`. */
  const PUBLIC_PATTERNS: seq<PathPattern> :=
    [REGISTRATION, EMAIL_LOOKUP, LAST_LOGIN, LOGIN, SWAGGER_UI, SWAGGER_PAGE, API_DOCS, H2_CONSOLE]

  /** Some permit-all line matches a path exactly when one of the eight listed patterns does. */
  lemma RulesListPublicPatterns(path: seq<string>)
    ensures (exists j | 0 <= j < |RULES| :: RuleMatches(RULES[j], path)) <==>
      exists k | 0 <= k < |PUBLIC_PATTERNS| :: Matches(PUBLIC_PATTERNS[k], path)
  {
    if exists k | 0 <= k < |PUBLIC_PATTERNS| :: Matches(PUBLIC_PATTERNS[k], path) {
      var k :| 0 <= k < |PUBLIC_PATTERNS| && Matches(PUBLIC_PATTERNS[k], path);
      var j := if k < 4 then k else 4;
      assert RULES[j].patterns[k - j] == PUBLIC_PATTERNS[k];
      assert RuleMatches(RULES[j], path);
    } else {
      forall j | 0 <= j < |RULES| ensures !RuleMatches(RULES[j], path) {
        forall k | 0 <= k < |RULES[j].patterns| ensures !Matches(RULES[j].patterns[k], path) {
          assert RULES[j].patterns[k] == PUBLIC_PATTERNS[j + k];
        }
      }
    }
  }

  /**
   * The access the filter chain requires for a path. Every path is classified: public exactly when
   * a listed pattern matches it, protected exactly when none does.
   */
  function Authorize(path: seq<string>): (a: Access)
    ensures a == PermitAll <==> exists k | 0 <= k < |PUBLIC_PATTERNS| :: Matches(PUBLIC_PATTERNS[k], path)
    ensures a == Authenticated <==> forall k | 0 <= k < |PUBLIC_PATTERNS| :: !Matches(PUBLIC_PATTERNS[k], path)
  {
    DecideAllPermit(RULES, path);
    RulesListPublicPatterns(path);
    Decide(RULES, path)
  }

  /** `/api/usuarios/registro` is public. */
  lemma RegistrationIsPublic()
    ensures Authorize(["api", "usuarios", "registro"]) == PermitAll
  {
    assert Matches(PUBLIC_PATTERNS[0], ["api", "usuarios", "registro"]);
  }

  /** Every path under `/api/usuarios/email/` is public, and so is `/api/usuarios/email` itself. */
  lemma EmailLookupIsPublic(rest: seq<string>)
    ensures Authorize(["api", "usuarios", "email"] + rest) == PermitAll
  {
    var path := ["api", "usuarios", "email"] + rest;
    assert Matches(PUBLIC_PATTERNS[1], path);
  }

  /** `/api/usuarios/{id}/login` for any single segment, and `/api/usuarios/login`, are public. */
  lemma LoginPathsArePublic(id: string)
    ensures Authorize(["api", "usuarios", id, "login"]) == PermitAll
    ensures Authorize(["api", "usuarios", "login"]) == PermitAll
  {
    assert Matches(PUBLIC_PATTERNS[2], ["api", "usuarios", id, "login"]);
    assert Matches(PUBLIC_PATTERNS[3], ["api", "usuarios", "login"]);
  }

  /** The single star of the last-login pattern (api, usuarios, star, login) stands for exactly one segment. */
  lemma LastLoginPatternOneSegment(path: seq<string>)
    ensures Matches(LAST_LOGIN, path) <==>
      |path| == 4 && path[0] == "api" && path[1] == "usuarios" && path[3] == "login"
  {
    if |path| == 4 && path[0] == "api" && path[1] == "usuarios" && path[3] == "login" {
      assert forall i | 0 <= i < 4 :: SegmentMatches(LAST_LOGIN.segments[i], path[i]);
    }
  }

  /** The documentation and database-console paths are public. */
  lemma DocumentationIsPublic(rest: seq<string>)
    ensures Authorize(["swagger-ui"] + rest) == PermitAll
    ensures Authorize(["swagger-ui.html"]) == PermitAll
    ensures Authorize(["api-docs"] + rest) == PermitAll
    ensures Authorize(["h2-console"] + rest) == PermitAll
  {
    assert Matches(PUBLIC_PATTERNS[4], ["swagger-ui"] + rest);
    assert Matches(PUBLIC_PATTERNS[5], ["swagger-ui.html"]);
    assert Matches(PUBLIC_PATTERNS[6], ["api-docs"] + rest);
    assert Matches(PUBLIC_PATTERNS[7], ["h2-console"] + rest);
  }

  /** The token check endpoint matches no listed pattern and so needs authentication. */
  lemma VerifyTokenIsProtected()
    ensures Authorize(["api", "usuarios", "verificar-token"]) == Authenticated
  {
    var path := ["api", "usuarios", "verificar-token"];
    forall k | 0 <= k < |PUBLIC_PATTERNS| ensures !Matches(PUBLIC_PATTERNS[k], path) {
      var q := PUBLIC_PATTERNS[k];
      if k == 2 {
        assert |q.segments| == 4 && !q.anySuffix;
      } else if k < 4 {
        assert q.segments[2].Literal? && q.segments[2].text != path[2];
      } else {
        assert q.segments[0].Literal? && q.segments[0].text != path[0];
      }
    }
  }
}
