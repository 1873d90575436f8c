/**
 * `next-sitemap.config.js`: the site-map generator's settings. `transform`
 * gives each path a priority and a change frequency by the first rule that
 * matches, and three language alternates; `additionalPaths` adds the stock
 * and category pages the generator cannot discover.
 */
module NextSitemap {
  import opened Wrappers
  import opened Text

  datatype Config = Config(siteUrl: string, autoLastmod: bool)

  /** `SITE_URL`, else the site's own address. */
  function SiteUrl(env: Option<string>): (r: string)
    ensures Truthy(env) ==> r == env.value
    ensures !Truthy(env) ==> r == "https://stox.bg"
  {
    OrElse(env, "https://stox.bg")
  }

  /** A priority in tenths (`0.7` is 7) and a change frequency. */
  datatype Rule = Rule(priorityTenths: nat, changefreq: string)

  /** How a rule picks its paths. */
  datatype Matcher = Exactly(path: string) | Prefix(prefix: string) | Mentions(parts: seq<string>)

  predicate Matches(m: Matcher, path: string) {
    match m
    case Exactly(p) => path == p
    case Prefix(p) => StartsWith(path, p)
    case Mentions(parts) => exists i :: 0 <= i < |parts| && Contains(path, parts[i])
  }

  /** The rule table, in the order the rules are tried. */
  const Rules: seq<(Matcher, Rule)> := [
    (Exactly("/"), Rule(10, "daily")),
    (Prefix("/stocks/"), Rule(8, "daily")),
    (Prefix("/categories/"), Rule(7, "weekly")),
    (Mentions(["/about", "/contact"]), Rule(6, "monthly"))
  ]

  const DefaultRule: Rule := Rule(7, "weekly")

  /** The first rule of `rules` that matches `path`, else the default. */
  function FirstMatch(rules: seq<(Matcher, Rule)>, path: string): Rule {
    if rules == [] then DefaultRule
    else if Matches(rules[0].0, path) then rules[0].1
    else FirstMatch(rules[1..], path)
  }

  datatype AlternateRef = AlternateRef(href: string, hreflang: string)

  datatype Field = Field(loc: string, changefreq: string, priorityTenths: nat, lastmod: Option<string>, alternateRefs: seq<AlternateRef>)

  /** The entry for `path`: the path itself, the table's rule, and `now` only with automatic dates. */
  function TransformField(config: Config, path: string, now: string): (f: Field)
    ensures f.loc == path && (f.lastmod.Some? <==> config.autoLastmod) && (f.lastmod.Some? ==> f.lastmod.value == now)
    ensures |f.alternateRefs| == 3 && forall i :: 0 <= i < 3 ==> f.alternateRefs[i].href == config.siteUrl + path
    ensures path == "/" ==> f.priorityTenths == 10 && f.changefreq == "daily"
    ensures (f.priorityTenths, f.changefreq) in {(10, "daily"), (8, "daily"), (7, "weekly"), (6, "monthly")}
  {
    RuleTable(path);
    var rule := FirstMatch(Rules, path);
    var href := config.siteUrl + path;
    Field(path, rule.changefreq, rule.priorityTenths, if config.autoLastmod then Some(now) else None,
      [AlternateRef(href, "bg"), AlternateRef(href, "bg-BG"), AlternateRef(href, "x-default")])
  }

  /** `transform`: defaults, then the `if` chain that reassigns them. */
  method Transform(config: Config, path: string, now: string) returns (field: Field)
    ensures field == TransformField(config, path, now)
  {
    var priority := 7;
    var changefreq := "weekly";
    if path == "/" {
      priority := 10;
      changefreq := "daily";
    } else if StartsWith(path, "/stocks/") {
      priority := 8;
      changefreq := "daily";
    } else if StartsWith(path, "/categories/") {
      priority := 7;
      changefreq := "weekly";
    } else if Contains(path, "/about") || Contains(path, "/contact") {
      priority := 6;
      changefreq := "monthly";
    }
    var href := config.siteUrl + path;
    field := Field(path, changefreq, priority, if config.autoLastmod then Some(now) else None,
      [AlternateRef(href, "bg"), AlternateRef(href, "bg-BG"), AlternateRef(href, "x-default")]);
    RuleTable(path);
  }

  /**
   * Every entry keeps its path as `loc`, has a date only with automatic
   * dates, and lists exactly the `bg`, `bg-BG` and `x-default` alternates,
   * each pointing at the site address followed by the path.
   */
  lemma TransformFieldShape(config: Config, path: string, now: string)
    ensures var f := TransformField(config, path, now);
      f.loc == path && (f.lastmod.Some? <==> config.autoLastmod) &&
      |f.alternateRefs| == 3 &&
      f.alternateRefs[0].hreflang == "bg" && f.alternateRefs[1].hreflang == "bg-BG" &&
      f.alternateRefs[2].hreflang == "x-default" &&
      forall i :: 0 <= i < 3 ==> f.alternateRefs[i].href == config.siteUrl + path
  {
  }

  /**
   * The table tried in order: `/` is 1.0 daily; other paths under
   * `/stocks/` 0.8 daily; under `/categories/` 0.7 weekly; paths mentioning
   * `/about` or `/contact` 0.6 monthly; anything else 0.7 weekly.
   */
  lemma RuleTable(path: string)
    ensures path == "/" ==> FirstMatch(Rules, path) == Rule(10, "daily")
    ensures path != "/" && StartsWith(path, "/stocks/") ==> FirstMatch(Rules, path) == Rule(8, "daily")
    ensures path != "/" && !StartsWith(path, "/stocks/") && StartsWith(path, "/categories/") ==>
      FirstMatch(Rules, path) == Rule(7, "weekly")
    ensures path != "/" && !StartsWith(path, "/stocks/") && !StartsWith(path, "/categories/") ==>
      FirstMatch(Rules, path) == if Contains(path, "/about") || Contains(path, "/contact") then Rule(6, "monthly") else DefaultRule
  {
    var r1 := Rules[1..];
    var r2 := r1[1..];
    var r3 := r2[1..];
    assert r3[1..] == [];
    var about := Mentions(["/about", "/contact"]);
    assert r3[0] == (about, Rule(6, "monthly"));
    assert Matches(about, path) <==> Contains(path, "/about") || Contains(path, "/contact") by {
      assert about.parts[0] == "/about" && about.parts[1] == "/contact";
    }
    assert FirstMatch(r3, path) == if Matches(about, path) then Rule(6, "monthly") else DefaultRule;
    assert FirstMatch(r2, path) == if StartsWith(path, "/categories/") then Rule(7, "weekly") else FirstMatch(r3, path);
    assert FirstMatch(r1, path) == if StartsWith(path, "/stocks/") then Rule(8, "daily") else FirstMatch(r2, path);
  }

  /** The order of the rules matters: a stock path that mentions `/about` is still a stock page. */
  lemma StockRuleWins()
    ensures FirstMatch(Rules, "/stocks/about") == Rule(8, "daily")
    ensures Contains("/stocks/about", "/about")
  {
    RuleTable("/stocks/about");
    assert "/stocks/about"[..|"/stocks/"|] == "/stocks/";
    assert "/stocks/about"[7..7 + |"/about"|] == "/about";
    ContainsAt("/stocks/about", "/about", 7);
  }

  const ExtraStocks: seq<string> := ["nvda", "aapl", "tsla", "googl", "msft", "meta", "amzn"]
  const ExtraCategories: seq<string> := ["technology", "healthcare", "finance", "energy"]

  /** One transformed entry per name, at `prefix` followed by the name, in the listed order. */
  function PrefixedFields(config: Config, now: string, prefix: string, names: seq<string>): (r: seq<Field>)
    ensures |r| == |names|
    ensures forall i :: 0 <= i < |names| ==> r[i] == TransformField(config, prefix + names[i], now)
  {
    seq(|names|, i requires 0 <= i < |names| => TransformField(config, prefix + names[i], now))
  }

  /** `additionalPaths`: the two `for` loops that push one transformed entry per stock, then per category. */
  method AdditionalPaths(config: Config, now: string) returns (paths: seq<Field>)
    ensures paths == PrefixedFields(config, now, "/stocks/", ExtraStocks) + PrefixedFields(config, now, "/categories/", ExtraCategories)
  {
    paths := [];
    for i := 0 to |ExtraStocks|
      invariant paths == PrefixedFields(config, now, "/stocks/", ExtraStocks[..i])
    {
      var field := Transform(config, "/stocks/" + ExtraStocks[i], now);
      paths := paths + [field];
    }
    assert ExtraStocks[..|ExtraStocks|] == ExtraStocks;
    ghost var stocks := paths;
    for i := 0 to |ExtraCategories|
      invariant paths == stocks + PrefixedFields(config, now, "/categories/", ExtraCategories[..i])
    {
      var field := Transform(config, "/categories/" + ExtraCategories[i], now);
      paths := paths + [field];
    }
    assert ExtraCategories[..|ExtraCategories|] == ExtraCategories;
  }

  /**
   * The additional entries are seven stock pages at 0.8 daily, then four
   * category pages at 0.7 weekly, in the listed order.
   */
  lemma AdditionalPathsShape(config: Config, now: string)
    ensures var paths := PrefixedFields(config, now, "/stocks/", ExtraStocks) + PrefixedFields(config, now, "/categories/", ExtraCategories);
      |paths| == 11 &&
      (forall i :: 0 <= i < 7 ==>
        paths[i].loc == "/stocks/" + ExtraStocks[i] && paths[i].priorityTenths == 8 && paths[i].changefreq == "daily") &&
      (forall i :: 7 <= i < 11 ==>
        paths[i].loc == "/categories/" + ExtraCategories[i - 7] && paths[i].priorityTenths == 7 && paths[i].changefreq == "weekly")
  {
    forall s: string ensures FirstMatch(Rules, "/stocks/" + s) == Rule(8, "daily") {
      RuleTable("/stocks/" + s);
      assert ("/stocks/" + s)[..|"/stocks/"|] == "/stocks/";
    }
    forall s: string ensures FirstMatch(Rules, "/categories/" + s) == Rule(7, "weekly") {
      RuleTable("/categories/" + s);
      assert ("/categories/" + s)[..|"/categories/"|] == "/categories/";
      assert ("/categories/" + s)[1] == 'c';
    }
  }
}
