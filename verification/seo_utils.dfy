/**
 * The SEO helpers of the site's `lib/seo/utils.ts`: Bulgarian slugs, absolute
 * URLs, keyword extraction, the page metadata record and the schema.org
 * JSON-LD records (BreadcrumbList, FAQPage, Article, FinancialProduct), the
 * sentence summary and the hreflang links.
 */
module SeoUtils {
  import opened Wrappers
  import opened Text
  import opened Seqs

  const BaseUrl: string := "https://stox.bg"
  const DefaultOgImagePath: string := "/images/og-default.jpg"
  const DefaultAuthor: string := "Давид Петков"
  const SiteName: string := "stox.bg – проект на Devids"

  // ---------------------------------------------------------------------
  // slugifyBG

  /** The transliteration table; letters of а..я it does not list map to "". */
  function Latin(c: char): string {
    match c
    case '\U{0430}' => "a"   // а
    case '\U{0431}' => "b"   // б
    case '\U{0432}' => "v"   // в
    case '\U{0433}' => "g"   // г
    case '\U{0434}' => "d"   // д
    case '\U{0435}' => "e"   // е
    case '\U{0436}' => "zh"   // ж
    case '\U{0437}' => "z"   // з
    case '\U{0438}' => "i"   // и
    case '\U{0439}' => "y"   // й
    case '\U{043A}' => "k"   // к
    case '\U{043B}' => "l"   // л
    case '\U{043C}' => "m"   // м
    case '\U{043D}' => "n"   // н
    case '\U{043E}' => "o"   // о
    case '\U{043F}' => "p"   // п
    case '\U{0440}' => "r"   // р
    case '\U{0441}' => "s"   // с
    case '\U{0442}' => "t"   // т
    case '\U{0443}' => "u"   // у
    case '\U{0444}' => "f"   // ф
    case '\U{0445}' => "h"   // х
    case '\U{0446}' => "ts"   // ц
    case '\U{0447}' => "ch"   // ч
    case '\U{0448}' => "sh"   // ш
    case '\U{0449}' => "sht"   // щ
    case '\U{044A}' => "a"   // ъ
    case '\U{044C}' => "y"   // ь
    case '\U{044E}' => "yu"   // ю
    case '\U{044F}' => "ya"   // я
    case _ => ""
  }

  /** One character of the `[а-я]` replacement: the table's Latin letters, or the character itself. */
  function TranslitChar(c: char): string {
    if IsCyrillicLower(c) && Latin(c) != "" then Latin(c) else [c]
  }

  function Translit(s: string): (r: string)
    ensures |r| >= |s|
    ensures forall i :: 0 <= i < |r| && IsCyrillicLower(r[i]) ==> Latin(r[i]) == ""
  {
    if s == [] then [] else TranslitChar(s[0]) + Translit(s[1..])
  }

  predicate IsSlugChar(c: char) { IsAsciiLower(c) || IsDigit(c) || c == '-' }

  /** `replace(/[^a-z0-9-]/g, '-')`. */
  function Sanitize(s: string): (r: string)
    ensures |r| == |s|
    ensures forall i :: 0 <= i < |s| ==> r[i] == if IsSlugChar(s[i]) then s[i] else '-'
  {
    if s == [] then [] else [if IsSlugChar(s[0]) then s[0] else '-'] + Sanitize(s[1..])
  }

  predicate NoDoubleDash(s: string) {
    forall i :: 0 <= i < |s| - 1 ==> !(s[i] == '-' && s[i + 1] == '-')
  }

  /** The text with every dash removed. */
  function Undash(s: string): string {
    if s == [] then [] else (if s[0] == '-' then [] else [s[0]]) + Undash(s[1..])
  }

  /** `replace(/-+/g, '-')`: every run of dashes becomes one dash. */
  function Collapse(s: string): (r: string)
    ensures |r| <= |s|
    ensures NoDoubleDash(r)
    ensures Undash(r) == Undash(s)
    ensures s != [] ==> r != [] && r[0] == s[0]
    ensures (forall i :: 0 <= i < |s| ==> IsSlugChar(s[i])) ==> forall i :: 0 <= i < |r| ==> IsSlugChar(r[i])
  {
    if |s| >= 2 && s[0] == '-' && s[1] == '-' then Collapse(s[1..])
    else if s == [] then []
    else [s[0]] + Collapse(s[1..])
  }

  /** `replace(/^-|-$/g, '')`: one leading and one trailing dash removed. */
  function TrimDashes(s: string): string {
    var t := if s != [] && s[0] == '-' then s[1..] else s;
    if t != [] && t[|t| - 1] == '-' then t[..|t| - 1] else t
  }

  /** The shape of a slug: only `[a-z0-9-]`, no `--`, no dash at either end. */
  predicate IsSlug(s: string) {
    (forall i :: 0 <= i < |s| ==> IsSlugChar(s[i])) && NoDoubleDash(s) &&
    (s != [] ==> s[0] != '-' && s[|s| - 1] != '-')
  }

  /**
   * Collapsing works run by run: a text cut after a character other than a
   * dash collapses as its two parts do.
   */
  lemma {:induction false} CollapseSplit(a: string, b: string)
    requires a != [] && a[|a| - 1] != '-'
    ensures Collapse(a + b) == Collapse(a) + Collapse(b)
    decreases |a|
  {
    assert (a + b)[1..] == a[1..] + b;
    if |a| > 1 {
      CollapseSplit(a[1..], b);
    }
  }

  /** A non-empty run of dashes becomes a single dash. */
  lemma {:induction false} CollapseDashRun(s: string)
    requires s != [] && forall i :: 0 <= i < |s| ==> s[i] == '-'
    ensures Collapse(s) == "-"
  {
    if |s| > 1 {
      CollapseDashRun(s[1..]);
    }
  }

  /** The three clean-up replacements after transliteration. */
  function Clean(s: string): (r: string)
    ensures IsSlug(r)
  {
    var c := Collapse(Sanitize(s));
    var t := if c != [] && c[0] == '-' then c[1..] else c;
    assert NoDoubleDash(t);
    TrimDashes(c)
  }

  /** `slugifyBG`: lower-case, transliterate, then clean up. */
  function SlugifyBG(text: string): (r: string)
    ensures IsSlug(r)
  {
    Clean(Translit(Lower(text)))
  }

  lemma {:induction false} TranslitNoCyrillic(s: string)
    requires forall i :: 0 <= i < |s| ==> !IsCyrillicLower(s[i])
    ensures Translit(s) == s
  {
    if s != [] {
      TranslitNoCyrillic(s[1..]);
    }
  }

  lemma {:induction false} CollapseFixes(s: string)
    requires NoDoubleDash(s)
    ensures Collapse(s) == s
  {
    if s != [] {
      assert NoDoubleDash(s[1..]);
      CollapseFixes(s[1..]);
    }
  }

  /** A slug passes through the clean-up unchanged. */
  lemma CleanFixes(s: string)
    requires IsSlug(s)
    ensures Clean(s) == s
  {
    assert Sanitize(s) == s;
    CollapseFixes(s);
  }

  /** A slug is its own slug. */
  lemma SlugFixed(s: string)
    requires IsSlug(s)
    ensures SlugifyBG(s) == s
  {
    forall i | 0 <= i < |s| ensures Lower(s)[i] == s[i] {
      LowerCharFixes(s[i]);
    }
    assert Lower(s) == s;
    TranslitNoCyrillic(s);
    CleanFixes(s);
  }

  /** Slugifying twice is slugifying once. */
  lemma SlugifyIdempotent(text: string)
    ensures SlugifyBG(SlugifyBG(text)) == SlugifyBG(text)
  {
    SlugFixed(SlugifyBG(text));
  }

  /** Every value of the table is itself a slug. */
  lemma LatinIsSlug(c: char)
    ensures IsSlug(Latin(c))
  {
  }

  /**
   * A single small Cyrillic letter becomes its table value (`ж` to `zh`,
   * `щ` to `sht`, `ъ` to `a`); one the table lacks (`ы`, `э`) becomes a dash
   * and is then trimmed away.
   */
  lemma SlugOfLetter(c: char)
    requires IsCyrillicLower(c)
    ensures Latin(c) != "" ==> SlugifyBG([c]) == Latin(c)
    ensures Latin(c) == "" ==> SlugifyBG([c]) == ""
  {
    LowerCharFixes(c);
    assert Lower([c]) == [c];
    assert Translit([c]) == TranslitChar(c);
    if Latin(c) != "" {
      LatinIsSlug(c);
      CleanFixes(Latin(c));
    } else {
      assert Sanitize([c]) == "-";
      assert Collapse("-") == "-";
    }
  }

  /** One character is transliterated by itself. */
  lemma TranslitOne(c: char)
    ensures Translit([c]) == TranslitChar(c)
  {
    assert [c][1..] == [];
  }

  /** The replacement works letter by letter: it distributes over concatenation. */
  lemma {:induction false} TranslitAppend(a: string, b: string)
    ensures Translit(a + b) == Translit(a) + Translit(b)
  {
    if a == [] {
      assert a + b == b;
    } else {
      assert (a + b)[1..] == a[1..] + b;
      TranslitAppend(a[1..], b);
      AppendAssoc(TranslitChar(a[0]), Translit(a[1..]), Translit(b));
    }
  }

  /** A small Cyrillic letter the table lists. */
  predicate TableLetter(c: char) { IsCyrillicLower(c) && Latin(c) != "" }

  /** The table's values are made of small Latin letters. */
  lemma LatinLetters(c: char)
    ensures forall i :: 0 <= i < |Latin(c)| ==> IsAsciiLower(Latin(c)[i])
  {
  }

  /** A word of listed letters transliterates to small Latin letters only. */
  lemma {:induction false} TranslitLetters(s: string)
    requires forall i :: 0 <= i < |s| ==> TableLetter(s[i])
    ensures forall i :: 0 <= i < |Translit(s)| ==> IsAsciiLower(Translit(s)[i])
  {
    if s != [] {
      TranslitLetters(s[1..]);
      LatinLetters(s[0]);
      var r := Translit(s);
      var head := Latin(s[0]);
      forall i | 0 <= i < |r| ensures IsAsciiLower(r[i]) {
        if i < |head| {
          assert r[i] == head[i];
        } else {
          assert r[i] == Translit(s[1..])[i - |head|];
        }
      }
    }
  }

  /** The slug of a word of listed small letters is its transliteration, unchanged by the clean-up. */
  lemma SlugOfWord(s: string)
    requires forall i :: 0 <= i < |s| ==> TableLetter(s[i])
    ensures SlugifyBG(s) == Translit(s)
  {
    forall i | 0 <= i < |s| ensures Lower(s)[i] == s[i] {
      LowerCharFixes(s[i]);
    }
    assert Lower(s) == s;
    TranslitLetters(s);
    CleanFixes(Translit(s));
  }

  /** `ции` transliterates to `tsii`. */
  lemma TranslitTsii()
    ensures Translit(['\U{0446}', '\U{0438}', '\U{0438}']) == "tsii"
  {
    var ts, i := '\U{0446}', '\U{0438}';
    TranslitOne(ts);
    TranslitOne(i);
    assert [i, i] == [i] + [i];
    TranslitAppend([i], [i]);
    assert [ts, i, i] == [ts] + [i, i];
    TranslitAppend([ts], [i, i]);
  }

  /** `акции` transliterates to `aktsii`: `ц` becomes two letters. */
  lemma TranslitAktsii()
    ensures Translit(['\U{0430}', '\U{043A}', '\U{0446}', '\U{0438}', '\U{0438}']) == "aktsii"
  {
    var a, k, ts, i := '\U{0430}', '\U{043A}', '\U{0446}', '\U{0438}';
    TranslitTsii();
    TranslitAk();
    assert [a, k, ts, i, i] == [a, k] + [ts, i, i];
    TranslitAppend([a, k], [ts, i, i]);
  }

  /** `ак` transliterates to `ak`. */
  lemma TranslitAk()
    ensures Translit(['\U{0430}', '\U{043A}']) == "ak"
  {
    var a, k := '\U{0430}', '\U{043A}';
    TranslitOne(a);
    TranslitOne(k);
    assert [a, k] == [a] + [k];
    TranslitAppend([a], [k]);
  }

  /** `slugifyBG("акции")` is `aktsii`. */
  lemma SlugOfAktsii()
    ensures SlugifyBG(['\U{0430}', '\U{043A}', '\U{0446}', '\U{0438}', '\U{0438}']) == "aktsii"
  {
    var a, k, ts, i := '\U{0430}', '\U{043A}', '\U{0446}', '\U{0438}';
    var w := [a, k, ts, i, i];
    assert TableLetter(a) && TableLetter(k) && TableLetter(ts) && TableLetter(i);
    forall j | 0 <= j < |w| ensures TableLetter(w[j]) {
      if j >= 3 {
        assert w[j] == i;
      }
    }
    SlugOfWord(w);
    TranslitAktsii();
  }

  // ---------------------------------------------------------------------
  // toAbsoluteUrl

  /** `/^https?:\/\//`. */
  predicate IsHttpUrl(s: string) {
    StartsWith(s, "http://") || StartsWith(s, "https://")
  }

  /** An absolute URL with more text appended is still absolute. */
  lemma HttpUrlAppend(s: string, t: string)
    ensures IsHttpUrl(s) ==> IsHttpUrl(s + t)
  {
    if |s| >= 8 {
      assert (s + t)[..8] == s[..8];
    }
    if |s| >= 7 {
      assert (s + t)[..7] == s[..7];
    }
  }

  /**
   * `toAbsoluteUrl`: the default image for an empty input, absolute URLs
   * unchanged, and otherwise the base, one slash and the path.
   */
  function ToAbsoluteUrl(pathOrUrl: string, baseUrl: string): (r: string)
    ensures pathOrUrl == "" ==> r == baseUrl + DefaultOgImagePath
    ensures IsHttpUrl(pathOrUrl) ==> r == pathOrUrl
    ensures pathOrUrl != "" && !IsHttpUrl(pathOrUrl) ==>
      StartsWith(r, baseUrl + "/") && |pathOrUrl| <= |r| <= |baseUrl| + 1 + |pathOrUrl| && r[|r| - |pathOrUrl|..] == pathOrUrl
    ensures pathOrUrl != "" && !IsHttpUrl(pathOrUrl) && pathOrUrl[0] == '/' ==> r == baseUrl + pathOrUrl
    ensures pathOrUrl != "" && !IsHttpUrl(pathOrUrl) && pathOrUrl[0] != '/' ==> r == baseUrl + "/" + pathOrUrl
    ensures IsHttpUrl(baseUrl) ==> IsHttpUrl(r)
  {
    if pathOrUrl == "" then
      HttpUrlAppend(baseUrl, DefaultOgImagePath);
      baseUrl + DefaultOgImagePath
    else if IsHttpUrl(pathOrUrl) then pathOrUrl
    else
      var sep := if pathOrUrl[0] == '/' then "" else "/";
      HttpUrlAppend(baseUrl, sep + pathOrUrl);
      assert baseUrl + sep + pathOrUrl == baseUrl + (sep + pathOrUrl);
      baseUrl + sep + pathOrUrl
  }

  /** Against an absolute base, making a URL absolute twice changes nothing more. */
  lemma ToAbsoluteUrlIdempotent(pathOrUrl: string, baseUrl: string)
    requires IsHttpUrl(baseUrl)
    ensures ToAbsoluteUrl(ToAbsoluteUrl(pathOrUrl, baseUrl), baseUrl) == ToAbsoluteUrl(pathOrUrl, baseUrl)
  {
  }

  // ---------------------------------------------------------------------
  // extractKeywordsBG

  // The stop-word list of `extractKeywordsBG`, one group per source line.
  const StopwordGroup1: set<string> :=
    {"и", "в", "на", "с", "за", "по", "от", "до", "че", "как", "кои", "кой", "кога", "къде",
     "защо", "тъй", "като", "не", "да", "ще", "са", "е", "съм", "сме", "сте"}
  const StopwordGroup2: set<string> :=
    {"или", "но", "ако", "защото", "така", "само", "още", "при", "между", "без", "над", "под",
     "след", "преди", "тук", "там", "този", "тази", "тези", "това"}
  const StopwordGroup3: set<string> :=
    {"ни", "ви", "си", "му", "ѝ", "им", "ми", "ти", "го", "я", "ги", "наш", "ваш", "техен",
     "техни", "много", "повече", "най", "вече", "поради", "относно"}
  const StopwordGroup4: set<string> :=
    {"също", "може", "трябва", "беше", "били", "\U{0431}\U{044A}\U{0434}e", "има", "имат", "имаме",
     "имате", "имаха"}

  /** The stop-word set exactly as the source lists it: its `бъде` ends in a Latin `e`. */
  const StopwordsAsWritten: set<string> := StopwordGroup1 + StopwordGroup2 + StopwordGroup3 + StopwordGroup4

  /** The stop-word set with `бъде` spelled in Cyrillic throughout. */
  const Stopwords: set<string> := StopwordsAsWritten - {"\U{0431}\U{044A}\U{0434}e"} + {"бъде"}

  /** The characters `/[^a-zа-я0-9\s]/gi` leaves in place. */
  predicate KeepChar(c: char) {
    IsAsciiLower(c) || 'A' <= c <= 'Z' || IsCyrillicLower(c) || '\U{0410}' <= c <= '\U{042F}'
    || IsDigit(c) || IsJsSpace(c)
  }

  /** The characters a keyword token is made of. */
  predicate IsTokenChar(c: char) { IsAsciiLower(c) || IsCyrillicLower(c) || IsDigit(c) }

  /** `replace(/[^a-zа-я0-9\s]/gi, ' ')`. */
  function Normalize(s: string): (r: string)
    ensures |r| == |s|
    ensures forall i :: 0 <= i < |s| ==> r[i] == if KeepChar(s[i]) then s[i] else ' '
  {
    if s == [] then [] else [if KeepChar(s[0]) then s[0] else ' '] + Normalize(s[1..])
  }

  /** The length of the leading run of non-space characters. */
  function WordLen(s: string): (n: nat)
    ensures n <= |s|
    ensures forall i :: 0 <= i < n ==> !IsJsSpace(s[i])
    ensures s != [] && !IsJsSpace(s[0]) ==> n >= 1
  {
    if s == [] || IsJsSpace(s[0]) then 0 else 1 + WordLen(s[1..])
  }

  /** `split(/\s+/).filter(Boolean)`: the maximal runs of non-space characters. */
  function Words(s: string): (r: seq<string>)
    ensures forall w :: w in r ==> w != [] && forall i :: 0 <= i < |w| ==> !IsJsSpace(w[i]) && w[i] in s
    ensures r == [] <==> forall i :: 0 <= i < |s| ==> IsJsSpace(s[i])
    decreases |s|
  {
    if s == [] then []
    else if IsJsSpace(s[0]) then Words(s[1..])
    else
      var n := WordLen(s);
      [s[..n]] + Words(s[n..])
  }

  /** A word stops at the first white space, whatever follows it. */
  lemma {:induction false} WordLenBeforeSpace(a: string, t: string)
    requires t != [] && IsJsSpace(t[0])
    ensures WordLen(a + t) == WordLen(a)
  {
    if a != [] {
      assert (a + t)[1..] == a[1..] + t;
      WordLenBeforeSpace(a[1..], t);
    }
  }

  lemma WordsSkipSpace(s: string)
    requires s != [] && IsJsSpace(s[0])
    ensures Words(s) == Words(s[1..])
  {
  }

  lemma WordsTakeWord(s: string)
    requires s != [] && !IsJsSpace(s[0])
    ensures Words(s) == [s[..WordLen(s)]] + Words(s[WordLen(s)..])
  {
  }

  /**
   * Splitting works at every white-space character: the words of `a`, a
   * space and `b` are the words of `a` followed by the words of `b`.
   */
  lemma {:induction false} WordsAtSpace(a: string, c: char, b: string)
    requires IsJsSpace(c)
    ensures Words(a + [c] + b) == Words(a) + Words(b)
    decreases |a|
  {
    var s := a + [c] + b;
    if a == [] {
      assert s == [c] + b && s[1..] == b;
      WordsSkipSpace(s);
    } else if IsJsSpace(a[0]) {
      assert s[1..] == a[1..] + [c] + b;
      WordsAtSpace(a[1..], c, b);
      WordsSkipSpace(s);
      WordsSkipSpace(a);
    } else {
      WordsAtSpace(a[WordLen(a)..], c, b);
      WordsAtSpaceAfterWord(a, c, b);
    }
  }

  /** The step of `WordsAtSpace` past a leading word, given the rest already splits. */
  lemma {:induction false} WordsAtSpaceAfterWord(a: string, c: char, b: string)
    requires IsJsSpace(c) && a != [] && !IsJsSpace(a[0])
    requires Words(a[WordLen(a)..] + [c] + b) == Words(a[WordLen(a)..]) + Words(b)
    ensures Words(a + [c] + b) == Words(a) + Words(b)
  {
    var n := WordLen(a);
    WordsPastWord(a, [c] + b);
    AppendAssoc(a, [c], b);
    AppendAssoc(a[n..], [c], b);
    WordsTakeWord(a);
    AppendAssoc([a[..n]], Words(a[n..]), Words(b));
  }

  /** A word that ends at white space is the first word of the whole text. */
  lemma {:induction false} WordsPastWord(a: string, t: string)
    requires a != [] && !IsJsSpace(a[0]) && t != [] && IsJsSpace(t[0])
    ensures Words(a + t) == [a[..WordLen(a)]] + Words(a[WordLen(a)..] + t)
  {
    var n := WordLen(a);
    WordLenBeforeSpace(a, t);
    assert (a + t)[..n] == a[..n];
    assert (a + t)[n..] == a[n..] + t;
    WordsTakeWord(a + t);
  }

  /** The tokens of `text`: normalised words longer than two characters that are not stop-words. */
  function Tokens(text: string, stop: set<string>): seq<string> {
    Filter(Words(Normalize(Lower(text))), (w: string) => w !in stop && |w| > 2)
  }

  lemma LowerCharNotUpper(c: char)
    ensures !('A' <= LowerChar(c) <= 'Z') && !('\U{0410}' <= LowerChar(c) <= '\U{042F}')
  {
  }

  /**
   * Every token is longer than two characters, is not a stop-word, and is made
   * of small Latin letters, small Cyrillic letters and digits only.
   */
  lemma TokensShape(text: string, stop: set<string>)
    ensures forall w :: w in Tokens(text, stop) ==>
      |w| > 2 && w !in stop && forall i :: 0 <= i < |w| ==> IsTokenChar(w[i])
  {
    var low := Lower(text);
    var norm := Normalize(low);
    forall w | w in Tokens(text, stop) ensures forall i :: 0 <= i < |w| ==> IsTokenChar(w[i]) {
      assert w in Words(norm);
      forall i | 0 <= i < |w| ensures IsTokenChar(w[i]) {
        var k :| 0 <= k < |norm| && norm[k] == w[i];
        LowerCharNotUpper(text[k]);
      }
    }
  }

  /** `freq.get(w)`, after counting every token: the number of occurrences of `w`. */
  function CountKey(tokens: seq<string>): string -> int {
    (w: string) => multiset(tokens)[w]
  }

  /**
   * The distinct tokens in order of first occurrence (the insertion order of
   * the frequency map), stably sorted by descending count.
   */
  function Ranked(tokens: seq<string>): seq<string> {
    SortDescBy(Distinct(tokens), CountKey(tokens))
  }

  function LowerAll(xs: seq<string>): (r: seq<string>)
    ensures |r| == |xs| && forall i :: 0 <= i < |xs| ==> r[i] == Lower(xs[i])
  {
    if xs == [] then [] else [Lower(xs[0])] + LowerAll(xs[1..])
  }

  /**
   * The keywords `extractKeywordsBG(text, extra, max)` returns when its
   * stop-word set is `stop`; the source's own set is `StopwordsAsWritten`.
   */
  function Keywords(text: string, extra: seq<string>, max: int, stop: set<string>): (r: seq<string>)
    ensures max >= 0 ==> |r| <= max
    ensures text == "" ==> r == SliceTo(extra, max)
  {
    if text == "" then SliceTo(extra, max)
    else SliceTo(Distinct(LowerAll(extra) + Ranked(Tokens(text, stop))), max)
  }

  /** The ranking lists each token once, every token, and by non-increasing count. */
  lemma RankedSound(tokens: seq<string>)
    ensures NoDups(Ranked(tokens))
    ensures forall w :: w in Ranked(tokens) <==> w in tokens
    ensures SortedDescBy(Ranked(tokens), CountKey(tokens))
  {
    var d := Distinct(tokens);
    PermutationNoDups(d, Ranked(tokens));
    forall w ensures w in Ranked(tokens) <==> w in d {
      assert w in Ranked(tokens) <==> w in multiset(Ranked(tokens));
    }
  }

  lemma PrefixNoDups<T>(s: seq<T>, n: nat)
    requires NoDups(s) && n <= |s|
    ensures NoDups(s[..n])
  {
  }

  /**
   * For a non-empty text: no keyword repeats, and the keywords are the
   * lower-cased extras (deduplicated) followed by the ranked tokens not
   * already among them, cut to `max`.
   */
  lemma KeywordsLayout(text: string, extra: seq<string>, max: int, stop: set<string>)
    requires text != ""
    ensures NoDups(Keywords(text, extra, max, stop))
    ensures Keywords(text, extra, max, stop) ==
      SliceTo(Distinct(LowerAll(extra)) + Filter(Ranked(Tokens(text, stop)), (w: string) => w !in LowerAll(extra)), max)
  {
    var ranked := Ranked(Tokens(text, stop));
    RankedSound(Tokens(text, stop));
    DistinctAppend(LowerAll(extra), ranked);
    var all := Distinct(LowerAll(extra) + ranked);
    var r := Keywords(text, extra, max, stop);
    PrefixNoDups(all, |r|);
  }

  /** A stop-word, however it is capitalised in the text, is never a keyword drawn from the text. */
  lemma StopwordNeverToken(text: string, w: string, stop: set<string>)
    requires w in stop
    ensures w !in Tokens(text, stop)
  {
    TokensShape(text, stop);
  }

  /**
   * The counting loop of `extractKeywordsBG`: the map's keys in insertion
   * order, and each key's number of occurrences.
   */
  method CountTokens(tokens: seq<string>) returns (keys: seq<string>, freq: map<string, int>)
    ensures keys == Distinct(tokens)
    ensures forall w :: w in freq <==> w in tokens
    ensures forall w :: w in freq ==> freq[w] == multiset(tokens)[w]
  {
    freq := map[];
    keys := [];
    var i := 0;
    while i < |tokens|
      invariant 0 <= i <= |tokens|
      invariant Tallied(tokens[..i], keys, freq)
    {
      assert tokens[..i + 1] == tokens[..i] + [tokens[i]];
      keys, freq := Tally(tokens[..i], keys, freq, tokens[i]);
      i := i + 1;
    }
    assert tokens[..|tokens|] == tokens;
  }

  /** `keys` and `freq` are the first occurrences and the counts of the tokens `seen`. */
  ghost predicate Tallied(seen: seq<string>, keys: seq<string>, freq: map<string, int>) {
    keys == Distinct(seen) &&
    (forall w :: w in freq <==> w in seen) &&
    (forall w :: w in freq ==> freq[w] == multiset(seen)[w])
  }

  /** One turn of the counting loop: a new token is added to the keys, and its count goes up by one. */
  method Tally(ghost seen: seq<string>, keys: seq<string>, freq: map<string, int>, t: string)
    returns (keys': seq<string>, freq': map<string, int>)
    requires Tallied(seen, keys, freq)
    ensures Tallied(seen + [t], keys', freq')
  {
    DistinctSnoc(seen, t);
    keys' := if t in freq then keys else keys + [t];
    freq' := freq[t := (if t in freq then freq[t] else 0) + 1];
    assert multiset(seen + [t]) == multiset(seen) + multiset{t};
  }

  /**
   * `extractKeywordsBG`: counts the tokens, ranks the map's keys by count,
   * puts the lower-cased extras in front, deduplicates and keeps the first `max`.
   */
  method ExtractKeywordsBG(text: string, extra: seq<string>, max: int) returns (r: seq<string>)
    ensures r == Keywords(text, extra, max, StopwordsAsWritten)
  {
    if text == "" {
      return SliceTo(extra, max);
    }
    var tokens := Tokens(text, StopwordsAsWritten);
    var keys, freq := CountTokens(tokens);
    var byFreq := (w: string) => if w in freq then freq[w] else 0;
    var ranked := SortDescBy(keys, byFreq);
    SortSameKeys(keys, byFreq, CountKey(tokens));
    r := SliceTo(Distinct(LowerAll(extra) + ranked), max);
  }

  lemma WordsOfBade()
    ensures Words(Normalize(Lower("бъде"))) == ["бъде"]
  {
    LowerBade();
    NormalizeBade();
    SingleWord("бъде");
  }

  lemma LowerBade()
    ensures Lower("бъде") == "бъде"
  {
    var s := "бъде";
    forall i | 0 <= i < |s| ensures LowerChar(s[i]) == s[i] { LowerCharFixes(s[i]); }
  }

  lemma NormalizeBade()
    ensures Normalize("бъде") == "бъде"
  {
  }

  /** A non-empty run of non-space characters is one word. */
  lemma SingleWord(s: string)
    requires s != [] && forall i :: 0 <= i < |s| ==> !IsJsSpace(s[i])
    ensures Words(s) == [s]
  {
    WordLenAll(s);
    assert s[..|s|] == s && s[|s|..] == [];
  }

  lemma {:induction false} WordLenAll(s: string)
    requires forall i :: 0 <= i < |s| ==> !IsJsSpace(s[i])
    ensures WordLen(s) == |s|
  {
    if s != [] {
      WordLenAll(s[1..]);
    }
  }

  lemma BadeNotInFirstGroups()
    ensures "бъде" !in StopwordGroup1 && "бъде" !in StopwordGroup2
  {
    assert "бъде" !in StopwordGroup1;
  }

  lemma BadeNotInLastGroups()
    ensures "бъде" !in StopwordGroup3 && "бъде" !in StopwordGroup4
  {
    assert "бъде" !in StopwordGroup3;
  }

  lemma BadeNotListed()
    ensures "бъде" !in StopwordsAsWritten
  {
    BadeNotInFirstGroups();
    BadeNotInLastGroups();
  }

  /** The stop-word `бъде` as the source lists it does not catch the Cyrillic word. */
  lemma BadeSurvivesAsWritten()
    ensures "бъде" in Tokens("бъде", StopwordsAsWritten)
  {
    WordsOfBade();
    BadeNotListed();
  }

  /** With the corrected set, `бъде` is never a keyword drawn from the text. */
  lemma BadeDroppedCorrected(text: string)
    ensures "бъде" !in Tokens(text, Stopwords)
  {
    StopwordNeverToken(text, "бъде", Stopwords);
  }

  /** A text whose only token is `w`, with no extras, has `w` as its one keyword. */
  lemma SingleTokenKeyword(text: string, max: int, stop: set<string>, w: string)
    requires text != "" && max >= 1 && Tokens(text, stop) == [w]
    ensures Keywords(text, [], max, stop) == [w]
  {
    var tokens := [w];
    assert Distinct(tokens) == [w];
    assert SortDescBy([w], CountKey(tokens)) == [w];
    assert LowerAll([]) + Ranked(tokens) == [w];
  }

  /** The word `бъде` is the only token of the text `бъде` under the source's set. */
  lemma BadeOnlyToken()
    ensures Tokens("бъде", StopwordsAsWritten) == ["бъде"]
  {
    WordsOfBade();
    BadeNotListed();
    OneWordToken("бъде", StopwordsAsWritten, "бъде");
  }

  /** A text of one word that is long enough and not a stop-word has that word as its only token. */
  lemma OneWordToken(text: string, stop: set<string>, w: string)
    requires Words(Normalize(Lower(text))) == [w] && w !in stop && |w| > 2
    ensures Tokens(text, stop) == [w]
  {
    var tokens := Tokens(text, stop);
    assert w in tokens;
    assert |tokens| <= 1;
  }

  /** As written, `extractKeywordsBG("бъде")` returns the stop-word itself as its one keyword. */
  lemma BadeKeywordAsWritten()
    ensures Keywords("бъде", [], 12, StopwordsAsWritten) == ["бъде"]
  {
    BadeOnlyToken();
    SingleTokenKeyword("бъде", 12, StopwordsAsWritten, "бъде");
  }

  /** With the corrected set, `бъде` is never a keyword unless the caller supplies it. */
  lemma BadeKeywordCorrected(text: string, extra: seq<string>, max: int)
    requires "бъде" !in extra && "бъде" !in LowerAll(extra)
    ensures "бъде" !in Keywords(text, extra, max, Stopwords)
  {
    if text != "" {
      var tokens := Tokens(text, Stopwords);
      BadeDroppedCorrected(text);
      RankedSound(tokens);
      var all := Distinct(LowerAll(extra) + Ranked(tokens));
      assert "бъде" !in LowerAll(extra) + Ranked(tokens);
      var r := Keywords(text, extra, max, Stopwords);
      assert r == all[..|r|];
    } else {
      var r := Keywords(text, extra, max, Stopwords);
      assert r == extra[..|r|];
    }
  }

  // ---------------------------------------------------------------------
  // generateSEOMetadata

  const SiteDomain := "stox.bg"
  const TitleSeparator := " | "

  /** `title` if it already names the site (in any case), else `title | stox.bg`. */
  function FullTitle(title: string): (r: string)
    ensures Contains(Lower(title), SiteDomain) ==> r == title
    ensures !Contains(Lower(title), SiteDomain) ==> r == title + TitleSeparator + SiteDomain
  {
    if Contains(Lower(title), SiteDomain) then title else title + TitleSeparator + SiteDomain
  }

  /** The full title always names the site, whatever the case. */
  lemma FullTitleNamesSite(title: string)
    ensures Contains(Lower(FullTitle(title)), SiteDomain)
  {
    if !Contains(Lower(title), SiteDomain) {
      SiteDomainLower();
      LowerAppend(title + TitleSeparator, SiteDomain);
      ContainsSuffix(Lower(title + TitleSeparator), SiteDomain);
    }
  }

  /** The site's domain is already lower-case. */
  lemma SiteDomainLower()
    ensures Lower(SiteDomain) == SiteDomain
  {
    forall i | 0 <= i < |SiteDomain| ensures LowerChar(SiteDomain[i]) == SiteDomain[i] {
      LowerCharFixes(SiteDomain[i]);
    }
  }

  /** Composing the title of a composed title changes nothing. */
  lemma FullTitleIdempotent(title: string)
    ensures FullTitle(FullTitle(title)) == FullTitle(title)
  {
    FullTitleNamesSite(title);
  }

  const DefaultSeoKeywords: seq<string> := [
    "акции българия", "инвестиции", "финанси", "пазари", "анализи",
    "stox.bg", "stox бг", "акции бг", "сайт за акции", "давид петков"]

  /**
   * The keyword line is the ten defaults followed by the page's keywords, in
   * order and without deduplication, all joined with `, `.
   */
  lemma SeoKeywordLine(keywords: seq<string>)
    ensures keywords == [] ==> Join(DefaultSeoKeywords + keywords, ", ") == Join(DefaultSeoKeywords, ", ")
    ensures keywords != [] ==>
      Join(DefaultSeoKeywords + keywords, ", ") == Join(DefaultSeoKeywords, ", ") + ", " + Join(keywords, ", ")
  {
    if keywords == [] {
      assert DefaultSeoKeywords + keywords == DefaultSeoKeywords;
    } else {
      JoinAppend(DefaultSeoKeywords, keywords, ", ");
    }
  }

  datatype PageType = Website | Article

  /** The arguments of `generateSEOMetadata`; `None` is an omitted argument. */
  datatype SeoInput = SeoInput(
    title: string,
    description: string,
    keywords: seq<string>,
    canonical: Option<string>,
    ogImage: Option<string>,
    publishedTime: Option<string>,
    modifiedTime: Option<string>,
    author: Option<string>,
    locale: Option<string>,
    pageType: Option<PageType>)

  datatype Robots = Robots(
    index: bool, follow: bool, googleBotIndex: bool, googleBotFollow: bool,
    maxVideoPreview: int, maxImagePreview: string, maxSnippet: int)

  datatype OgImage = OgImage(url: string, width: int, height: int, alt: string)
  datatype OgArticle = OgArticle(publishedTime: Option<string>, modifiedTime: Option<string>, authors: seq<string>)
  datatype OpenGraph = OpenGraph(
    pageType: PageType, locale: string, url: string, title: string, description: string,
    siteName: string, images: seq<OgImage>, article: Option<OgArticle>)
  datatype Twitter = Twitter(card: string, title: string, description: string, images: seq<string>, creator: string)
  /** The `other` meta tags of an article page. */
  datatype ArticleTimes = ArticleTimes(publishedTime: string, modifiedTime: string, updatedTime: string)
  datatype Alternates = Alternates(canonical: string, bgBG: string, enUS: string)

  datatype SeoMetadata = SeoMetadata(
    title: string,
    description: string,
    keywords: string,
    metadataBase: string,
    authors: seq<string>,
    creator: string,
    publisher: string,
    robots: Robots,
    openGraph: OpenGraph,
    twitter: Twitter,
    other: Option<ArticleTimes>,
    alternates: Alternates,
    googleVerification: Option<string>)

  lemma BaseUrlIsHttp()
    ensures IsHttpUrl(BaseUrl)
  {
    assert BaseUrl[..8] == "https://";
  }

  /** The page URL: the base, followed by the canonical path when one is given. */
  function PageUrl(canonical: Option<string>): (url: string)
    ensures StartsWith(url, BaseUrl)
    ensures Truthy(canonical) ==> url == BaseUrl + canonical.value
    ensures !Truthy(canonical) ==> url == BaseUrl
  {
    if Truthy(canonical) then BaseUrl + canonical.value else BaseUrl
  }

  /** The page image, always an absolute URL. */
  function PageImage(ogImage: Option<string>): (url: string)
    ensures IsHttpUrl(url)
    ensures url == ToAbsoluteUrl(OrElse(ogImage, DefaultOgImagePath), BaseUrl)
  {
    BaseUrlIsHttp();
    ToAbsoluteUrl(OrElse(ogImage, DefaultOgImagePath), BaseUrl)
  }

  /** The article times of the `other` tags: present only for a dated article, never empty. */
  function ArticleMeta(pageType: PageType, publishedTime: Option<string>, modifiedTime: Option<string>): (r: Option<ArticleTimes>)
    ensures r.Some? <==> pageType == Article && Truthy(publishedTime)
    ensures r.Some? ==>
      r.value.publishedTime == publishedTime.value && r.value.modifiedTime == r.value.updatedTime &&
      r.value.modifiedTime == OrElse(modifiedTime, publishedTime.value) && r.value.modifiedTime != ""
  {
    if pageType == Article && Truthy(publishedTime)
    then
      var t := OrElse(modifiedTime, publishedTime.value);
      Some(ArticleTimes(publishedTime.value, t, t))
    else None
  }

  const BgSegment: string := "/bg/"
  const EnSegment: string := "/en/"
  const DefaultLocale: string := "bg_BG"
  const LargeImageCard: string := "summary_large_image"
  const TwitterHandle: string := "@stoxbg"
  const LargePreview: string := "large"

  /**
   * `generateSEOMetadata`. The environment's `GOOGLE_VERIFICATION_ID` is the
   * parameter `googleVerificationId`.
   */
  function GenerateSEOMetadata(input: SeoInput, googleVerificationId: Option<string>): (r: SeoMetadata)
    ensures r.title == FullTitle(input.title) && r.openGraph.title == r.title && r.twitter.title == r.title
    ensures r.description == input.description && r.openGraph.description == input.description
      && r.twitter.description == input.description
    ensures r.keywords == Join(DefaultSeoKeywords + input.keywords, ", ")
    ensures r.openGraph.url == PageUrl(input.canonical)
    ensures r.alternates.canonical == r.openGraph.url && r.alternates.bgBG == r.openGraph.url
    ensures !Contains(r.openGraph.url, BgSegment) ==> r.alternates.enUS == r.openGraph.url
    ensures r.openGraph.images == [OgImage(PageImage(input.ogImage), 1200, 630, input.title)]
    ensures r.twitter.images == [PageImage(input.ogImage)]
    ensures r.openGraph.article.Some? <==> input.pageType == Some(Article)
    ensures r.openGraph.article.Some? ==>
      r.openGraph.article.value == OgArticle(input.publishedTime, Or(input.modifiedTime, input.publishedTime), [r.creator])
    ensures r.other == ArticleMeta(input.pageType.GetOr(Website), input.publishedTime, input.modifiedTime)
    ensures r.creator == input.author.GetOr(DefaultAuthor) && r.authors == [r.creator]
    ensures r.robots.index && r.robots.follow && r.robots.googleBotIndex && r.robots.googleBotFollow
    ensures r.googleVerification == googleVerificationId
  {
    var pageType := input.pageType.GetOr(Website);
    var author := input.author.GetOr(DefaultAuthor);
    var fullTitle := FullTitle(input.title);
    var url := PageUrl(input.canonical);
    var imageUrl := PageImage(input.ogImage);
    ReplaceFirstAbsent(url, BgSegment, EnSegment);
    SeoMetadata(
      fullTitle,
      input.description,
      Join(DefaultSeoKeywords + input.keywords, ", "),
      BaseUrl,
      [author],
      author,
      SiteName,
      Robots(true, true, true, true, -1, LargePreview, -1),
      OpenGraph(
        pageType, input.locale.GetOr(DefaultLocale), url, fullTitle, input.description, SiteName,
        [OgImage(imageUrl, 1200, 630, input.title)],
        if pageType == Article
        then Some(OgArticle(input.publishedTime, Or(input.modifiedTime, input.publishedTime), [author]))
        else None),
      Twitter(LargeImageCard, fullTitle, input.description, [imageUrl], TwitterHandle),
      ArticleMeta(pageType, input.publishedTime, input.modifiedTime),
      Alternates(url, url, ReplaceFirst(url, BgSegment, EnSegment)),
      googleVerificationId)
  }

  // ---------------------------------------------------------------------
  // schema.org records

  const ArticleBaseKeywords: seq<string> := ["акции", "инвестиции", "анализ", "пазари", "финанси"]
  const LogoUrl: string := "https://stox.bg/images/logos/stox-logo.png"

  /** An `Article` record; the constant `@context`, `@type`s and publisher name are left implicit. */
  datatype ArticleSchema = ArticleSchema(
    headline: string,
    description: string,
    authorName: string,
    publisherLogo: string,
    datePublished: string,
    dateModified: string,
    url: string,
    image: Option<string>,
    inLanguage: string,
    about: Option<string>,
    keywords: string)

  /** `generateArticleSchema`. */
  function GenerateArticleSchema(
    title: string, description: string, author: Option<string>, publishedTime: string,
    modifiedTime: Option<string>, url: string, imageUrl: Option<string>, ticker: Option<string>): (r: ArticleSchema)
    ensures r.headline == title && r.url == url && r.image == imageUrl && r.datePublished == publishedTime
    ensures r.authorName == author.GetOr(DefaultAuthor)
    ensures r.dateModified == OrElse(modifiedTime, publishedTime)
    ensures r.about.Some? <==> Truthy(ticker)
    ensures r.about.Some? ==> r.about.value == ticker.value + " акции анализ"
    ensures !Truthy(ticker) ==> r.keywords == Join(ArticleBaseKeywords, ", ")
    ensures Truthy(ticker) ==>
      r.keywords == Join(ArticleBaseKeywords, ", ") + ", " + ticker.value + " акции, " + ticker.value + " анализ"
  {
    var extra := if Truthy(ticker) then [ticker.value + " акции", ticker.value + " анализ"] else [];
    if Truthy(ticker) then
      JoinAppend(ArticleBaseKeywords, extra, ", ");
      assert Join(extra, ", ") == ticker.value + " акции" + ", " + ticker.value + " анализ";
      ArticleRecord(title, description, author, publishedTime, modifiedTime, url, imageUrl, ticker, ArticleBaseKeywords + extra)
    else
      assert ArticleBaseKeywords + extra == ArticleBaseKeywords;
      ArticleRecord(title, description, author, publishedTime, modifiedTime, url, imageUrl, ticker, ArticleBaseKeywords + extra)
  }

  function ArticleRecord(
    title: string, description: string, author: Option<string>, publishedTime: string,
    modifiedTime: Option<string>, url: string, imageUrl: Option<string>, ticker: Option<string>,
    keywords: seq<string>): ArticleSchema
  {
    ArticleSchema(
      title, description, author.GetOr(DefaultAuthor), LogoUrl, publishedTime,
      OrElse(modifiedTime, publishedTime), url, imageUrl, "bg-BG",
      if Truthy(ticker) then Some(ticker.value + " акции анализ") else None,
      Join(keywords, ", "))
  }

  /** The offer as emitted: the price as the text `price.toString()` gives. */
  datatype Offer = Offer(price: string, priceCurrency: string)
  datatype FinancialProductSchema = FinancialProductSchema(name: string, description: string, offers: Option<Offer>, url: string)

  /** JavaScript truthiness of an optional number: present and not zero. */
  predicate TruthyNumber(x: Option<real>) { x.Some? && x.value != 0.0 }

  /**
   * `generateFinancialProductSchema`; `render` is JavaScript's
   * `Number.prototype.toString` for the price.
   */
  function GenerateFinancialProductSchema(
    ticker: string, companyName: string, description: string, price: Option<real>, currency: Option<string>,
    render: real -> string): (r: FinancialProductSchema)
    ensures r.name == companyName + " (" + ticker + ")"
    ensures r.offers.Some? <==> TruthyNumber(price)
    ensures r.offers.Some? ==> r.offers.value == Offer(render(price.value), currency.GetOr("USD"))
    ensures StartsWith(r.url, "https://stox.bg/stocks/") && r.url[|"https://stox.bg/stocks/"|..] == Lower(ticker)
  {
    FinancialProductSchema(
      companyName + " (" + ticker + ")",
      description,
      if TruthyNumber(price) then Some(Offer(render(price.value), currency.GetOr("USD"))) else None,
      "https://stox.bg/stocks/" + Lower(ticker))
  }

  /** The product URL ignores the ticker's case: `aapl` and `AAPL` give the same page. */
  lemma FinancialProductUrlCaseInsensitive(ticker: string, companyName: string, description: string, render: real -> string)
    ensures GenerateFinancialProductSchema(ticker, companyName, description, None, None, render).url ==
            GenerateFinancialProductSchema(Lower(ticker), companyName, description, None, None, render).url
  {
    LowerIdempotent(ticker);
  }

  datatype Faq = Faq(question: string, answer: string)
  /** A `Question` with its `acceptedAnswer` text. */
  datatype Question = Question(name: string, acceptedAnswer: string)

  /** The `mainEntity` of `generateFAQSchema`: one question per pair, in order. */
  function FaqEntities(faqs: seq<Faq>): (r: seq<Question>)
    ensures |r| == |faqs|
    ensures forall i :: 0 <= i < |faqs| ==> r[i] == Question(faqs[i].question, faqs[i].answer)
  {
    if faqs == [] then [] else [Question(faqs[0].question, faqs[0].answer)] + FaqEntities(faqs[1..])
  }

  /** Reading the pairs back out of the questions. */
  function FaqsOf(qs: seq<Question>): seq<Faq> {
    if qs == [] then [] else [Faq(qs[0].name, qs[0].acceptedAnswer)] + FaqsOf(qs[1..])
  }

  /** The FAQ page loses nothing: the pairs can be read back from it. */
  lemma {:induction false} FaqRoundTrip(faqs: seq<Faq>)
    ensures FaqsOf(FaqEntities(faqs)) == faqs
  {
    if faqs != [] {
      FaqRoundTrip(faqs[1..]);
    }
  }

  datatype Crumb = Crumb(name: string, url: string)
  datatype ListItem = ListItem(position: int, name: string, item: string)

  /** `items.map((item, index) => ...)` with positions counted from `start`. */
  function ListItems(items: seq<Crumb>, start: int): (r: seq<ListItem>)
    ensures |r| == |items|
    ensures forall i :: 0 <= i < |items| ==> r[i] == ListItem(start + i, items[i].name, items[i].url)
  {
    if items == [] then [] else [ListItem(start, items[0].name, items[0].url)] + ListItems(items[1..], start + 1)
  }

  /** The `itemListElement` of `generateBreadcrumbSchema`: one item per crumb, numbered from 1. */
  function GenerateBreadcrumbSchema(items: seq<Crumb>): (r: seq<ListItem>)
    ensures |r| == |items|
    ensures forall i :: 0 <= i < |r| ==> r[i].position == i + 1
  {
    ListItems(items, 1)
  }

  function CrumbsOf(list: seq<ListItem>): seq<Crumb> {
    if list == [] then [] else [Crumb(list[0].name, list[0].item)] + CrumbsOf(list[1..])
  }

  /** The breadcrumbs can be read back from the list, in their order. */
  lemma {:induction false} BreadcrumbRoundTrip(items: seq<Crumb>, start: int)
    ensures CrumbsOf(ListItems(items, start)) == items
  {
    if items != [] {
      BreadcrumbRoundTrip(items[1..], start + 1);
    }
  }

  // ---------------------------------------------------------------------
  // generateAISummary and generateHreflangLinks

  predicate IsSentenceEnd(c: char) { c == '.' || c == '!' || c == '?' }

  /** Drops the leading run of sentence terminators. */
  function DropTerminators(s: string): (r: string)
    ensures |r| <= |s| && r == s[|s| - |r|..]
    ensures r == [] || !IsSentenceEnd(r[0])
  {
    if s != [] && IsSentenceEnd(s[0]) then DropTerminators(s[1..]) else s
  }

  /** `split(/[.!?]+/)`: the pieces between runs of terminators, empty ones at the ends included. */
  function Sentences(s: string): (r: seq<string>)
    ensures |r| >= 1
    ensures forall p :: p in r ==> forall i :: 0 <= i < |p| ==> !IsSentenceEnd(p[i])
    decreases |s|
  {
    if s == [] then [""]
    else if IsSentenceEnd(s[0]) then [""] + Sentences(DropTerminators(s[1..]))
    else
      var rest := Sentences(s[1..]);
      assert rest[0] in rest;
      [[s[0]] + rest[0]] + rest[1..]
  }

  predicate NoTerminator(s: string) {
    forall i :: 0 <= i < |s| ==> !IsSentenceEnd(s[i])
  }

  /** Text without a terminator is one piece. */
  lemma {:induction false} SentencesWhole(a: string)
    requires NoTerminator(a)
    ensures Sentences(a) == [a]
  {
    if a != [] {
      assert NoTerminator(a[1..]);
      SentencesWhole(a[1..]);
      assert [a[0]] + a[1..] == a;
    }
  }

  /**
   * A terminator run ends the first piece: for a piece `a`, a terminator
   * and the rest `b`, the pieces are `a`, then those of `b` once its own
   * leading terminators (the rest of the run) are dropped.
   */
  lemma {:induction false} SentencesAtTerminator(a: string, t: char, b: string)
    requires NoTerminator(a) && IsSentenceEnd(t)
    ensures Sentences(a + [t] + b) == [a] + Sentences(DropTerminators(b))
  {
    var s := a + [t] + b;
    if a == [] {
      assert s == [t] + b && s[1..] == b;
    } else {
      assert s[1..] == a[1..] + [t] + b;
      SentencesAtTerminator(a[1..], t, b);
      assert [a[0]] + a[1..] == a;
    }
  }

  function LongEnough(p: string): bool { |Trim(p)| > 10 }

  /** The first three sentences longer than ten characters once trimmed. */
  function KeySentences(content: string): (r: seq<string>)
    ensures var q := Filter(Sentences(content), LongEnough);
      |r| == (if |q| < 3 then |q| else 3) && r == q[..|r|]
    ensures |r| <= 3
    ensures forall p :: p in r ==> |Trim(p)| > 10 && p in Sentences(content)
    ensures forall p :: p in r ==> forall i :: 0 <= i < |p| ==> !IsSentenceEnd(p[i])
  {
    Take(Filter(Sentences(content), LongEnough), 3)
  }

  const SummaryPrefix: string := "Summary: "

  /** `generateAISummary`. */
  function GenerateAISummary(content: string): (r: string)
    ensures r == SummaryPrefix + Join(KeySentences(content), ". ") + "."
    ensures StartsWith(r, SummaryPrefix) && EndsWith(r, ".")
  {
    var r := SummaryPrefix + (Join(KeySentences(content), ". ") + ".");
    StartsWithAppend(SummaryPrefix, Join(KeySentences(content), ". ") + ".");
    EndsWithAppend(SummaryPrefix, Join(KeySentences(content), ". "), ".");
    r
  }

  /**
   * The key sentences can be read back from a summary that has any: they
   * hold no `.`, so splitting its body at `. ` recovers them in order.
   */
  lemma SummaryRoundTrip(content: string)
    requires KeySentences(content) != []
    ensures var r := GenerateAISummary(content);
      |r| >= |SummaryPrefix| + 1 && Split(r[|SummaryPrefix|..|r| - 1], ". ") == KeySentences(content)
  {
    var ks := KeySentences(content);
    var body := Join(ks, ". ");
    var r := GenerateAISummary(content);
    assert r[|SummaryPrefix|..|r| - 1] == body;
    forall i | 0 <= i < |ks| ensures '.' !in ks[i] {
      assert ks[i] in ks;
    }
    SplitJoin(ks, ". ");
  }

  /** A short text with no long enough sentence summarises to the bare prefix. */
  lemma SummaryOfShortText(content: string)
    requires |content| <= 10
    ensures GenerateAISummary(content) == SummaryPrefix + "."
  {
    SentencesShort(content);
    FilterNone(Sentences(content), LongEnough);
  }

  lemma {:induction false} SentencesShort(s: string)
    ensures forall p :: p in Sentences(s) ==> |p| <= |s|
    decreases |s|
  {
    if s != [] {
      if IsSentenceEnd(s[0]) {
        SentencesShort(DropTerminators(s[1..]));
      } else {
        SentencesShort(s[1..]);
      }
    }
  }

  datatype HreflangLink = HreflangLink(rel: string, hrefLang: string, href: string)

  /** `generateHreflangLinks`: the same page URL under `bg`, `bg-BG` and `x-default`. */
  function GenerateHreflangLinks(pathname: string): (r: seq<HreflangLink>)
    ensures |r| == 3 && r[0].hrefLang == "bg" && r[1].hrefLang == "bg-BG" && r[2].hrefLang == "x-default"
    ensures forall l :: l in r ==> l.rel == "alternate" && l.href == BaseUrl + pathname
  {
    var href := BaseUrl + pathname;
    [HreflangLink("alternate", "bg", href), HreflangLink("alternate", "bg-BG", href),
     HreflangLink("alternate", "x-default", href)]
  }
}
