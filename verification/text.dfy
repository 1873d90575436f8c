/**
 * The JavaScript string operations the site's code relies on, stated on
 * `seq<char>`: lower-casing, prefix and substring tests, `join`, `split` on a
 * literal separator, `replace` of the first occurrence, `slice(0, n)`, `trim`
 * and the decimal rendering of integers (`String(n)`).
 */
module Text {

  /** `toLowerCase` on one character, for the Latin and Cyrillic letters the site uses. */
  function LowerChar(c: char): (r: char)
  {
    if 'A' <= c <= 'Z' then (c as int + 32) as char
    else if '\U{0410}' <= c <= '\U{042F}' then (c as int + 32) as char   // А..Я to а..я
    else if '\U{0400}' <= c <= '\U{040F}' then (c as int + 80) as char   // Ѐ..Џ to ѐ..џ
    else c
  }

  predicate IsAsciiLower(c: char) { 'a' <= c <= 'z' }
  predicate IsDigit(c: char) { '0' <= c <= '9' }

  /** Cyrillic small letters а..я (U+0430..U+044F), the class `[а-я]` of a regular expression. */
  predicate IsCyrillicLower(c: char) { '\U{0430}' <= c <= '\U{044F}' }

  lemma LowerCharFixes(c: char)
    requires IsAsciiLower(c) || IsDigit(c) || c == '-' || c == ' ' || c == '|' || c == '.' || IsCyrillicLower(c)
    ensures LowerChar(c) == c
  {
  }

  /** `toLowerCase`. */
  function Lower(s: string): (r: string)
    ensures |r| == |s|
    ensures forall i :: 0 <= i < |s| ==> r[i] == LowerChar(s[i])
  {
    seq(|s|, i requires 0 <= i < |s| => LowerChar(s[i]))
  }

  lemma LowerAppend(a: string, b: string)
    ensures Lower(a + b) == Lower(a) + Lower(b)
  {
    forall i | 0 <= i < |a + b| ensures Lower(a + b)[i] == (Lower(a) + Lower(b))[i] {
      if i < |a| { assert (a + b)[i] == a[i]; } else { assert (a + b)[i] == b[i - |a|]; }
    }
  }

  lemma LowerCharIdempotent(c: char)
    ensures LowerChar(LowerChar(c)) == LowerChar(c)
  {
  }

  /** Lower-casing twice is lower-casing once. */
  lemma LowerIdempotent(s: string)
    ensures Lower(Lower(s)) == Lower(s)
  {
    forall i | 0 <= i < |s| ensures Lower(Lower(s))[i] == Lower(s)[i] {
      LowerCharIdempotent(s[i]);
    }
  }

  /** `s.startsWith(p)`. */
  predicate StartsWith(s: string, p: string) {
    |p| <= |s| && s[..|p|] == p
  }

  /** `s.endsWith(p)`. */
  predicate EndsWith(s: string, p: string) {
    |p| <= |s| && s[|s| - |p|..] == p
  }

  /** `s.includes(p)`: `p` occurs at some position of `s`. */
  predicate Contains(s: string, p: string)
    decreases |s|
  {
    StartsWith(s, p) || (s != [] && Contains(s[1..], p))
  }

  lemma {:induction false} ContainsAt(s: string, p: string, k: nat)
    requires k + |p| <= |s| && s[k..k + |p|] == p
    ensures Contains(s, p)
  {
    if k > 0 {
      assert s[1..][k - 1..k - 1 + |p|] == s[k..k + |p|];
      ContainsAt(s[1..], p, k - 1);
    }
  }

  /** A string starts with each of its prefixes. */
  lemma StartsWithAppend(a: string, b: string)
    ensures StartsWith(a + b, a)
  {
    assert (a + b)[..|a|] == a;
  }

  lemma StartsWithTrans(s: string, t: string, p: string)
    requires StartsWith(s, t) && StartsWith(t, p)
    ensures StartsWith(s, p)
  {
    assert s[..|p|] == s[..|t|][..|p|];
  }

  /** A string ends with each of its suffixes. */
  lemma EndsWithAppend(a: string, b: string, c: string)
    ensures EndsWith(a + (b + c), c)
  {
    assert (a + (b + c))[|a + (b + c)| - |c|..] == c;
  }

  /** A string contains each of its prefixes and suffixes. */
  lemma ContainsPrefix(a: string, b: string)
    ensures Contains(a + b, a)
  {
    assert StartsWith(a + b, a) by {
      assert (a + b)[..|a|] == a;
    }
  }

  lemma ContainsSuffix(a: string, b: string)
    ensures Contains(a + b, b)
  {
    assert (a + b)[|a|..|a| + |b|] == b;
    ContainsAt(a + b, b, |a|);
  }

  /** A string contains each of its middle parts. */
  lemma ContainsMiddle(a: string, b: string, c: string)
    ensures Contains(a + b + c, b)
  {
    assert (a + b + c)[|a|..|a| + |b|] == b;
    ContainsAt(a + b + c, b, |a|);
  }

  /** A string contains what its prefix contains. */
  lemma {:induction false} ContainsExtend(a: string, b: string, p: string)
    requires Contains(a, p)
    ensures Contains(a + b, p)
    decreases |a|
  {
    if !StartsWith(a, p) {
      assert (a + b)[1..] == a[1..] + b;
      ContainsExtend(a[1..], b, p);
    } else {
      assert (a + b)[..|p|] == a[..|p|];
    }
  }

  /** A string contains what its suffix contains. */
  lemma {:induction false} ContainsPrepend(a: string, b: string, p: string)
    requires Contains(b, p)
    ensures Contains(a + b, p)
    decreases |a|
  {
    if a != [] {
      ContainsPrepend(a[1..], b, p);
      assert (a + b)[1..] == a[1..] + b;
      assert Contains((a + b)[1..], p);
    } else {
      assert a + b == b;
    }
  }

  /** Each part of a join occurs in it. */
  lemma {:induction false} JoinContains(parts: seq<string>, sep: string, i: nat)
    requires i < |parts|
    ensures Contains(Join(parts, sep), parts[i])
  {
    if |parts| == 1 {
      ContainsAt(parts[0], parts[0], 0);
    } else if i == 0 {
      ContainsAt(parts[0], parts[0], 0);
      ContainsExtend(parts[0], sep + Join(parts[1..], sep), parts[0]);
      assert parts[0] + sep + Join(parts[1..], sep) == parts[0] + (sep + Join(parts[1..], sep));
    } else {
      JoinContains(parts[1..], sep, i - 1);
      ContainsPrepend(parts[0] + sep, Join(parts[1..], sep), parts[i]);
    }
  }

  /** A string contains a non-empty pattern only if it contains the pattern's first character. */
  lemma {:induction false} ContainsHead(s: string, p: string)
    requires p != [] && Contains(s, p)
    ensures p[0] in s
    decreases |s|
  {
    if StartsWith(s, p) {
      assert s[0] == p[0];
    } else {
      ContainsHead(s[1..], p);
    }
  }

  /** `parts.join(sep)`. */
  function Join(parts: seq<string>, sep: string): string
  {
    if |parts| == 0 then ""
    else if |parts| == 1 then parts[0]
    else parts[0] + sep + Join(parts[1..], sep)
  }

  /** Joining two non-empty lists: the separator appears once between them. */
  lemma {:induction false} JoinAppend(a: seq<string>, b: seq<string>, sep: string)
    requires a != [] && b != []
    ensures Join(a + b, sep) == Join(a, sep) + sep + Join(b, sep)
  {
    if |a| == 1 {
      assert (a + b)[1..] == b;
    } else {
      assert (a + b)[1..] == a[1..] + b;
      JoinAppend(a[1..], b, sep);
    }
  }

  lemma JoinCons(x: string, rest: seq<string>, sep: string)
    requires rest != []
    ensures Join([x] + rest, sep) == x + sep + Join(rest, sep)
  {
    assert ([x] + rest)[1..] == rest;
  }

  /** `s.split(sep)` for a non-empty literal separator: the pieces between its left-to-right occurrences. */
  function Split(s: string, sep: string): (r: seq<string>)
    requires sep != []
    ensures |r| >= 1
    decreases |s|
  {
    if |s| < |sep| then [s]
    else if s[..|sep|] == sep then [""] + Split(s[|sep|..], sep)
    else
      var rest := Split(s[1..], sep);
      [[s[0]] + rest[0]] + rest[1..]
  }

  lemma JoinHeadExtend(c: char, rest: seq<string>, sep: string)
    requires rest != []
    ensures Join([[c] + rest[0]] + rest[1..], sep) == [c] + Join(rest, sep)
  {
    if |rest| == 1 {
    } else {
      JoinCons([c] + rest[0], rest[1..], sep);
      JoinCons(rest[0], rest[1..], sep);
      assert rest == [rest[0]] + rest[1..];
    }
  }

  /** Splitting and joining back with the same separator gives the string back. */
  lemma {:induction false} JoinSplit(s: string, sep: string)
    requires sep != []
    ensures Join(Split(s, sep), sep) == s
    decreases |s|
  {
    if |s| < |sep| {
    } else if s[..|sep|] == sep {
      JoinSplit(s[|sep|..], sep);
      JoinSplitAtSep(s, sep);
    } else {
      JoinSplit(s[1..], sep);
      JoinSplitAtChar(s, sep);
    }
  }

  lemma JoinSplitAtSep(s: string, sep: string)
    requires sep != [] && |s| >= |sep| && s[..|sep|] == sep
    requires Join(Split(s[|sep|..], sep), sep) == s[|sep|..]
    ensures Join(Split(s, sep), sep) == s
  {
    var t := s[|sep|..];
    var rest := Split(t, sep);
    assert Split(s, sep) == [""] + rest;
    JoinCons("", rest, sep);
    SliceParts(s, |sep|);
    calc {
      Join(Split(s, sep), sep);
      Join([""] + rest, sep);
      "" + sep + Join(rest, sep);
      "" + sep + t;
      { assert "" + sep == sep; }
      sep + t;
      s;
    }
  }

  lemma SliceParts<T>(s: seq<T>, k: nat)
    requires k <= |s|
    ensures s == s[..k] + s[k..]
  {
  }

  lemma JoinSplitAtChar(s: string, sep: string)
    requires sep != [] && |s| >= |sep| && s[..|sep|] != sep
    requires Join(Split(s[1..], sep), sep) == s[1..]
    ensures Join(Split(s, sep), sep) == s
  {
    var rest := Split(s[1..], sep);
    assert Split(s, sep) == [[s[0]] + rest[0]] + rest[1..];
    JoinHeadExtend(s[0], rest, sep);
    assert s == [s[0]] + s[1..];
  }

  /**
   * A piece without the separator's first character is split off whole: the
   * rest either is empty or starts with the separator.
   */
  lemma {:induction false} SplitPiece(p: string, t: string, sep: string)
    requires sep != [] && sep[0] !in p
    requires t == [] || (|t| >= |sep| && t[..|sep|] == sep)
    ensures Split(p + t, sep) == [p + Split(t, sep)[0]] + Split(t, sep)[1..]
    decreases |p|
  {
    var s := p + t;
    if p == [] {
      assert s == t;
    } else {
      assert s[0] == p[0] && p[0] != sep[0];
      if |s| < |sep| {
        assert t == [] && s == p;
      } else {
        assert s[..|sep|] != sep;
        assert s[1..] == p[1..] + t;
        SplitPiece(p[1..], t, sep);
        var rest := Split(s[1..], sep);
        assert Split(s, sep) == [[s[0]] + rest[0]] + rest[1..];
        assert [p[0]] + (p[1..] + Split(t, sep)[0]) == p + Split(t, sep)[0];
      }
    }
  }

  /** Joining pieces that do not hold the separator's first character, then splitting, gives the pieces back. */
  lemma {:induction false} SplitJoin(parts: seq<string>, sep: string)
    requires sep != [] && parts != []
    requires forall i :: 0 <= i < |parts| ==> sep[0] !in parts[i]
    ensures Split(Join(parts, sep), sep) == parts
  {
    if |parts| == 1 {
      SplitPiece(parts[0], "", sep);
      assert parts[0] + "" == parts[0];
    } else {
      var rest := Join(parts[1..], sep);
      var t := sep + rest;
      assert t[..|sep|] == sep && t[|sep|..] == rest;
      SplitJoin(parts[1..], sep);
      assert Split(t, sep) == [""] + parts[1..];
      SplitPiece(parts[0], t, sep);
      assert parts[0] + sep + rest == parts[0] + t;
      assert parts[0] + "" == parts[0];
      assert [parts[0]] + parts[1..] == parts;
    }
  }

  /** `s.replace(pat, rep)` with a string pattern: only the first occurrence is replaced. */
  function ReplaceFirst(s: string, pat: string, rep: string): string
    decreases |s|
  {
    if StartsWith(s, pat) then rep + s[|pat|..]
    else if s == [] then []
    else [s[0]] + ReplaceFirst(s[1..], pat, rep)
  }

  /** A string without the pattern is left as it is. */
  lemma {:induction false} ReplaceFirstAbsent(s: string, pat: string, rep: string)
    ensures !Contains(s, pat) ==> ReplaceFirst(s, pat, rep) == s
    decreases |s|
  {
    if s != [] && !Contains(s, pat) {
      ReplaceFirstAbsent(s[1..], pat, rep);
    }
  }

  /** `s.slice(0, end)`: a negative end counts from the back. */
  function SliceTo<T>(s: seq<T>, end: int): (r: seq<T>)
    ensures |r| <= |s|
    ensures end >= 0 ==> |r| == if end < |s| then end else |s|
    ensures end < 0 ==> |r| == if |s| + end > 0 then |s| + end else 0
    ensures r == s[..|r|]
  {
    if end >= |s| then s
    else if end >= 0 then s[..end]
    else if |s| + end > 0 then s[..|s| + end]
    else []
  }

  /** The characters JavaScript's `\s` and `trim` treat as white space. */
  predicate IsJsSpace(c: char) {
    c == ' ' || c == '\t' || c == '\n' || c == '\r' || c == '\U{000B}' || c == '\U{000C}'
    || c == '\U{00A0}' || c == '\U{1680}' || '\U{2000}' <= c <= '\U{200A}'
    || c == '\U{2028}' || c == '\U{2029}' || c == '\U{202F}' || c == '\U{205F}'
    || c == '\U{3000}' || c == '\U{FEFF}'
  }

  function TrimStart(s: string): (r: string)
    ensures r == [] || !IsJsSpace(r[0])
    ensures |r| <= |s| && r == s[|s| - |r|..]
  {
    if s != [] && IsJsSpace(s[0]) then TrimStart(s[1..]) else s
  }

  function TrimEnd(s: string): (r: string)
    ensures r == [] || !IsJsSpace(r[|r| - 1])
    ensures |r| <= |s| && r == s[..|r|]
  {
    if s != [] && IsJsSpace(s[|s| - 1]) then TrimEnd(s[..|s| - 1]) else s
  }

  /** `trim`: white space removed from both ends. */
  function Trim(s: string): string {
    TrimEnd(TrimStart(s))
  }

  function DigitChar(d: nat): char
    requires d < 10
  {
    ('0' as int + d) as char
  }

  /** `String(n)` for a non-negative integer: its decimal digits, most significant first. */
  function NatToString(n: nat): (r: string)
    ensures |r| >= 1
    ensures forall i :: 0 <= i < |r| ==> IsDigit(r[i])
  {
    if n < 10 then [DigitChar(n)] else NatToString(n / 10) + [DigitChar(n % 10)]
  }

  /** `String(n)` for an integer. */
  function IntToString(n: int): string {
    if n < 0 then "-" + NatToString(-n) else NatToString(n)
  }

  /** Reads decimal digits back into a number (`Number(s)` on a digit string). */
  function ParseDigits(s: string): nat
    requires forall i :: 0 <= i < |s| ==> IsDigit(s[i])
  {
    if s == [] then 0
    else
      assert IsDigit(s[|s| - 1]);
      10 * ParseDigits(s[..|s| - 1]) + (s[|s| - 1] as int - '0' as int)
  }

  /** The decimal rendering of a number reads back as that number. */
  lemma {:induction false} ParseNatToString(n: nat)
    ensures ParseDigits(NatToString(n)) == n
  {
    if n >= 10 {
      var s := NatToString(n);
      assert s[..|s| - 1] == NatToString(n / 10);
      ParseNatToString(n / 10);
    }
  }

  /** The rendering starts with a minus sign exactly for negative numbers. */
  lemma IntToStringSign(n: int)
    ensures |IntToString(n)| >= 1 && (IntToString(n)[0] == '-' <==> n < 0)
  {
    if n >= 0 {
      assert IsDigit(NatToString(n)[0]);
    }
  }

  /** Distinct integers render as distinct strings. */
  lemma IntToStringInjective(a: int, b: int)
    requires IntToString(a) == IntToString(b)
    ensures a == b
  {
    IntToStringSign(a);
    IntToStringSign(b);
    if a < 0 {
      NegativeTail(a);
      NegativeTail(b);
      NatToStringInjective(-a, -b);
    } else {
      NatToStringInjective(a, b);
    }
  }

  lemma NatToStringInjective(a: nat, b: nat)
    requires NatToString(a) == NatToString(b)
    ensures a == b
  {
    ParseNatToString(a);
    ParseNatToString(b);
  }

  lemma NegativeTail(n: int)
    requires n < 0
    ensures IntToString(n)[1..] == NatToString(-n)
  {
    assert ("-" + NatToString(-n))[1..] == NatToString(-n);
  }
}
