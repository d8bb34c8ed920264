/** extract_contact_info: the first e-mail address, phone number, LinkedIn
    profile and GitHub profile in a text, each found by `re.search` (or the
    first element of `re.findall`, which is the same match) of a fixed
    pattern. Each pattern is written out as a function giving what the
    engine matches at a position, trying quantifiers and alternatives in the
    engine's backtracking order. */
module Contact {
  import opened Text
  import opened Patterns

  // ---------------------------------------------------------------------------
  // Character classes of the patterns

  /** `[A-Za-z0-9._%+-]` */
  predicate IsLocalChar(c: char) { IsLetter(c) || IsDigit(c) || c == '.' || c == '_' || c == '%' || c == '+' || c == '-' }

  /** `[A-Za-z0-9.-]` */
  predicate IsDomainChar(c: char) { IsLetter(c) || IsDigit(c) || c == '.' || c == '-' }

  /** `[A-Z|a-z]`: the `|` inside the brackets is a literal bar. */
  predicate IsTldChar(c: char) { IsLetter(c) || c == '|' }

  /** `[a-zA-Z0-9-]`, the same set with or without IGNORECASE. */
  predicate IsSlugChar(c: char) { IsLetter(c) || IsDigit(c) || c == '-' }

  /** `[-.\s]` */
  predicate IsPhoneSep(c: char) { c == '-' || c == '.' || IsSpace(c) }

  predicate IsOpenParen(c: char) { c == '(' }

  predicate IsCloseParen(c: char) { c == ')' }

  /** A character a phone match can hold. */
  predicate IsPhoneChar(c: char) { IsDigit(c) || IsPhoneSep(c) || c == '(' || c == ')' || c == '+' }

  // ---------------------------------------------------------------------------
  // E-mail: \b[A-Za-z0-9._%+-]+@[A-Za-z0-9.-]+\.[A-Z|a-z]{2,}\b

  /** An e-mail address as the pattern sees it: a non-empty local part, `@`,
      a non-empty domain, a dot at `dot`, and at least two top-level-domain
      characters to the end. */
  predicate EmailParts(v: string, at: nat, dot: nat) {
    && 0 < at && at + 1 < dot && dot + 2 < |v|
    && (forall x :: 0 <= x < at ==> IsLocalChar(v[x]))
    && v[at] == '@'
    && (forall x :: at < x < dot ==> IsDomainChar(v[x]))
    && v[dot] == '.'
    && (forall x :: dot < x < |v| ==> IsTldChar(v[x]))
  }

  ghost predicate EmailShaped(v: string) {
    exists at, dot :: EmailParts(v, at, dot)
  }

  /** The greedy `{2,}` of top-level-domain characters, backing off from
      `t` until the closing `\b` holds, but never below two characters after
      the dot at `dot`. */
  function TldEnd(s: string, dot: nat, t: nat): (r: Option<nat>)
    requires t <= |s|
    decreases t
    ensures r.Some? ==> dot + 3 <= r.value <= t && BoundaryAt(s, r.value)
    ensures r.None? ==> forall u :: dot + 3 <= u <= t ==> !BoundaryAt(s, u)
  {
    if t < dot + 3 then None
    else if BoundaryAt(s, t) then Some(t)
    else TldEnd(s, dot, t - 1)
  }

  /** The domain `[A-Za-z0-9.-]+` followed by `\.` and the top-level domain,
      backing the domain off from `d` (its greedy end) while it stays
      non-empty: the first dot position, from the right, after which a
      top-level domain and `\b` can follow. The result is the dot and the end
      of the match. */
  function DomainThenTld(s: string, j: nat, d: nat): (r: Option<(nat, nat)>)
    requires d <= |s|
    decreases d
    ensures r.Some? ==>
      var (dot, t) := r.value;
      && j < dot <= d && dot < |s| && s[dot] == '.'
      && dot + 3 <= t <= |s| && BoundaryAt(s, t)
      && (forall x :: dot < x < t ==> IsTldChar(s[x]))
  {
    if d <= j then None
    else if d < |s| && s[d] == '.' then
      match TldEnd(s, d, RunEnd(s, d + 1, IsTldChar))
      case Some(t) => Some((d, t))
      case None => DomainThenTld(s, j, d - 1)
    else DomainThenTld(s, j, d - 1)
  }

  /** What the e-mail pattern matches at position `i`. The local part is the
      whole run of local characters, since `@` is not one of them. */
  function EmailAt(s: string, i: nat): (r: Option<string>)
    requires i <= |s|
    ensures r.Some? ==>
      && i + |r.value| <= |s| && r.value == s[i..i + |r.value|]
      && BoundaryAt(s, i) && BoundaryAt(s, i + |r.value|)
      && EmailShaped(r.value)
  {
    if !BoundaryAt(s, i) then None
    else
      var at := RunEnd(s, i, IsLocalChar);
      if at == i || at == |s| || s[at] != '@' then None
      else
        match DomainThenTld(s, at + 1, RunEnd(s, at + 1, IsDomainChar))
        case None => None
        case Some((dot, t)) =>
          EmailSpanShaped(s, i, at, dot, t);
          Some(s[i..t])
  }

  /** The slice found by EmailAt has the parts of an address. */
  lemma EmailSpanShaped(s: string, i: nat, at: nat, dot: nat, t: nat)
    requires i < at < dot && dot + 3 <= t <= |s|
    requires forall x :: i <= x < at ==> IsLocalChar(s[x])
    requires s[at] == '@' && s[dot] == '.'
    requires forall x :: at < x < dot ==> IsDomainChar(s[x])
    requires forall x :: dot < x < t ==> IsTldChar(s[x])
    requires at + 1 < dot
    ensures EmailShaped(s[i..t])
  {
    assert EmailParts(s[i..t], at - i, dot - i);
  }

  // ---------------------------------------------------------------------------
  // Phone: (?:\+\d{1,3}[-.\s]?)?\(?\d{3}\)?[-.\s]?\d{3}[-.\s]?\d{4}

  /** The number of digits in `s[a..b]`. */
  function DigitsIn(s: string, a: nat, b: nat): nat
    requires a <= b <= |s|
    decreases b - a
  {
    if a == b then 0 else (if IsDigit(s[a]) then 1 else 0) + DigitsIn(s, a + 1, b)
  }

  lemma {:induction false} DigitsInSplit(s: string, a: nat, m: nat, b: nat)
    requires a <= m <= b <= |s|
    decreases m - a
    ensures DigitsIn(s, a, b) == DigitsIn(s, a, m) + DigitsIn(s, m, b)
  {
    if a < m {
      DigitsInSplit(s, a + 1, m, b);
    }
  }

  lemma {:induction false} DigitsInRun(s: string, a: nat, n: nat)
    requires DigitsAt(s, a, n)
    decreases n
    ensures DigitsIn(s, a, a + n) == n
  {
    if n > 0 {
      assert s[a..a + n][0] == s[a];
      assert s[a + 1..a + n] == s[a..a + n][1..];
      DigitsInRun(s, a + 1, n - 1);
    }
  }

  /** Every character of `s[a..b]` can be part of a phone match. */
  predicate PhoneChars(s: string, a: nat, b: nat)
    requires a <= b <= |s|
  {
    forall x :: a <= x < b ==> IsPhoneChar(s[x])
  }

  /** The three-three-four digit body after the optional country code. Each
      optional character (`\(?`, `\)?`, `[-.\s]?`) is followed by a token that
      cannot match it, so the greedy choice never has to be undone. */
  function PhoneBodyEnd(s: string, i: nat): (r: Option<nat>)
    requires i <= |s|
    ensures r.Some? ==>
      && i + 10 <= r.value <= i + 14 && r.value <= |s|
      && DigitsIn(s, i, r.value) == 10 && PhoneChars(s, i, r.value)
  {
    var a := SkipOptional(s, i, IsOpenParen);
    if !DigitsAt(s, a, 3) then None
    else
      var b := SkipOptional(s, a + 3, IsCloseParen);
      var c := SkipOptional(s, b, IsPhoneSep);
      if !DigitsAt(s, c, 3) then None
      else
        var d := SkipOptional(s, c + 3, IsPhoneSep);
        if !DigitsAt(s, d, 4) then None
        else
          assert BodyLayout(s, i, a, b, c, d);
          PhoneBodyCount(s, i, a, b, c, d);
          Some(d + 4)
  }

  /** The positions a body match passes through: an optional `(` before
      `a`, three digits, an optional `)` before `b`, an optional separator
      before `c`, three digits, an optional separator before `d`, four
      digits. */
  predicate BodyLayout(s: string, i: nat, a: nat, b: nat, c: nat, d: nat) {
    && i <= a <= i + 1 && a + 3 <= b <= a + 4 && b <= c <= b + 1 && c + 3 <= d <= c + 4
    && d + 4 <= |s|
    && (a == i + 1 ==> s[i] == '(')
    && DigitsAt(s, a, 3)
    && (b == a + 4 ==> s[a + 3] == ')')
    && (c == b + 1 ==> IsPhoneSep(s[b]))
    && DigitsAt(s, c, 3)
    && (d == c + 4 ==> IsPhoneSep(s[c + 3]))
    && DigitsAt(s, d, 4)
  }

  /** A body match holds ten digits and only phone characters. */
  lemma PhoneBodyCount(s: string, i: nat, a: nat, b: nat, c: nat, d: nat)
    requires BodyLayout(s, i, a, b, c, d)
    ensures DigitsIn(s, i, d + 4) == 10 && PhoneChars(s, i, d + 4)
  {
    PhoneBodyDigits(s, i, a, b, c, d);
    forall x | i <= x < d + 4 ensures IsPhoneChar(s[x]) {
      if a <= x < a + 3 {
        assert s[a..a + 3][x - a] == s[x];
      } else if c <= x < c + 3 {
        assert s[c..c + 3][x - c] == s[x];
      } else if d <= x {
        assert s[d..d + 4][x - d] == s[x];
      }
    }
  }

  lemma PhoneBodyDigits(s: string, i: nat, a: nat, b: nat, c: nat, d: nat)
    requires BodyLayout(s, i, a, b, c, d)
    ensures DigitsIn(s, i, d + 4) == 10
  {
    DigitsInSplit(s, i, a, d + 4);
    DigitsInSplit(s, a, a + 3, d + 4);
    DigitsInSplit(s, a + 3, b, d + 4);
    DigitsInSplit(s, b, c, d + 4);
    DigitsInSplit(s, c, c + 3, d + 4);
    DigitsInSplit(s, c + 3, d, d + 4);
    DigitsInRun(s, a, 3);
    DigitsInRun(s, c, 3);
    DigitsInRun(s, d, 4);
    assert a > i ==> DigitsIn(s, i, a) == 0;
    assert b > a + 3 ==> DigitsIn(s, a + 3, b) == 0;
    assert c > b ==> DigitsIn(s, b, c) == 0;
    assert d > c + 3 ==> DigitsIn(s, c + 3, d) == 0;
  }

  /** `\+\d{1,3}[-.\s]?` followed by the body, with the `+` at `i`: the
      greedy `\d{1,3}` tries `n` digits, then fewer, down to one. */
  function CountryCodeThenBody(s: string, i: nat, n: nat): (r: Option<nat>)
    requires i < |s| && s[i] == '+' && n <= 3
    ensures r.Some? ==>
      && i + 12 <= r.value <= i + 19 && r.value <= |s|
      && 11 <= DigitsIn(s, i, r.value) <= 13 && PhoneChars(s, i, r.value)
  {
    if n == 0 then None
    else if DigitsAt(s, i + 1, n) then
      var b := SkipOptional(s, i + 1 + n, IsPhoneSep);
      match PhoneBodyEnd(s, b)
      case Some(e) =>
        CountryCodeCount(s, i, n, b, e);
        Some(e)
      case None => CountryCodeThenBody(s, i, n - 1)
    else CountryCodeThenBody(s, i, n - 1)
  }

  lemma CountryCodeCount(s: string, i: nat, n: nat, b: nat, e: nat)
    requires i < |s| && s[i] == '+' && 1 <= n <= 3 && DigitsAt(s, i + 1, n)
    requires i + 1 + n <= b <= i + 2 + n && b <= |s| && (b == i + 2 + n ==> IsPhoneSep(s[i + 1 + n]))
    requires b + 10 <= e <= b + 14 && e <= |s| && DigitsIn(s, b, e) == 10 && PhoneChars(s, b, e)
    ensures DigitsIn(s, i, e) == 10 + n && PhoneChars(s, i, e)
  {
    DigitsInSplit(s, i, i + 1, e);
    DigitsInSplit(s, i + 1, i + 1 + n, e);
    DigitsInSplit(s, i + 1 + n, b, e);
    DigitsInRun(s, i + 1, n);
    assert b > i + 1 + n ==> DigitsIn(s, i + 1 + n, b) == 0;
    forall x | i <= x < e ensures IsPhoneChar(s[x]) {
      if i + 1 <= x < i + 1 + n {
        assert s[i + 1..i + 1 + n][x - i - 1] == s[x];
      }
    }
  }

  /** Where the phone pattern's match at `i` ends: with the country code if
      that leads to a match, without it otherwise. */
  function PhoneEndAt(s: string, i: nat): (r: Option<nat>)
    requires i <= |s|
    ensures r.Some? ==>
      && i + 10 <= r.value <= i + 19 && r.value <= |s|
      && 10 <= DigitsIn(s, i, r.value) <= 13 && PhoneChars(s, i, r.value)
  {
    var withCode := if i < |s| && s[i] == '+' then CountryCodeThenBody(s, i, 3) else None;
    if withCode.Some? then withCode else PhoneBodyEnd(s, i)
  }

  // ---------------------------------------------------------------------------
  // Profiles: (?:linkedin\.com/in/|linkedin\.com/profile/)([a-zA-Z0-9-]+) and
  // (?:github\.com/)([a-zA-Z0-9-]+), both searched with IGNORECASE

  const LinkedInPrefixes: seq<string> := ["linkedin.com/in/", "linkedin.com/profile/"]
  const GitHubPrefixes: seq<string> := ["github.com/"]

  /** A profile match: `v` starts at `k` in `s`, begins with `w` ignoring
      case, and goes on with the whole run of slug characters after it, of
      which there is at least one. */
  predicate ProfileSpan(s: string, w: string, k: nat, v: string) {
    && k + |v| <= |s| && v == s[k..k + |v|]
    && |w| < |v| && Lower(v[..|w|]) == w
    && (forall x :: |w| <= x < |v| ==> IsSlugChar(v[x]))
    && (k + |v| == |s| || !IsSlugChar(s[k + |v|]))
  }

  /** The alternation of `prefixes` followed by `[a-zA-Z0-9-]+` at `k`: the
      first alternative that matches, with its greedy run of slug
      characters. */
  function ProfileAt(s: string, prefixes: seq<string>, k: nat): (r: Option<string>)
    requires k <= |s|
    ensures r.Some? ==> exists j :: 0 <= j < |prefixes| && ProfileSpan(s, prefixes[j], k, r.value)
    ensures r.None? ==> forall j :: 0 <= j < |prefixes| && WordAtIgnoringCase(s, prefixes[j], k) ==>
      RunEnd(s, k + |prefixes[j]|, IsSlugChar) == k + |prefixes[j]|
  {
    if |prefixes| == 0 then None
    else
      var w := prefixes[0];
      if WordAtIgnoringCase(s, w, k) && RunEnd(s, k + |w|, IsSlugChar) > k + |w| then
        var e := RunEnd(s, k + |w|, IsSlugChar);
        ProfileSpanFound(s, w, k, e);
        assert ProfileSpan(s, prefixes[0], k, s[k..e]);
        Some(s[k..e])
      else
        var r := ProfileAt(s, prefixes[1..], k);
        if r.Some? then
          var j :| 0 <= j < |prefixes[1..]| && ProfileSpan(s, prefixes[1..][j], k, r.value);
          assert ProfileSpan(s, prefixes[j + 1], k, r.value);
          r
        else
          r
  }

  lemma ProfileSpanFound(s: string, w: string, k: nat, e: nat)
    requires WordAtIgnoringCase(s, w, k) && k + |w| < e <= |s|
    requires forall x :: k + |w| <= x < e ==> IsSlugChar(s[x])
    requires e == |s| || !IsSlugChar(s[e])
    ensures ProfileSpan(s, w, k, s[k..e])
  {
    WordAtIgnoringCaseLower(s, w, k);
    assert s[k..e][..|w|] == s[k..k + |w|];
  }

  // ---------------------------------------------------------------------------
  // extract_contact_info

  /** The four patterns extract_contact_info searches for. */
  datatype Field = Email | Phone | LinkedIn | GitHub

  /** What the pattern of `f` matches at position `k`. */
  function MatchAt(f: Field, s: string, k: nat): Option<string>
    requires k <= |s|
  {
    match f
    case Email => EmailAt(s, k)
    case Phone => (match PhoneEndAt(s, k) case Some(e) => Some(s[k..e]) case None => None)
    case LinkedIn => ProfileAt(s, LinkedInPrefixes, k)
    case GitHub => ProfileAt(s, GitHubPrefixes, k)
  }

  /** `re.search`: the leftmost position at or after `k` where the pattern
      of `f` matches. */
  function FirstMatchFrom(f: Field, s: string, k: nat): (r: Option<nat>)
    requires k <= |s|
    decreases |s| - k
    ensures r.Some? ==> k <= r.value <= |s| && MatchAt(f, s, r.value).Some?
    ensures r.Some? ==> forall j :: k <= j < r.value ==> MatchAt(f, s, j).None?
    ensures r.None? ==> forall j :: k <= j <= |s| ==> MatchAt(f, s, j).None?
  {
    var hit := (j: nat) => j <= |s| && MatchAt(f, s, j).Some?;
    assert forall j :: k <= j <= |s| ==> (hit(j) <==> MatchAt(f, s, j).Some?);
    Leftmost(hit, k, |s|)
  }

  /** The least position in `k..n` where `hit` holds. */
  function Leftmost(hit: nat -> bool, k: nat, n: nat): (r: Option<nat>)
    requires k <= n
    decreases n - k
    ensures r.Some? ==> k <= r.value <= n && hit(r.value)
    ensures r.Some? ==> forall j :: k <= j < r.value ==> !hit(j)
    ensures r.None? ==> forall j :: k <= j <= n ==> !hit(j)
  {
    if hit(k) then Some(k)
    else if k == n then None
    else Leftmost(hit, k + 1, n)
  }

  /** `re.search(p, text).group(0)`, or the first of `re.findall(p, text)`,
      which is the same match. */
  function First(f: Field, text: string): Option<string> {
    match FirstMatchFrom(f, text, 0)
    case Some(k) => MatchAt(f, text, k)
    case None => None
  }

  /** The dictionary extract_contact_info returns: a key is present exactly
      when its pattern matched. */
  datatype ContactInfo = ContactInfo(
    email: Option<string>, phone: Option<string>, linkedin: Option<string>, github: Option<string>)

  function ExtractContactInfo(text: string): ContactInfo {
    ContactInfo(First(Email, text), First(Phone, text), First(LinkedIn, text), First(GitHub, text))
  }

  /** The number of digits of a slice, counted on the slice itself. */
  lemma {:induction false} DigitsInSlice(s: string, a: nat, b: nat)
    requires a <= b <= |s|
    decreases b - a
    ensures DigitsIn(s[a..b], 0, b - a) == DigitsIn(s, a, b)
  {
    if a < b {
      DigitsInSlice(s, a + 1, b);
      DigitsInShift(s[a..b], 1);
      assert s[a..b][1..] == s[a + 1..b];
    }
  }

  /** Counting from 1 in `t` is counting from 0 in `t[1..]`. */
  lemma {:induction false} DigitsInShift(t: string, a: nat)
    requires 1 <= a <= |t|
    decreases |t| - a
    ensures DigitsIn(t, a, |t|) == DigitsIn(t[1..], a - 1, |t| - 1)
  {
    if a < |t| {
      DigitsInShift(t, a + 1);
    }
  }

  /** The e-mail address found, at the leftmost position `k` where the
      pattern matches, is a slice of the text made of a local part, `@`, a
      domain, a dot and a top-level domain, between word boundaries. */
  lemma EmailFound(text: string, k: nat)
    requires FirstMatchFrom(Email, text, 0) == Some(k)
    ensures var v := First(Email, text).value;
      && k + |v| <= |text| && text[k..k + |v|] == v && EmailShaped(v)
      && BoundaryAt(text, k) && BoundaryAt(text, k + |v|)
  {
    assert First(Email, text) == EmailAt(text, k);
  }

  /** The phone number found, at the leftmost position `k` where the pattern
      matches, is a slice of the text of 10 to 19 characters, each a digit,
      separator, parenthesis or `+`, holding ten digits plus up to three of a
      country code. */
  lemma PhoneFound(text: string, k: nat)
    requires FirstMatchFrom(Phone, text, 0) == Some(k)
    ensures var v := First(Phone, text).value;
      && k + |v| <= |text| && text[k..k + |v|] == v
      && 10 <= |v| <= 19 && 10 <= DigitsIn(v, 0, |v|) <= 13
      && (forall x :: 0 <= x < |v| ==> IsPhoneChar(v[x]))
  {
    var e := PhoneEndAt(text, k).value;
    assert First(Phone, text) == Some(text[k..e]);
    DigitsInSlice(text, k, e);
    forall x | 0 <= x < e - k ensures IsPhoneChar(text[k..e][x]) {
      assert text[k..e][x] == text[k + x];
    }
  }

  /** The LinkedIn profile found, at the leftmost position `k` where the
      pattern matches, starts, ignoring case, with `linkedin.com/in/` or
      `linkedin.com/profile/` and goes on with the whole, non-empty run of
      slug characters after it. */
  lemma LinkedInFound(text: string, k: nat)
    requires FirstMatchFrom(LinkedIn, text, 0) == Some(k)
    ensures var v := First(LinkedIn, text).value;
      ProfileSpan(text, "linkedin.com/in/", k, v) || ProfileSpan(text, "linkedin.com/profile/", k, v)
  {
    var v := ProfileAt(text, LinkedInPrefixes, k).value;
    var j :| 0 <= j < |LinkedInPrefixes| && ProfileSpan(text, LinkedInPrefixes[j], k, v);
    if j == 0 {
      assert ProfileSpan(text, "linkedin.com/in/", k, v);
    } else {
      assert ProfileSpan(text, "linkedin.com/profile/", k, v);
    }
  }

  /** The GitHub profile found, at the leftmost position `k` where the
      pattern matches, starts, ignoring case, with `github.com/` and goes on
      with the whole, non-empty run of slug characters after it. */
  lemma GitHubFound(text: string, k: nat)
    requires FirstMatchFrom(GitHub, text, 0) == Some(k)
    ensures ProfileSpan(text, "github.com/", k, First(GitHub, text).value)
  {
    var v := ProfileAt(text, GitHubPrefixes, k).value;
    var j :| 0 <= j < |GitHubPrefixes| && ProfileSpan(text, GitHubPrefixes[j], k, v);
  }
}
