/** Inbox references: `mem-inbox://<env>/<slug>` or a bare slug. */
module InboxReference {
  import opened Wrappers

  const PREFIX := "mem-inbox://"
  const SLUG_MAX_LEN := 64

  predicate WordChar(c: char) {
    'a' <= c <= 'z' || '0' <= c <= '9'
  }

  /** Words of lower-case letters and digits between single hyphens. */
  predicate Kebab(s: string) {
    && s != "" && s[0] != '-' && s[|s| - 1] != '-'
    && (forall i :: 0 <= i < |s| ==> WordChar(s[i]) || s[i] == '-')
    && (forall i :: 0 <= i < |s| - 1 ==> s[i] != '-' || s[i + 1] != '-')
  }

  // ------------------------------------------------------------ the pattern

  predicate Word(s: string) {
    s != "" && forall i :: 0 <= i < |s| ==> WordChar(s[i])
  }

  /** The strings of the pattern: a word, then any number of a hyphen and a word. */
  predicate PatternMatches(s: string)
    decreases |s|
  {
    Word(s) || exists n: nat :: n < |s| && s[n] == '-' && Word(s[..n]) && PatternMatches(s[n + 1..])
  }

  function FirstOf(c: char, s: string): (n: nat)
    ensures n <= |s| && (n < |s| ==> s[n] == c) && forall i :: 0 <= i < n ==> s[i] != c
  {
    if s == "" || s[0] == c then 0 else 1 + FirstOf(c, s[1..])
  }

  lemma KebabOfParts(head: string, rest: string)
    requires Word(head) && Kebab(rest)
    ensures Kebab(head + "-" + rest)
  {
    var s := head + "-" + rest;
    forall i | 0 <= i < |s| ensures WordChar(s[i]) || s[i] == '-' {}
    forall i | 0 <= i < |s| - 1 ensures s[i] != '-' || s[i + 1] != '-' {}
  }

  lemma KebabSplits(s: string) returns (n: nat)
    requires Kebab(s) && !Word(s)
    ensures n < |s| && s[n] == '-' && Word(s[..n]) && Kebab(s[n + 1..])
  {
    n := FirstOf('-', s);
    var rest := s[n + 1..];
    assert forall i :: 0 <= i < |rest| ==> rest[i] == s[n + 1 + i];
  }

  lemma PatternSplits(s: string) returns (n: nat)
    requires PatternMatches(s) && !Word(s)
    ensures n < |s| && s[n] == '-' && Word(s[..n]) && PatternMatches(s[n + 1..])
  {
    n :| n < |s| && s[n] == '-' && Word(s[..n]) && PatternMatches(s[n + 1..]);
  }

  lemma {:induction false} PatternToKebab(s: string)
    requires PatternMatches(s)
    ensures Kebab(s)
    decreases |s|
  {
    if !Word(s) {
      var n := PatternSplits(s);
      PatternToKebab(s[n + 1..]);
      JoinsAt(s, n);
    }
  }

  lemma JoinsAt(s: string, n: nat)
    requires n < |s| && s[n] == '-' && Word(s[..n]) && Kebab(s[n + 1..])
    ensures Kebab(s)
  {
    KebabOfParts(s[..n], s[n + 1..]);
    assert s == s[..n] + "-" + s[n + 1..];
  }

  lemma {:induction false} KebabToPattern(s: string)
    requires Kebab(s)
    ensures PatternMatches(s)
    decreases |s|
  {
    if !Word(s) {
      var n := KebabSplits(s);
      KebabToPattern(s[n + 1..]);
    }
  }

  /** The pattern is kebab case. */
  lemma PatternIsKebab(s: string)
    ensures PatternMatches(s) <==> Kebab(s)
  {
    if PatternMatches(s) { PatternToKebab(s); }
    if Kebab(s) { KebabToPattern(s); }
  }

  /** Where `$` matches: at the end, and before a newline that ends the string. */
  predicate AtDollar(s: string, n: nat) {
    n == |s| || (n + 1 == |s| && s[n] == '\n')
  }

  /** What `match` takes: some initial part is of the pattern and is followed by `$`. */
  predicate SlugMatches(s: string) {
    exists n: nat :: n <= |s| && PatternMatches(s[..n]) && AtDollar(s, n)
  }

  predicate ValidSlug(s: string) {
    s != "" && |s| <= SLUG_MAX_LEN && SlugMatches(s)
  }

  predicate EndsInNewline(s: string) {
    s != "" && s[|s| - 1] == '\n'
  }

  /** `match` takes kebab case, and kebab case with one newline after it. */
  lemma SlugMatchesExactly(s: string)
    ensures SlugMatches(s) <==> Kebab(s) || (EndsInNewline(s) && Kebab(s[..|s| - 1]))
  {
    if SlugMatches(s) {
      var n: nat :| n <= |s| && PatternMatches(s[..n]) && AtDollar(s, n);
      PatternIsKebab(s[..n]);
      assert n == |s| ==> s[..n] == s;
    }
    if Kebab(s) {
      PatternIsKebab(s);
      assert s[..|s|] == s && AtDollar(s, |s|);
    }
    if EndsInNewline(s) && Kebab(s[..|s| - 1]) {
      PatternIsKebab(s[..|s| - 1]);
      assert AtDollar(s, |s| - 1);
    }
  }

  /** The slugs taken that are not kebab case are those with a newline at the end. */
  lemma NotKebabExactly(s: string)
    ensures ValidSlug(s) && !Kebab(s) <==> |s| <= SLUG_MAX_LEN && EndsInNewline(s) && Kebab(s[..|s| - 1])
  {
    SlugMatchesExactly(s);
  }

  /** A slug and the same with a newline are both taken, as different slugs. */
  lemma NewlineMakesAnotherSlug(s: string)
    requires Kebab(s) && |s| < SLUG_MAX_LEN
    ensures ParseReference(s) == Ok(Reference(None, s))
    ensures ParseReference(s + "\n") == Ok(Reference(None, s + "\n"))
  {
    SlugMatchesExactly(s);
    SlugMatchesExactly(s + "\n");
    assert (s + "\n")[..|s|] == s;
    BareSlug(s);
    BareSlug(s + "\n");
  }

  lemma SlugChars(s: string)
    requires ValidSlug(s)
    ensures forall c :: c in s ==> WordChar(c) || c == '-' || c == '\n'
  {
    SlugMatchesExactly(s);
    forall c | c in s ensures WordChar(c) || c == '-' || c == '\n' {
      var i :| 0 <= i < |s| && s[i] == c;
      if !Kebab(s) && i < |s| - 1 { assert s[..|s| - 1][i] == c; }
    }
  }

  // ------------------------------------------------------------ parsing and formatting

  datatype Reference = Reference(env: Option<string>, slug: string)

  function FormatReference(env: string, slug: string): string {
    PREFIX + env + "/" + slug
  }

  function ParseReference(value: string): Result<Reference> {
    if value == "" then Err(InvalidInput)
    else if PREFIX <= value then
      var remainder := value[|PREFIX|..];
      var n := FirstOf('/', remainder);
      if n == |remainder| then Err(InvalidInput)
      else
        var env, slug := remainder[..n], remainder[n + 1..];
        if env == "" || '/' in slug || !ValidSlug(slug) then Err(InvalidInput)
        else Ok(Reference(Some(env), slug))
    else if ValidSlug(value) then Ok(Reference(None, value))
    else Err(InvalidInput)
  }

  lemma FormatParts(env: string, slug: string)
    ensures var value := FormatReference(env, slug);
            PREFIX <= value && value != "" && value[|PREFIX|..] == env + "/" + slug
  {}

  lemma SplitAtFirst(env: string, slug: string)
    requires '/' !in env
    ensures var r := env + "/" + slug;
            FirstOf('/', r) == |env| && r[..|env|] == env && r[|env| + 1..] == slug && |env| < |r|
  {
    var r := env + "/" + slug;
    assert r[|env|] == '/';
    assert forall i :: 0 <= i < |env| ==> r[i] == env[i] && env[i] in env;
  }

  /** Parsing a formatted reference gives it back exactly for a non-empty environment name
      without a slash and a valid slug. */
  lemma ParseOfFormat(env: string, slug: string)
    ensures ParseReference(FormatReference(env, slug)) == Ok(Reference(Some(env), slug)) <==>
              env != "" && '/' !in env && ValidSlug(slug)
  {
    FormatParts(env, slug);
    if '/' in env { SlashRejected(env, slug); }
    else {
      SplitAtFirst(env, slug);
      if ValidSlug(slug) { SlugChars(slug); }
    }
  }

  /** A name with a slash is rejected, not split elsewhere. */
  lemma SlashRejected(env: string, slug: string)
    requires '/' in env
    ensures ParseReference(FormatReference(env, slug)) == Err(InvalidInput)
  {
    FormatParts(env, slug);
    var r := env + "/" + slug;
    var n := FirstOf('/', r);
    var j :| 0 <= j < |env| && env[j] == '/';
    assert r[j] == '/' && n <= j;
    var rest := r[n + 1..];
    assert rest[|env| - n - 1] == '/' && '/' in rest;
  }

  /** A bare valid slug is never taken for a URL. */
  lemma BareSlug(s: string)
    requires ValidSlug(s)
    ensures !(PREFIX <= s) && ParseReference(s) == Ok(Reference(None, s))
  {
    SlugChars(s);
    if PREFIX <= s { HasColon(s); }
  }

  lemma HasColon(s: string)
    requires PREFIX <= s
    ensures ':' in s
  {
    assert s[9] == PREFIX[9];
  }

  /** Only formatted references parse as URLs: formatting the result gives the input back. */
  lemma FormatOfParse(value: string)
    ensures ParseReference(value).Ok? ==>
              var r := ParseReference(value).value;
              ValidSlug(r.slug) && value == if r.env.Some? then FormatReference(r.env.value, r.slug) else r.slug
  {
    if PREFIX <= value {
      var remainder := value[|PREFIX|..];
      var n := FirstOf('/', remainder);
      if n < |remainder| { UrlParts(value, n); }
    }
  }

  lemma UrlParts(value: string, n: nat)
    requires PREFIX <= value && n < |value| - |PREFIX| && value[|PREFIX| + n] == '/'
    ensures var remainder := value[|PREFIX|..]; value == FormatReference(remainder[..n], remainder[n + 1..])
  {
    var remainder := value[|PREFIX|..];
    assert value == PREFIX + remainder && remainder == remainder[..n] + "/" + remainder[n + 1..];
  }
}
