/**
 * Classification of a section title into a clause key: eight keyword rules tried
 * in order, each a case-insensitive search, and a slug of the title when none
 * applies (document_store.py:45-63).
 */
module Titles {
  import opened Wrappers
  import opened Text

  /** The keys of the title rules, in the order the rules are tried. */
  const RuleKeys: seq<string> := ["confidentiality", "non_compete", "ip_assignment", "indemnification",
                                  "liability_cap", "term", "governing_law", "general"]

  /** `non.?compete` in lower-cased text: `.` takes any one character except a newline. */
  predicate NonCompete(l: string) {
    exists i :: 0 <= i <= |l| && HasAt(l, i, "non") &&
      (HasAt(l, i + 3, "compete") || (i + 3 < |l| && l[i + 3] != '\n' && HasAt(l, i + 4, "compete")))
  }

  /** `^term\b` in lower-cased text. */
  predicate StartsWithTerm(l: string) {
    HasAt(l, 0, "term") && (|l| == 4 || !IsWordChar(l[4]))
  }

  /** Rule `k` of the title table, on the title `h`; the rules use `(?i)`, so they are checked on `lower(h)`. */
  predicate RuleMatches(k: nat, h: string) {
    var l := Lower(h);
    if k == 0 then Occurs(l, "confidential")
    else if k == 1 then NonCompete(l) || Occurs(l, "restrictive covenant")
    else if k == 2 then Occurs(l, "intellectual property") || Occurs(l, "ip assignment") || Occurs(l, "work product")
    else if k == 3 then Occurs(l, "indemnif")
    else if k == 4 then Occurs(l, "limitation of liability") || Occurs(l, "liability cap")
    else if k == 5 then StartsWithTerm(l) || Occurs(l, "term and termination") || Occurs(l, "termination")
    else if k == 6 then Occurs(l, "governing law") || Occurs(l, "dispute resolution") || Occurs(l, "jurisdiction")
    else if k == 7 then Occurs(l, "general provisions") || Occurs(l, "miscellaneous")
    else false
  }

  /** The first rule, from `k` on, that matches `h`. */
  function FirstRule(h: string, k: nat): (r: Option<nat>)
    requires k <= |RuleKeys|
    ensures r.Some? ==> k <= r.value < |RuleKeys| && RuleMatches(r.value, h)
    ensures r.Some? ==> forall j :: k <= j < r.value ==> !RuleMatches(j, h)
    ensures r.None? ==> forall j :: k <= j < |RuleKeys| ==> !RuleMatches(j, h)
    decreases |RuleKeys| - k
  {
    if k == |RuleKeys| then None
    else if RuleMatches(k, h) then Some(k)
    else FirstRule(h, k + 1)
  }

  predicate IsSlugChar(c: char) { IsLower(c) || IsDigit(c) }

  predicate NotSlugChar(c: char) { !IsSlugChar(c) }

  /** What the slug fallback can produce: `[a-z0-9_]`, no `_` at either end, no `__`. */
  ghost predicate IsSlug(r: string) {
    SlugCharsOnly(r) && (|r| > 0 ==> r[0] != '_' && r[|r| - 1] != '_') && NoDoubleUnderscore(r)
  }

  /** Every character is `[a-z0-9]` or `_`. */
  ghost predicate SlugCharsOnly(c: string) {
    forall i :: 0 <= i < |c| ==> IsSlugChar(c[i]) || c[i] == '_'
  }

  /** No two neighbouring characters are both `_`. */
  ghost predicate NoDoubleUnderscore(c: string) {
    forall i, j :: 0 <= i < j < |c| && j == i + 1 ==> c[i] != '_' || c[j] != '_'
  }

  /** The `[a-z0-9]` characters of `s`, in order. */
  function SlugChars(s: string): (r: string)
    ensures |r| <= |s|
  {
    if |s| == 0 then ""
    else if IsSlugChar(s[0]) then [s[0]] + SlugChars(s[1..])
    else SlugChars(s[1..])
  }

  lemma {:induction false} SlugCharsAppend(a: string, b: string)
    ensures SlugChars(a + b) == SlugChars(a) + SlugChars(b)
    decreases |a|
  {
    if |a| == 0 {
      assert a + b == b;
    } else {
      assert (a + b)[0] == a[0];
      assert (a + b)[1..] == a[1..] + b;
      SlugCharsAppend(a[1..], b);
    }
  }

  lemma {:induction false} SlugCharsNone(s: string)
    requires forall i :: 0 <= i < |s| ==> !IsSlugChar(s[i])
    ensures SlugChars(s) == ""
    decreases |s|
  {
    if |s| > 0 {
      assert !IsSlugChar(s[0]);
      assert forall i :: 0 <= i < |s| - 1 ==> s[1..][i] == s[i + 1];
      SlugCharsNone(s[1..]);
    }
  }

  /** `re.sub(r"[^a-z0-9]+", "_", s)`: every maximal run of other characters becomes one `_`. */
  function CollapseRuns(s: string): (r: string)
    ensures forall i :: 0 <= i < |r| ==> IsSlugChar(r[i]) || r[i] == '_'
    ensures forall i, j :: 0 <= i < j < |r| && j == i + 1 ==> r[i] != '_' || r[j] != '_'
    ensures |s| > 0 ==> |r| > 0 && (IsSlugChar(s[0]) ==> r[0] == s[0])
    ensures |s| > 0 && !IsSlugChar(s[0]) ==> r[0] == '_'
    ensures SlugChars(r) == SlugChars(s)
    decreases |s|
  {
    if |s| == 0 then ""
    else if IsSlugChar(s[0]) then
      var rest := CollapseRuns(s[1..]);
      assert SlugChars(s) == [s[0]] + SlugChars(s[1..]);
      SlugCharsAppend([s[0]], rest);
      [s[0]] + rest
    else
      var e := RunEnd(s, 0, NotSlugChar);
      var rest := CollapseRuns(s[e..]);
      assert s == s[..e] + s[e..];
      SlugCharsAppend(s[..e], s[e..]);
      SlugCharsNone(s[..e]);
      SlugCharsAppend("_", rest);
      "_" + rest
  }

  /** `s.lstrip("_")`. */
  function TrimUnderscoreLeft(s: string): (r: string)
    ensures |r| <= |s| && r == s[|s| - |r|..]
    ensures r == [] || r[0] != '_'
    ensures forall i :: 0 <= i < |s| - |r| ==> s[i] == '_'
  {
    if |s| > 0 && s[0] == '_' then TrimUnderscoreLeft(s[1..]) else s
  }

  /** `s.rstrip("_")`. */
  function TrimUnderscoreRight(s: string): (r: string)
    ensures |r| <= |s| && r == s[..|r|]
    ensures r == [] || r[|r| - 1] != '_'
    ensures forall i :: |r| <= i < |s| ==> s[i] == '_'
  {
    if |s| > 0 && s[|s| - 1] == '_' then TrimUnderscoreRight(s[..|s| - 1]) else s
  }

  lemma {:induction false} TrimUnderscoreLeftChars(s: string)
    ensures SlugChars(TrimUnderscoreLeft(s)) == SlugChars(s)
    decreases |s|
  {
    if |s| > 0 && s[0] == '_' {
      TrimUnderscoreLeftChars(s[1..]);
    }
  }

  /** Dropping a last character that is not `[a-z0-9]` keeps the `[a-z0-9]` characters. */
  lemma DropLastChars(s: string)
    requires |s| > 0 && !IsSlugChar(s[|s| - 1])
    ensures SlugChars(s[..|s| - 1]) == SlugChars(s)
  {
    assert s == s[..|s| - 1] + [s[|s| - 1]];
    SlugCharsAppend(s[..|s| - 1], [s[|s| - 1]]);
    assert SlugChars([s[|s| - 1]]) == "";
  }

  lemma {:induction false} TrimUnderscoreRightChars(s: string)
    ensures SlugChars(TrimUnderscoreRight(s)) == SlugChars(s)
    decreases |s|
  {
    if |s| > 0 && s[|s| - 1] == '_' {
      DropLastChars(s);
      TrimUnderscoreRightChars(s[..|s| - 1]);
    }
  }

  lemma {:induction false} TrimLeftChars(s: string)
    ensures SlugChars(TrimLeft(s)) == SlugChars(s)
    decreases |s|
  {
    if |s| > 0 && IsSpace(s[0]) {
      TrimLeftChars(s[1..]);
    }
  }

  lemma {:induction false} TrimRightChars(s: string)
    ensures SlugChars(TrimRight(s)) == SlugChars(s)
    decreases |s|
  {
    if |s| > 0 && IsSpace(s[|s| - 1]) {
      DropLastChars(s);
      TrimRightChars(s[..|s| - 1]);
    }
  }

  /** The fallback of the title classification: `re.sub(r"[^a-z0-9]+", "_", h.lower().strip()).strip("_")`. */
  function Slug(h: string): string {
    TrimUnderscoreRight(TrimUnderscoreLeft(CollapseRuns(Strip(Lower(h)))))
  }

  /**
   * A slug is made of `[a-z0-9_]` with no `_` at either end and none doubled, and
   * it keeps every `[a-z0-9]` character of the lower-cased title, in order.
   */
  lemma SlugSpec(h: string)
    ensures IsSlug(Slug(h))
    ensures SlugChars(Slug(h)) == SlugChars(Lower(h))
  {
    SlugShape(CollapseRuns(Strip(Lower(h))));
    SlugKeepsChars(h);
  }

  /** The slug keeps every `[a-z0-9]` character of the lower-cased title, in order. */
  lemma SlugKeepsChars(h: string)
    ensures SlugChars(Slug(h)) == SlugChars(Lower(h))
  {
    var c := CollapseRuns(Strip(Lower(h)));
    TrimUnderscoreLeftChars(c);
    TrimUnderscoreRightChars(TrimUnderscoreLeft(c));
    TrimLeftChars(Lower(h));
    TrimRightChars(TrimLeft(Lower(h)));
  }

  /** Trimming `_` from both ends of a collapsed text gives a slug. */
  lemma SlugShape(c: string)
    requires SlugCharsOnly(c) && NoDoubleUnderscore(c)
    ensures IsSlug(TrimUnderscoreRight(TrimUnderscoreLeft(c)))
  {
    var l := TrimUnderscoreLeft(c);
    SuffixShape(c, |c| - |l|);
    var r := TrimUnderscoreRight(l);
    PrefixShape(l, |r|);
  }

  /** A suffix of a text of slug characters without doubled underscores is one too. */
  lemma SuffixShape(c: string, a: nat)
    requires a <= |c| && SlugCharsOnly(c) && NoDoubleUnderscore(c)
    ensures SlugCharsOnly(c[a..]) && NoDoubleUnderscore(c[a..])
  {
    var r := c[a..];
    forall i | 0 <= i < |r| ensures IsSlugChar(r[i]) || r[i] == '_' {
      assert r[i] == c[a + i];
    }
    forall i, j | 0 <= i < j < |r| && j == i + 1 ensures r[i] != '_' || r[j] != '_' {
      assert r[i] == c[a + i] && r[j] == c[a + j];
    }
  }

  /** A prefix of a text of slug characters without doubled underscores is one too. */
  lemma PrefixShape(c: string, b: nat)
    requires b <= |c| && SlugCharsOnly(c) && NoDoubleUnderscore(c)
    ensures SlugCharsOnly(c[..b]) && NoDoubleUnderscore(c[..b])
  {
    var r := c[..b];
    forall i | 0 <= i < |r| ensures IsSlugChar(r[i]) || r[i] == '_' {
      assert r[i] == c[i];
    }
    forall i, j | 0 <= i < j < |r| && j == i + 1 ensures r[i] != '_' || r[j] != '_' {
      assert r[i] == c[i] && r[j] == c[j];
    }
  }

  /** A title that starts with a capital letter has a non-empty slug. */
  lemma SlugOfCapitalised(h: string)
    requires |h| > 0 && IsUpper(h[0])
    ensures Slug(h) != ""
  {
    SlugKeepsChars(h);
    var l := Lower(h);
    assert IsSlugChar(l[0]);
    assert l == [l[0]] + l[1..];
    SlugCharsAppend([l[0]], l[1..]);
    assert SlugChars([l[0]]) == [l[0]];
    assert SlugChars("") == "";
  }

  /**
   * `_identify_clause(h)`: the key of the first rule that matches, otherwise the slug.
   * The result is either one of the rule keys or a slug.
   */
  function Identify(h: string): (r: string)
    ensures (exists k :: 0 <= k < |RuleKeys| && RuleMatches(k, h)) ==>
      exists k :: 0 <= k < |RuleKeys| && RuleMatches(k, h) && r == RuleKeys[k] && forall j :: 0 <= j < k ==> !RuleMatches(j, h)
    ensures (forall k :: 0 <= k < |RuleKeys| ==> !RuleMatches(k, h)) ==> r == Slug(h)
  {
    match FirstRule(h, 0)
    case Some(k) => RuleKeys[k]
    case None => Slug(h)
  }

  /** Every key the classification produces is a rule key or a slug, and never empty for a capitalised title. */
  lemma IdentifyShape(h: string)
    requires |h| > 0 && IsUpper(h[0])
    ensures Identify(h) in RuleKeys || IsSlug(Identify(h))
    ensures Identify(h) != ""
  {
    match FirstRule(h, 0)
    case Some(k) =>
      assert Identify(h) == RuleKeys[k];
    case None =>
      SlugSpec(h);
      SlugOfCapitalised(h);
  }
}
