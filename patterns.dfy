/**
 * Recognisers for the regular expressions of the clause store and the tool
 * handlers, on ASCII text. Each `…At(s, i)` function answers what Python's
 * backtracking `re` engine finds when it tries the expression at index `i`:
 * greedy repetitions are taken longest first and given back one character at
 * a time, alternatives are tried left to right. The result is the end of the
 * part of the match that the caller uses (the whole match, or group 1).
 * `Search` is `re.search` (the leftmost index where an attempt succeeds) and
 * `SplitAll` is `re.split` (pieces between non-overlapping leftmost matches).
 */
module Patterns {
  import opened Wrappers
  import opened Text

  datatype Span = Span(start: nat, end: nat)

  datatype Pattern =
    | Divider         // \n\s*[-=]{3,}\s*\n                                    (document_store.py:80)
    | SentenceGap     // (?<=[.!?])\s+                                         (document_store.py:285)
    | NamedCompany    // ([A-Z][a-z]+ (?:Corp|Inc|LLC|Ltd)[.,]), name before the punctuation
    | LongCompany     // ([A-Z][a-zA-Z\s]+ (?:Corp|Inc|LLC|Ltd|Corporation|Limited))[,.]?, group 1
    | Individual      // ([A-Z][a-z]+ [A-Z][a-z]+),? an individual, group 1
    | DurationWords   // (twenty-four|…|three)\s*(?:\(\d+\)\s*)?(months?|years?|days?), any case
    | DurationDigits  // (\d+)\s*(months?|years?|days?), any case
    | MileRadius      // (\d+)\s*mile\s*radius[^.]+\., any case
    | Place           // (?:State of|in)\s+([A-Z][a-z]+(?:\s+[A-Z][a-z]+)?)
    | Dollars         // \$[\d,]+(?:\.\d{2})?(?:\s*USD)?

  predicate IsDash(c: char) { c == '-' || c == '=' }

  predicate NotDot(c: char) { c != '.' }

  predicate IsDigitOrComma(c: char) { IsDigit(c) || c == ',' }

  predicate IsLetterOrSpace(c: char) { IsLetter(c) || IsSpace(c) }

  /** The class `[A-Z\s,()&/'-]` of the heading expressions. */
  predicate IsTitleChar(c: char) {
    IsUpper(c) || IsSpace(c) || c == ',' || c == '(' || c == ')' || c == '&' || c == '/' || c == '\'' || c == '-'
  }

  const ShortSuffixes: seq<string> := ["Corp", "Inc", "LLC", "Ltd"]
  const LongSuffixes: seq<string> := ["Corp", "Inc", "LLC", "Ltd", "Corporation", "Limited"]
  const NumberWords: seq<string> := ["twenty-four", "twenty four", "twelve", "six", "thirty-six", "thirty six", "two", "three"]
  const Units: seq<string> := ["month", "year", "day"]

  /** The word `w` ends with a space and then one of `suffixes`. */
  predicate EndsWithSuffix(w: string, suffixes: seq<string>) {
    exists k :: 0 <= k < |suffixes| && |suffixes[k]| < |w| && w[|w| - |suffixes[k]| - 1] == ' '
      && w[|w| - |suffixes[k]|..] == suffixes[k]
  }

  // ---------------------------------------------------------------------------
  // Shared pieces
  // ---------------------------------------------------------------------------

  lemma EndsWithSuffixAt(s: string, i: nat, j: nat, suffixes: seq<string>, e: nat)
    requires i <= j < |s| && s[j] == ' '
    requires exists k :: 0 <= k < |suffixes| && HasAt(s, j + 1, suffixes[k]) && e == j + 1 + |suffixes[k]|
    ensures EndsWithSuffix(s[i..e], suffixes)
  {
    var k :| 0 <= k < |suffixes| && HasAt(s, j + 1, suffixes[k]) && e == j + 1 + |suffixes[k]|;
    var w, x := s[i..e], suffixes[k];
    assert |w| == e - i && |x| < |w|;
    assert w[|w| - |x| - 1] == s[j] == ' ';
    assert w[|w| - |x|..] == s[j + 1..e] == x;
  }

  /** The last index in `[lo, hi)` holding `c`: where a greedy `\s*` gives back to before `c`. */
  function LastIn(s: string, lo: nat, hi: nat, c: char): (r: Option<nat>)
    requires lo <= hi <= |s|
    ensures r.Some? ==> lo <= r.value < hi && s[r.value] == c
    ensures r.Some? ==> forall q :: r.value < q < hi ==> s[q] != c
    ensures r.None? ==> forall q :: lo <= q < hi ==> s[q] != c
    decreases hi - lo
  {
    if hi == lo then None
    else if s[hi - 1] == c then Some(hi - 1)
    else LastIn(s, lo, hi - 1, c)
  }

  /**
   * The first literal of `lits` found at `j` (followed by `.` or `,` when `punct`),
   * as an alternation `(?:a|b|…)` tries them; the result is the end of the literal.
   */
  function FirstLit(s: string, j: nat, lits: seq<string>, punct: bool): (r: Option<nat>)
    ensures r.Some? ==> exists k :: 0 <= k < |lits| && HasAt(s, j, lits[k]) && r.value == j + |lits[k]|
    ensures r.Some? && punct ==> r.value < |s| && (s[r.value] == '.' || s[r.value] == ',')
    ensures r.None? ==> forall k :: 0 <= k < |lits| && HasAt(s, j, lits[k]) ==>
      !punct || j + |lits[k]| >= |s| || (s[j + |lits[k]|] != '.' && s[j + |lits[k]|] != ',')
    decreases |lits|
  {
    if |lits| == 0 then None
    else
      var e := j + |lits[0]|;
      if HasAt(s, j, lits[0]) && (!punct || (e < |s| && (s[e] == '.' || s[e] == ','))) then Some(e)
      else
        var r := FirstLit(s, j, lits[1..], punct);
        assert r.Some? ==> exists k :: 0 <= k < |lits| && HasAt(s, j, lits[k]) && r.value == j + |lits[k]| by {
          if r.Some? {
            var k :| 0 <= k < |lits| - 1 && HasAt(s, j, lits[1..][k]) && r.value == j + |lits[1..][k]|;
            assert lits[1..][k] == lits[k + 1];
          }
        }
        assert forall k :: 1 <= k < |lits| ==> lits[k] == lits[1..][k - 1];
        r
  }

  /** A letter written in lower case in `lit` matches a letter of `s` when matching ignores case. */
  lemma LetterIgnoringCase(s: string, c: nat, lit: string, k: nat)
    requires HasAtIgnoreCase(s, c, lit) && k < |lit| && IsLower(lit[k])
    ensures IsLetter(s[c + k])
  {
    assert Lower(s[c..c + |lit|])[k] == LowerChar(s[c + k]);
  }

  /** `(months?|years?|days?)` at `c`, ignoring case: the end of the unit and its optional `s`. */
  function UnitAt(s: string, c: nat): (r: Option<nat>)
    ensures r.Some? ==> c < r.value <= |s| && IsLetter(s[r.value - 1])
  {
    var u: nat := if HasAtIgnoreCase(s, c, "month") then 5
      else if HasAtIgnoreCase(s, c, "year") then 4
      else if HasAtIgnoreCase(s, c, "day") then 3
      else 0;
    if u == 0 then None
    else
      var e := c + u;
      if e < |s| && (s[e] == 's' || s[e] == 'S') then Some(e + 1)
      else
        assert IsLetter(s[e - 1]) by {
          if u == 5 { LetterIgnoringCase(s, c, "month", 4); }
          else if u == 4 { LetterIgnoringCase(s, c, "year", 3); }
          else { LetterIgnoringCase(s, c, "day", 2); }
        }
        Some(e)
  }

  // ---------------------------------------------------------------------------
  // One recogniser per expression
  // ---------------------------------------------------------------------------

  /**
   * `\n\s*[-=]{3,}\s*\n` at `i`: the first `\s*` and the dash run are maximal (giving
   * either back cannot help), and the second `\s*` gives back to its last newline.
   */
  function DividerAt(s: string, i: nat): (r: Option<nat>)
    ensures r.Some? ==> i + 5 <= r.value <= |s| && s[i] == '\n' && s[r.value - 1] == '\n'
  {
    if i < |s| && s[i] == '\n' then
      var a := RunEnd(s, i + 1, IsSpace);
      var d := RunEnd(s, a, IsDash);
      if d - a < 3 then None
      else
        var k := RunEnd(s, d, IsSpace);
        match LastIn(s, d, k, '\n')
        case Some(p) => Some(p + 1)
        case None => None
    else None
  }

  /** `(?<=[.!?])\s+` at `i`: a maximal whitespace run right after a sentence end. */
  function SentenceGapAt(s: string, i: nat): (r: Option<nat>)
    ensures r.Some? ==> 0 < i < r.value <= |s| && (s[i - 1] == '.' || s[i - 1] == '!' || s[i - 1] == '?')
    ensures r.Some? ==> (forall k :: i <= k < r.value ==> IsSpace(s[k])) && (r.value == |s| || !IsSpace(s[r.value]))
  {
    if 0 < i < |s| && (s[i - 1] == '.' || s[i - 1] == '!' || s[i - 1] == '?') && IsSpace(s[i]) then
      Some(RunEnd(s, i, IsSpace))
    else None
  }

  /**
   * `([A-Z][a-z]+ (?:Corp|Inc|LLC|Ltd)[.,])` at `i`, then `rstrip(".,")`: the end of the
   * name, just before its one punctuation mark.
   */
  function NamedCompanyAt(s: string, i: nat): (r: Option<nat>)
    ensures r.Some? ==> i < r.value < |s| && IsUpper(s[i]) && (s[r.value] == '.' || s[r.value] == ',')
    ensures r.Some? ==> EndsWithSuffix(s[i..r.value], ShortSuffixes)
  {
    if i < |s| && IsUpper(s[i]) then
      var l := RunEnd(s, i + 1, IsLower);
      if l > i + 1 && l < |s| && s[l] == ' ' then
        var r := FirstLit(s, l + 1, ShortSuffixes, true);
        if r.Some? then
          EndsWithSuffixAt(s, i, l, ShortSuffixes, r.value);
          r
        else None
      else None
    else None
  }

  /**
   * Group 1 of `([A-Z][a-zA-Z\s]+ (?:Corp|Inc|LLC|Ltd|Corporation|Limited))[,.]?` at `i`:
   * the letter-and-space run is taken whole and given back one character at a time
   * until a space followed by a suffix is found.
   */
  function LongCompanyAt(s: string, i: nat): (r: Option<nat>)
    ensures r.Some? ==> i < r.value <= |s| && IsUpper(s[i])
    ensures r.Some? ==> EndsWithSuffix(s[i..r.value], LongSuffixes)
  {
    if i < |s| && IsUpper(s[i]) then CompanyTail(s, i, RunEnd(s, i + 1, IsLetterOrSpace))
    else None
  }

  /** The backtracking of `[a-zA-Z\s]+` in `LongCompanyAt`, from the run's end `j` down. */
  function CompanyTail(s: string, i: nat, j: nat): (r: Option<nat>)
    requires i < j <= |s|
    ensures r.Some? ==> i + 2 < r.value <= |s|
    ensures r.Some? ==> EndsWithSuffix(s[i..r.value], LongSuffixes)
    decreases j
  {
    if j < i + 2 then None
    else
      var r := if j < |s| && s[j] == ' ' then FirstLit(s, j + 1, LongSuffixes, false) else None;
      if r.Some? then
        EndsWithSuffixAt(s, i, j, LongSuffixes, r.value);
        r
      else CompanyTail(s, i, j - 1)
  }

  /** `[A-Z][a-z]+` at `i`: the end of the capitalised word. */
  function NameWordAt(s: string, i: nat): (r: Option<nat>)
    ensures r.Some? ==> i + 2 <= r.value <= |s| && IsUpper(s[i])
    ensures r.Some? ==> forall k :: i < k < r.value ==> IsLower(s[k])
    ensures r.Some? ==> r.value == |s| || !IsLower(s[r.value])
  {
    if i < |s| && IsUpper(s[i]) then
      var l := RunEnd(s, i + 1, IsLower);
      if l > i + 1 then Some(l) else None
    else None
  }

  /** `,? an individual` at `i`: with a comma, the comma must be followed by the phrase. */
  predicate AnIndividualAt(s: string, i: nat)
    ensures AnIndividualAt(s, i) ==> HasAt(s, i, " an individual") || HasAt(s, i, ", an individual")
  {
    if i < |s| && s[i] == ',' then
      CommaBefore(s, i, " an individual");
      HasAt(s, i + 1, " an individual")
    else HasAt(s, i, " an individual")
  }

  /** A comma at `i` followed by `lit` is `,` then `lit` at `i`. */
  lemma CommaBefore(s: string, i: nat, lit: string)
    requires i < |s| && s[i] == ','
    ensures HasAt(s, i + 1, lit) ==> HasAt(s, i, [','] + lit)
  {
    if HasAt(s, i + 1, lit) {
      assert s[i..i + 1 + |lit|] == [s[i]] + s[i + 1..i + 1 + |lit|];
    }
  }

  /** Group 1 of `([A-Z][a-z]+ [A-Z][a-z]+),? an individual` at `i`. */
  function IndividualAt(s: string, i: nat): (r: Option<nat>)
    ensures r.Some? ==> i + 5 <= r.value <= |s| && IsUpper(s[i])
    ensures r.Some? ==> HasAt(s, r.value, " an individual") || HasAt(s, r.value, ", an individual")
  {
    match NameWordAt(s, i)
    case None => None
    case Some(l1) =>
      if l1 < |s| && s[l1] == ' ' then
        match NameWordAt(s, l1 + 1)
        case None => None
        case Some(l2) => if AnIndividualAt(s, l2) then Some(l2) else None
      else None
  }

  /**
   * `\s*(?:\(\d+\)\s*)?` then a unit, from `j`: the parenthesised number is tried first;
   * if no unit follows it, the attempt without it starts at the `(` and fails.
   */
  function UnitAfterWord(s: string, j: nat): (r: Option<nat>)
    requires j <= |s|
    ensures r.Some? ==> j < r.value <= |s| && IsLetter(s[r.value - 1])
  {
    UnitAfterSpaces(s, RunEnd(s, j, IsSpace))
  }

  /** `(?:\(\d+\)\s*)?` then a unit, from the end `a` of the spaces. */
  function UnitAfterSpaces(s: string, a: nat): (r: Option<nat>)
    requires a <= |s|
    ensures r.Some? ==> a < r.value <= |s| && IsLetter(s[r.value - 1])
  {
    var p := if a < |s| && s[a] == '(' then UnitAfterNumber(s, a) else None;
    if p.Some? then p else UnitAt(s, a)
  }

  /** `\(\d+\)\s*` then a unit, from the `(` at `a`. */
  function UnitAfterNumber(s: string, a: nat): (r: Option<nat>)
    requires a < |s|
    ensures r.Some? ==> a < r.value <= |s| && IsLetter(s[r.value - 1])
  {
    var b := RunEnd(s, a + 1, IsDigit);
    if b > a + 1 && b < |s| && s[b] == ')' then UnitAt(s, RunEnd(s, b + 1, IsSpace)) else None
  }

  /** The number-word alternatives of the duration expression, tried in order at `i`. */
  function NumberWordsAt(s: string, i: nat, words: seq<string>): (r: Option<nat>)
    requires forall k :: 0 <= k < |words| ==> |words[k]| > 0 && IsLower(words[k][0])
    ensures r.Some? ==> i < r.value <= |s| && IsLetter(s[i]) && IsLetter(s[r.value - 1])
    decreases |words|
  {
    if |words| == 0 then None
    else
      var u := NumberWordAt(s, i, words[0]);
      if u.Some? then u else NumberWordsAt(s, i, words[1..])
  }

  /** One number word at `i`, any case, then the optional number and the unit. */
  function NumberWordAt(s: string, i: nat, w: string): (r: Option<nat>)
    requires |w| > 0 && IsLower(w[0])
    ensures r.Some? ==> i < r.value <= |s| && IsLetter(s[i]) && IsLetter(s[r.value - 1])
  {
    if HasAtIgnoreCase(s, i, w) then
      var u := UnitAfterWord(s, i + |w|);
      if u.Some? then
        LetterIgnoringCase(s, i, w, 0);
        u
      else None
    else None
  }

  /** `(twenty-four|…|three)\s*(?:\(\d+\)\s*)?(months?|years?|days?)` at `i`, any case. */
  function DurationWordsAt(s: string, i: nat): (r: Option<nat>)
    ensures r.Some? ==> i < r.value <= |s| && IsLetter(s[i]) && IsLetter(s[r.value - 1])
  {
    NumberWordsAt(s, i, NumberWords)
  }

  /** `(\d+)\s*(months?|years?|days?)` at `i`, any case. */
  function DurationDigitsAt(s: string, i: nat): (r: Option<nat>)
    ensures r.Some? ==> i < r.value <= |s| && IsDigit(s[i]) && IsLetter(s[r.value - 1])
  {
    if i < |s| && IsDigit(s[i]) then
      var d := RunEnd(s, i, IsDigit);
      UnitAt(s, RunEnd(s, d, IsSpace))
    else None
  }

  /** `(\d+)\s*mile\s*radius[^.]+\.` at `i`, any case: the match ends after the first `.`. */
  function MileRadiusAt(s: string, i: nat): (r: Option<nat>)
    ensures r.Some? ==> i < r.value <= |s| && IsDigit(s[i]) && s[r.value - 1] == '.'
  {
    if i < |s| && IsDigit(s[i]) then
      var d := RunEnd(s, i, IsDigit);
      var a := RunEnd(s, d, IsSpace);
      if HasAtIgnoreCase(s, a, "mile") then
        var b := RunEnd(s, a + 4, IsSpace);
        if HasAtIgnoreCase(s, b, "radius") then
          var f := RunEnd(s, b + 6, NotDot);
          if f > b + 6 && f < |s| then Some(f + 1) else None
        else None
      else None
    else None
  }

  /** `\s+([A-Z][a-z]+(?:\s+[A-Z][a-z]+)?)` from `j`: one or two capitalised words. */
  function PlaceNameAfter(s: string, j: nat): (r: Option<nat>)
    requires j <= |s|
    ensures r.Some? ==> j + 3 <= r.value <= |s| && IsLower(s[r.value - 1])
  {
    var b := RunEnd(s, j, IsSpace);
    if b > j then
      match NameWordAt(s, b)
      case None => None
      case Some(l) =>
        var c := RunEnd(s, l, IsSpace);
        match (if c > l then NameWordAt(s, c) else None)
        case Some(l2) => Some(l2)
        case None => Some(l)
    else None
  }

  /** `(?:State of|in)\s+([A-Z][a-z]+(?:\s+[A-Z][a-z]+)?)` at `i`. */
  function PlaceAt(s: string, i: nat): (r: Option<nat>)
    ensures r.Some? ==> i < r.value <= |s| && (HasAt(s, i, "State of") || HasAt(s, i, "in"))
    ensures r.Some? ==> IsLower(s[r.value - 1])
  {
    if HasAt(s, i, "State of") && PlaceNameAfter(s, i + 8).Some? then PlaceNameAfter(s, i + 8)
    else if HasAt(s, i, "in") then PlaceNameAfter(s, i + 2)
    else None
  }

  /** `\$[\d,]+(?:\.\d{2})?(?:\s*USD)?` at `i`. */
  function DollarsAt(s: string, i: nat): (r: Option<nat>)
    ensures r.Some? ==> i + 2 <= r.value <= |s| && s[i] == '$' && !IsSpace(s[r.value - 1])
  {
    if i < |s| && s[i] == '$' then
      var d := RunEnd(s, i + 1, IsDigitOrComma);
      if d > i + 1 then
        var e := if d + 2 < |s| && s[d] == '.' && IsDigit(s[d + 1]) && IsDigit(s[d + 2]) then d + 3 else d;
        var f := RunEnd(s, e, IsSpace);
        if HasAt(s, f, "USD") then
          assert s[f + 2] == "USD"[2];
          Some(f + 3)
        else Some(e)
      else None
    else None
  }

  /** The attempt of pattern `p` at index `i`. */
  function MatchAt(p: Pattern, s: string, i: nat): (r: Option<nat>)
    ensures r.Some? ==> i < r.value <= |s|
  {
    match p
    case Divider => DividerAt(s, i)
    case SentenceGap => SentenceGapAt(s, i)
    case NamedCompany => NamedCompanyAt(s, i)
    case LongCompany => LongCompanyAt(s, i)
    case Individual => IndividualAt(s, i)
    case DurationWords => DurationWordsAt(s, i)
    case DurationDigits => DurationDigitsAt(s, i)
    case MileRadius => MileRadiusAt(s, i)
    case Place => PlaceAt(s, i)
    case Dollars => DollarsAt(s, i)
  }

  // ---------------------------------------------------------------------------
  // re.search and re.split
  // ---------------------------------------------------------------------------

  /** `re.search` from index `from`: the leftmost index where an attempt succeeds. */
  function Search(p: Pattern, s: string, from: nat): (r: Option<Span>)
    ensures r.Some? ==> from <= r.value.start < r.value.end <= |s|
    ensures r.Some? ==> MatchAt(p, s, r.value.start) == Some(r.value.end)
    decreases |s| + 1 - from
  {
    if from > |s| then None
    else
      var m := MatchAt(p, s, from);
      if m.Some? then Some(Span(from, m.value)) else Search(p, s, from + 1)
  }

  /** One step of `Search`: it stops where an attempt succeeds and moves on where none does. */
  lemma SearchStep(p: Pattern, s: string, from: nat)
    requires from <= |s|
    ensures MatchAt(p, s, from).Some? ==> Search(p, s, from) == Some(Span(from, MatchAt(p, s, from).value))
    ensures MatchAt(p, s, from).None? ==> Search(p, s, from) == Search(p, s, from + 1)
    ensures Search(p, s, from).Some? && Search(p, s, from).value.start > from ==> MatchAt(p, s, from).None?
  {
  }

  /** No attempt before the match `Search` finds succeeds: it is the leftmost one. */
  lemma {:induction false} SearchLeftmost(p: Pattern, s: string, from: nat, j: nat)
    requires Search(p, s, from).Some? && from <= j < Search(p, s, from).value.start
    ensures MatchAt(p, s, j).None?
    decreases |s| + 1 - from
  {
    var sp := Search(p, s, from).value;
    SearchStep(p, s, from);
    assert MatchAt(p, s, from).None?;
    assert Search(p, s, from + 1) == Some(sp);
    if j == from {
      assert MatchAt(p, s, j) == MatchAt(p, s, from);
    } else {
      SearchLeftmost(p, s, from + 1, j);
    }
  }

  /** When `Search` finds nothing, no attempt from `from` on succeeds. */
  lemma {:induction false} SearchNone(p: Pattern, s: string, from: nat, j: nat)
    requires Search(p, s, from).None? && from <= j <= |s|
    ensures MatchAt(p, s, j).None?
    decreases |s| + 1 - from
  {
    SearchStep(p, s, from);
    if j > from {
      SearchNone(p, s, from + 1, j);
    }
  }

  /** `re.search` from the start: no attempt before the start of the span it finds succeeds. */
  lemma SearchFirst(p: Pattern, s: string)
    ensures Search(p, s, 0).Some? ==> forall j :: 0 <= j < Search(p, s, 0).value.start ==> MatchAt(p, s, j).None?
  {
    if Search(p, s, 0).Some? {
      forall j | 0 <= j < Search(p, s, 0).value.start
        ensures MatchAt(p, s, j).None?
      {
        SearchLeftmost(p, s, 0, j);
      }
    }
  }

  /** The text of the leftmost match, if any. */
  function FirstText(p: Pattern, s: string): (r: Option<string>)
    ensures r.Some? ==> |r.value| > 0
    ensures r.None? <==> Search(p, s, 0).None?
  {
    match Search(p, s, 0)
    case Some(sp) => Some(s[sp.start..sp.end])
    case None => None
  }

  /** `re.split` from index `from`: the pieces between the non-overlapping leftmost matches. */
  function SplitAll(p: Pattern, s: string, from: nat): (r: seq<string>)
    requires from <= |s|
    ensures |r| >= 1
    decreases |s| - from
  {
    match Search(p, s, from)
    case None => [s[from..]]
    case Some(sp) => [s[from..sp.start]] + SplitAll(p, s, sp.end)
  }

  /** A text where the pattern never matches is one piece. */
  lemma SplitNoMatch(p: Pattern, s: string, from: nat)
    requires from <= |s|
    requires forall j :: from <= j <= |s| ==> MatchAt(p, s, j).None?
    ensures SplitAll(p, s, from) == [s[from..]]
  {
  }

  /** `hr_pattern.split(text)`: the rough sections between divider lines. */
  function SplitDividers(text: string): (r: seq<string>)
    ensures |r| >= 1
  {
    SplitAll(Divider, text, 0)
  }

  /** `re.split(r"(?<=[.!?])\s+", text)`: the sentences. */
  function Sentences(text: string): (r: seq<string>)
    ensures |r| >= 1
  {
    SplitAll(SentenceGap, text, 0)
  }

  /** Every sentence of a stripped text is itself stripped, so none is empty. */
  lemma {:induction false} SentencesOfStripped(s: string, from: nat)
    requires from < |s| && !IsSpace(s[from]) && !IsSpace(s[|s| - 1])
    ensures forall k :: 0 <= k < |SplitAll(SentenceGap, s, from)| ==> Stripped(SplitAll(SentenceGap, s, from)[k])
    decreases |s| - from
  {
    var r := SplitAll(SentenceGap, s, from);
    match Search(SentenceGap, s, from)
    case None =>
      assert r == [s[from..]];
    case Some(sp) =>
      var m := SentenceGapAt(s, sp.start);
      assert IsSpace(s[sp.start]);
      assert sp.end < |s| by {
        assert sp.start <= |s| - 1 && !IsSpace(s[|s| - 1]);
      }
      SentencesOfStripped(s, sp.end);
      assert Stripped(s[from..sp.start]);
      assert r == [s[from..sp.start]] + SplitAll(SentenceGap, s, sp.end);
  }

  /** The sentences of a stripped text are stripped and non-empty. */
  lemma SentencesStripped(text: string)
    requires Stripped(text)
    ensures forall k :: 0 <= k < |Sentences(text)| ==> Stripped(Sentences(text)[k])
  {
    SentencesOfStripped(text, 0);
  }

  // ---------------------------------------------------------------------------
  // Anchored expressions on one section or one line
  // ---------------------------------------------------------------------------

  /**
   * The end of `\d+(?:\.\d+)*` from a digit at `i`: every `\d+` is maximal and a
   * `.` is taken only when a digit follows it. Giving back repetitions never helps the
   * callers below, because each would then meet a `.` followed by a digit.
   */
  function NumberEnd(s: string, i: nat): (r: nat)
    requires i < |s| && IsDigit(s[i])
    ensures i < r <= |s| && IsDigit(s[r - 1])
    ensures r == |s| || s[r] != '.' || r + 1 == |s| || !IsDigit(s[r + 1])
    ensures r == |s| || !IsDigit(s[r])
    decreases |s| - i
  {
    var d := RunEnd(s, i, IsDigit);
    if d + 1 < |s| && s[d] == '.' && IsDigit(s[d + 1]) then NumberEnd(s, d + 1) else d
  }

  /**
   * `re.match(r"^(\d+(?:\.\d+)*)\.\s+([A-Z][A-Z\s,()&/'-]{3,})", section)`, then
   * `group(2).strip()`: the title of a numbered section.
   */
  function NumberedTitle(section: string): (r: Option<string>)
    ensures r.Some? ==> |r.value| > 0 && IsUpper(r.value[0])
    ensures r.Some? ==> forall k :: 0 <= k < |r.value| ==> IsTitleChar(r.value[k])
  {
    if |section| > 0 && IsDigit(section[0]) then
      var p := NumberEnd(section, 0);
      if p + 1 < |section| && section[p] == '.' && IsSpace(section[p + 1]) then
        var a := RunEnd(section, p + 1, IsSpace);
        if a < |section| && IsUpper(section[a]) then TitleFrom(section, a) else None
      else None
    else None
  }

  /** Group 2 of the numbered heading, from its capital letter at `a`, stripped. */
  function TitleFrom(section: string, a: nat): (r: Option<string>)
    requires a < |section| && IsUpper(section[a])
    ensures r.Some? ==> |r.value| > 0 && IsUpper(r.value[0])
    ensures r.Some? ==> forall k :: 0 <= k < |r.value| ==> IsTitleChar(r.value[k])
  {
    var t := RunEnd(section, a + 1, IsTitleChar);
    if t - (a + 1) >= 3 then
      var w := section[a..t];
      assert forall k :: 0 <= k < |w| ==> IsTitleChar(w[k]) by {
        forall k | 0 <= k < |w| ensures IsTitleChar(w[k]) {
          assert w[k] == section[a + k];
        }
      }
      StripKeepsFirst(w);
      Some(Strip(w))
    else None
  }

  /** `re.match(r"^\s*\d+(?:\.\d+)*\.?\s+[A-Z]", line)`: a numbered heading line. */
  predicate HeadingLine(line: string) {
    var a := RunEnd(line, 0, IsSpace);
    a < |line| && IsDigit(line[a]) &&
      var p := NumberEnd(line, a);
      var q := if p < |line| && line[p] == '.' then p + 1 else p;
      q < |line| && IsSpace(line[q]) &&
        var b := RunEnd(line, q, IsSpace);
        b < |line| && IsUpper(line[b])
  }

  /** `re.match(r"^\s*[A-Z][A-Z\s,()&/'-]{6,}\s*$", line)`: an all-capitals title line. */
  predicate CapsTitleLine(line: string) {
    var a := RunEnd(line, 0, IsSpace);
    a < |line| && IsUpper(line[a]) &&
      var t := RunEnd(line, a + 1, IsTitleChar);
      t == |line| && t - (a + 1) >= 6
  }

  /** `re.search(r"(?i)(between|party|parties|corporation|individual|agreement)", section)`. */
  predicate MentionsParty(section: string) {
    var l := Lower(section);
    Occurs(l, "between") || Occurs(l, "party") || Occurs(l, "parties")
      || Occurs(l, "corporation") || Occurs(l, "individual") || Occurs(l, "agreement")
  }
}
