/**
 * The clause store of document_store.py: a dictionary from clause key to clause
 * text, filled by segmenting a plain-text agreement, and the read-only queries on
 * it (lookup through aliases, redacted summaries, party names, field extraction).
 */
module ClauseStore {
  import opened Wrappers
  import opened Text
  import opened Patterns
  import opened Titles

  // ---------------------------------------------------------------------------
  // The store: a Python dict, which remembers the order in which keys arrived
  // ---------------------------------------------------------------------------

  datatype ClauseMap = ClauseMap(order: seq<string>, text: map<string, string>) {
    /** The keys are listed once each, in insertion order, and are exactly the keys of `text`. */
    ghost predicate Valid() {
      (forall i, j :: 0 <= i < j < |order| ==> order[i] != order[j])
      && (forall k :: k in text <==> k in order)
    }

    /** `d.get(k)`. */
    function Get(k: string): Option<string> {
      if k in text then Some(text[k]) else None
    }

    /** `d[k] = v`: a new key goes to the end of the order, an existing one keeps its place. */
    function Put(k: string, v: string): (r: ClauseMap)
      requires Valid()
      ensures r.Valid()
      ensures r.text == text[k := v]
      ensures r.order == if k in text then order else order + [k]
    {
      if k in text then ClauseMap(order, text[k := v]) else ClauseMap(order + [k], text[k := v])
    }

    /** `list(d.values())`, in insertion order. */
    function Values(): (r: seq<string>)
      requires Valid()
      ensures |r| == |order|
      ensures forall i :: 0 <= i < |order| ==> r[i] == text[order[i]]
    {
      seq(|order|, i requires 0 <= i < |order| && Valid() => text[order[i]])
    }
  }

  function Empty(): (r: ClauseMap)
    ensures r.Valid() && r.text == map[]
  {
    ClauseMap([], map[])
  }

  // ---------------------------------------------------------------------------
  // Clause names and aliases (document_store.py:14-42, 120-132)
  // ---------------------------------------------------------------------------

  const Aliases: map<string, string> := map[
    "confidentiality" := "confidentiality",
    "confidential" := "confidentiality",
    "nda" := "confidentiality",
    "non_compete" := "non_compete",
    "non-compete" := "non_compete",
    "noncompete" := "non_compete",
    "non compete" := "non_compete",
    "restrictive covenant" := "non_compete",
    "ip_assignment" := "ip_assignment",
    "ip assignment" := "ip_assignment",
    "intellectual property" := "ip_assignment",
    "ip" := "ip_assignment",
    "work product" := "ip_assignment",
    "indemnification" := "indemnification",
    "indemnity" := "indemnification",
    "liability_cap" := "liability_cap",
    "liability cap" := "liability_cap",
    "limitation of liability" := "liability_cap",
    "liability" := "liability_cap",
    "term" := "term",
    "term and termination" := "term",
    "termination" := "term",
    "duration" := "term",
    "governing_law" := "governing_law",
    "governing law" := "governing_law",
    "jurisdiction" := "governing_law",
    "dispute resolution" := "governing_law"
  ]

  /** The keys the alias table resolves to. */
  const CanonicalKeys: set<string> :=
    {"confidentiality", "non_compete", "ip_assignment", "indemnification", "liability_cap", "term", "governing_law"}

  /** Every alias resolves to a canonical key, and every canonical key is its own alias. */
  lemma AliasesCanonical()
    ensures forall a :: a in Aliases ==> Aliases[a] in CanonicalKeys
    ensures forall k :: k in CanonicalKeys ==> k in Aliases && Aliases[k] == k
  {
  }

  /** A canonical key is lower-case and stripped, without `-` or spaces. */
  lemma CanonicalPlain(k: string)
    requires k in CanonicalKeys
    ensures NoUpper(k) && Stripped(k) && '-' !in k && ' ' !in k
  {
    SnakePlain(k);
  }

  /** A name of lower-case letters and inner underscores. */
  lemma SnakePlain(k: string)
    requires |k| > 0 && IsLower(k[0]) && IsLower(k[|k| - 1])
    requires forall i :: 0 <= i < |k| ==> IsLower(k[i]) || k[i] == '_'
    ensures NoUpper(k) && Stripped(k) && '-' !in k && ' ' !in k
  {
  }

  /** The only aliases that resolve to another key are written without `_`. */
  lemma AliasesWithUnderscore()
    ensures forall a :: a in Aliases && Aliases[a] != a ==> '_' !in a
  {
    forall a | a in Aliases && Aliases[a] != a
      ensures '_' !in a
    {
      AliasWithoutUnderscore(a);
    }
  }

  /** The synonyms, grouped, none of which is written with `_`. */
  lemma AliasWithoutUnderscore(a: string)
    requires a in Aliases && Aliases[a] != a
    ensures '_' !in a
  {
    if a in {"confidential", "nda", "non-compete", "noncompete", "non compete", "restrictive covenant"} {
    } else if a in {"ip assignment", "intellectual property", "ip", "work product", "indemnity"} {
    } else if a in {"liability cap", "limitation of liability", "liability", "term and termination"} {
    } else {
      assert a in {"termination", "duration", "governing law", "jurisdiction", "dispute resolution"};
    }
  }

  /** Every alias is already lower-case and stripped. */
  lemma AliasPlain(a: string)
    requires a in Aliases
    ensures NoUpper(a) && Stripped(a)
  {
    if a in {"confidentiality", "confidential", "nda"} {
      ConfidentialityAliasesPlain(a);
    } else if a in {"non_compete", "non-compete", "noncompete", "non compete", "restrictive covenant"} {
      NonCompeteAliasesPlain(a);
    } else if a in {"ip_assignment", "ip assignment", "intellectual property", "ip", "work product"} {
      IpAssignmentAliasesPlain(a);
    } else if a in {"indemnification", "indemnity"} {
      IndemnificationAliasesPlain(a);
    } else if a in {"liability_cap", "liability cap", "limitation of liability", "liability"} {
      LiabilityCapAliasesPlain(a);
    } else if a in {"term", "term and termination", "termination", "duration"} {
      TermAliasesPlain(a);
    } else if a in {"governing_law", "governing law", "jurisdiction", "dispute resolution"} {
      GoverningLawAliasesPlain(a);
    }
  }

  lemma ConfidentialityAliasesPlain(a: string)
    requires a in {"confidentiality", "confidential", "nda"}
    ensures NoUpper(a) && Stripped(a)
  {
  }

  lemma NonCompeteAliasesPlain(a: string)
    requires a in {"non_compete", "non-compete", "noncompete", "non compete", "restrictive covenant"}
    ensures NoUpper(a) && Stripped(a)
  {
  }

  lemma IpAssignmentAliasesPlain(a: string)
    requires a in {"ip_assignment", "ip assignment", "intellectual property", "ip", "work product"}
    ensures NoUpper(a) && Stripped(a)
  {
  }

  lemma IndemnificationAliasesPlain(a: string)
    requires a in {"indemnification", "indemnity"}
    ensures NoUpper(a) && Stripped(a)
  {
  }

  lemma LiabilityCapAliasesPlain(a: string)
    requires a in {"liability_cap", "liability cap", "limitation of liability", "liability"}
    ensures NoUpper(a) && Stripped(a)
  {
  }

  lemma TermAliasesPlain(a: string)
    requires a in {"term", "term and termination", "termination", "duration"}
    ensures NoUpper(a) && Stripped(a)
  {
  }

  lemma GoverningLawAliasesPlain(a: string)
    requires a in {"governing_law", "governing law", "jurisdiction", "dispute resolution"}
    ensures NoUpper(a) && Stripped(a)
  {
  }

  /**
   * `_normalize_clause_name(name)`: the lower-cased, stripped name is looked up in the
   * alias table; an unknown name has `-` and spaces turned into `_`.
   */
  function Normalize(name: string): (r: string)
    ensures NoUpper(r) && '-' !in r && ' ' !in r
    ensures Strip(Lower(name)) in Aliases ==> r in CanonicalKeys
  {
    var lowered := Strip(Lower(name));
    if lowered in Aliases then
      AliasesCanonical();
      CanonicalPlain(Aliases[lowered]);
      Aliases[lowered]
    else
      LowerNoUpper(name);
      StripNoUpper(Lower(name));
      FallbackShape(lowered);
      Replace(Replace(lowered, "-", "_"), " ", "_")
  }

  /** The fallback of `Normalize` on a lower-case name: one character for one, `-` and space become `_`. */
  lemma FallbackShape(l: string)
    requires NoUpper(l)
    ensures var y := Replace(Replace(l, "-", "_"), " ", "_");
      |y| == |l| && NoUpper(y) && '-' !in y && ' ' !in y
      && (forall i :: 0 <= i < |l| ==> y[i] == if l[i] == '-' || l[i] == ' ' then '_' else l[i])
  {
    ReplaceOneChar(l, '-', '_');
    var m := Replace(l, "-", "_");
    ReplaceOneChar(m, ' ', '_');
    var y := Replace(m, " ", "_");
    forall i | 0 <= i < |l| ensures y[i] == if l[i] == '-' || l[i] == ' ' then '_' else l[i] {
      assert m[i] == if l[i] == '-' then '_' else l[i];
    }
    assert '-' !in y by {
      forall i | 0 <= i < |y| ensures y[i] != '-' { }
    }
    assert ' ' !in y by {
      forall i | 0 <= i < |y| ensures y[i] != ' ' { }
    }
  }

  /** An alias and the key it stands for normalise alike, whatever their case and surrounding spaces. */
  lemma NormalizeAlias(a: string)
    requires a in Aliases
    ensures Normalize(a) == Aliases[a] == Normalize(Aliases[a])
  {
    AliasesCanonical();
    AliasPlain(a);
    AliasPlain(Aliases[a]);
    LowerIdentity(a);
    LowerIdentity(Aliases[a]);
  }

  /** A canonical key normalises to itself. */
  lemma NormalizeCanonical(k: string)
    requires k in CanonicalKeys
    ensures Normalize(k) == k
  {
    AliasesCanonical();
    CanonicalPlain(k);
    LowerIdentity(k);
  }

  /** The fallback spelling of an unknown name is lower-case and stripped already. */
  lemma FallbackPlain(l: string)
    requires NoUpper(l) && (l == "" || Stripped(l))
    ensures var y := Replace(Replace(l, "-", "_"), " ", "_"); Strip(Lower(y)) == y
  {
    FallbackShape(l);
    var y := Replace(Replace(l, "-", "_"), " ", "_");
    LowerIdentity(y);
    if |l| > 0 {
      assert y[0] == if l[0] == '-' || l[0] == ' ' then '_' else l[0];
      assert y[|y| - 1] == if l[|l| - 1] == '-' || l[|l| - 1] == ' ' then '_' else l[|l| - 1];
    } else {
      assert y == "";
    }
  }

  /** The fallback spelling of an unknown name normalises to itself. */
  lemma FallbackFixed(l: string)
    requires NoUpper(l) && (l == "" || Stripped(l)) && l !in Aliases
    ensures var y := Replace(Replace(l, "-", "_"), " ", "_"); Normalize(y) == y
  {
    FallbackShape(l);
    FallbackPlain(l);
    var y := Replace(Replace(l, "-", "_"), " ", "_");
    if y in Aliases {
      assert y != l;
      var i :| 0 <= i < |l| && y[i] != l[i];
      assert y[i] == '_';
      UnderscoreAlias(y);
    } else {
      CharAbsent(y, '-');
      ReplaceAbsent(y, "-", "_");
      CharAbsent(y, ' ');
      ReplaceAbsent(y, " ", "_");
      assert Normalize(y) == Replace(Replace(y, "-", "_"), " ", "_");
    }
  }

  lemma UnderscoreAlias(a: string)
    requires a in Aliases && '_' in a && Strip(Lower(a)) == a
    ensures Normalize(a) == a
  {
    AliasesWithUnderscore();
  }

  /** Normalising twice gives what normalising once gives. */
  lemma NormalizeIdempotent(name: string)
    ensures Normalize(Normalize(name)) == Normalize(name)
  {
    var l := Strip(Lower(name));
    if l in Aliases {
      AliasesCanonical();
      NormalizeCanonical(Aliases[l]);
    } else {
      LowerNoUpper(name);
      StripNoUpper(Lower(name));
      FallbackFixed(l);
    }
  }

  /** `get_clause(name)`: the text stored under the normalised name, if any. */
  function GetClause(cm: ClauseMap, name: string): Option<string> {
    cm.Get(Normalize(name))
  }

  /** Asking by an alias finds what asking by its canonical key finds. */
  lemma GetClauseAlias(cm: ClauseMap, a: string)
    requires a in Aliases
    ensures GetClause(cm, a) == GetClause(cm, Aliases[a]) == cm.Get(Aliases[a])
  {
    NormalizeAlias(a);
  }

  // ---------------------------------------------------------------------------
  // Segmentation (document_store.py:66-108)
  // ---------------------------------------------------------------------------

  /**
   * Where a stripped, non-empty section goes: the key of the title of its numbered
   * heading, `parties` when it has no such heading but mentions a party word, or nowhere.
   */
  function Destination(section: string): Option<string> {
    match NumberedTitle(section)
    case Some(h) => Some(Identify(h))
    case None => if MentionsParty(section) then Some("parties") else None
  }

  /** One pass of the loop of `load_document`, on one rough section. */
  function Step(cm: ClauseMap, rough: string): (r: ClauseMap)
    requires cm.Valid()
    ensures r.Valid()
  {
    var section := Strip(rough);
    if section == "" then cm
    else
      match NumberedTitle(section)
      case Some(h) =>
        var key := Identify(h);
        if key in cm.text then cm.Put(key, cm.text[key] + "\n\n" + section) else cm.Put(key, section)
      case None =>
        if MentionsParty(section) then cm.Put("parties", Strip(cm.Get("parties").GetOr("") + "\n\n" + section))
        else cm
  }

  /** The store after the loop has run over `rough`, starting from an empty store. */
  function Accumulate(rough: seq<string>): (r: ClauseMap)
    ensures r.Valid()
  {
    if |rough| == 0 then Empty() else Step(Accumulate(rough[..|rough| - 1]), rough[|rough| - 1])
  }

  lemma AccumulatePrefix(rough: seq<string>, i: nat)
    requires i < |rough|
    ensures Accumulate(rough[..i + 1]) == Step(Accumulate(rough[..i]), rough[i])
  {
    assert rough[..i + 1][..i] == rough[..i];
  }

  /** The store `load_document(text)` builds. */
  function Segment(text: string): (r: ClauseMap)
    ensures r.Valid()
  {
    Accumulate(SplitDividers(text))
  }

  /** The stripped sections of `rough` whose destination is `key`, in order of appearance. */
  function Collected(rough: seq<string>, key: string): (r: seq<string>)
    ensures forall i :: 0 <= i < |r| ==> Stripped(r[i])
  {
    if |rough| == 0 then []
    else
      var s := Strip(rough[|rough| - 1]);
      Collected(rough[..|rough| - 1], key) + (if s != "" && Destination(s) == Some(key) then [s] else [])
  }

  /**
   * What the store holds after reading `rough`: a key exactly when some section went
   * to it, and under it those sections joined by blank lines, in order; every stored
   * text is stripped and non-empty.
   */
  ghost predicate Models(cm: ClauseMap, rough: seq<string>) {
    cm.Valid()
    && (forall k :: k in cm.text <==> Collected(rough, k) != [])
    && (forall k :: k in cm.text ==> cm.text[k] == JoinWith("\n\n", Collected(rough, k)) && Stripped(cm.text[k]))
  }

  lemma BlankLines()
    ensures !Visible("\n\n")
  {
    assert IsSpace("\n\n"[0]) && IsSpace("\n\n"[1]);
  }

  /** The parties branch: a first section is stored as it is, a later one after a blank line. */
  lemma PartiesJoin(old_: Option<string>, s: string)
    requires Stripped(s) && (old_.Some? ==> Stripped(old_.value))
    ensures Strip(old_.GetOr("") + "\n\n" + s) == if old_.Some? then old_.value + "\n\n" + s else s
    ensures Stripped(Strip(old_.GetOr("") + "\n\n" + s))
  {
    if old_.Some? {
      StrippedConcat(old_.value, "\n\n", s);
    } else {
      BlankLines();
      assert "" + "\n\n" + s == "\n\n" + s;
      StripBlankPrefix("\n\n", s);
    }
  }

  /**
   * One pass of the loop in one formula: a section with a destination is appended to
   * what is stored there, after a blank line, or stored on its own; any other section
   * leaves the store as it was.
   */
  lemma StepEffect(cm: ClauseMap, x: string)
    requires cm.Valid() && forall k :: k in cm.text ==> Stripped(cm.text[k])
    ensures var s := Strip(x);
      if s != "" && Destination(s).Some? then
        var d := Destination(s).value;
        Step(cm, x).text == cm.text[d := if d in cm.text then cm.text[d] + "\n\n" + s else s]
      else Step(cm, x) == cm
  {
    var s := Strip(x);
    if s != "" && NumberedTitle(s).None? && MentionsParty(s) {
      PartiesJoin(cm.Get("parties"), s);
    }
  }

  lemma CollectedSnoc(rough: seq<string>, x: string, k: string)
    ensures var s := Strip(x);
      Collected(rough + [x], k) == Collected(rough, k) + (if s != "" && Destination(s) == Some(k) then [s] else [])
  {
    assert (rough + [x])[..|rough|] == rough;
  }

  /** Appending a section to the texts of one key. */
  lemma JoinAppend(before: seq<string>, stored: string, s: string)
    requires Stripped(s) && (before != [] ==> stored == JoinWith("\n\n", before) && Stripped(stored))
    ensures var v := if before != [] then stored + "\n\n" + s else s;
      v == JoinWith("\n\n", before + [s]) && Stripped(v)
  {
    if before != [] {
      JoinSnoc("\n\n", before, s);
      StrippedConcat(stored, "\n\n", s);
    } else {
      assert before + [s] == [s];
    }
  }

  /** The section's text lands in the entries of one key as `Models` demands. */
  lemma StepKey(cm: ClauseMap, rough: seq<string>, x: string, k: string, next: map<string, string>)
    requires Models(cm, rough)
    requires var s := Strip(x);
      if s != "" && Destination(s).Some? then
        var d := Destination(s).value;
        next == cm.text[d := if d in cm.text then cm.text[d] + "\n\n" + s else s]
      else next == cm.text
    ensures (k in next <==> Collected(rough + [x], k) != [])
      && (k in next ==> next[k] == JoinWith("\n\n", Collected(rough + [x], k)) && Stripped(next[k]))
  {
    var s := Strip(x);
    var before := Collected(rough, k);
    var hit := s != "" && Destination(s) == Some(k);
    assert k in cm.text <==> before != [];
    assert k in cm.text ==> cm.text[k] == JoinWith("\n\n", before) && Stripped(cm.text[k]);
    CollectedSnoc(rough, x, k);
    if hit {
      var v := if k in cm.text then cm.text[k] + "\n\n" + s else s;
      assert next == cm.text[k := v];
      JoinAppend(before, if k in cm.text then cm.text[k] else "", s);
    } else {
      assert Collected(rough + [x], k) == before;
      assert k in next <==> k in cm.text;
      assert k in next ==> next[k] == cm.text[k];
    }
  }

  /** One pass of the loop keeps `Models`. */
  lemma StepModels(cm: ClauseMap, rough: seq<string>, x: string)
    requires Models(cm, rough)
    ensures Models(Step(cm, x), rough + [x])
  {
    var next := Step(cm, x);
    StepEffect(cm, x);
    forall k ensures (k in next.text <==> Collected(rough + [x], k) != []) {
      StepKey(cm, rough, x, k, next.text);
    }
    forall k | k in next.text
      ensures next.text[k] == JoinWith("\n\n", Collected(rough + [x], k)) && Stripped(next.text[k])
    {
      StepKey(cm, rough, x, k, next.text);
    }
  }

  /** The loop over the rough sections builds exactly the store `Models` describes. */
  lemma {:induction false} AccumulateModels(rough: seq<string>)
    ensures Models(Accumulate(rough), rough)
    decreases |rough|
  {
    if |rough| > 0 {
      var init := rough[..|rough| - 1];
      AccumulateModels(init);
      assert init + [rough[|rough| - 1]] == rough;
      StepModels(Accumulate(init), init, rough[|rough| - 1]);
    }
  }

  /** A key that some section went to is a rule key, `parties`, or a non-empty slug. */
  lemma DestinationKey(s: string)
    requires Destination(s).Some?
    ensures var k := Destination(s).value; k in RuleKeys || k == "parties" || (k != "" && IsSlug(k))
  {
    match NumberedTitle(s)
    case Some(h) => IdentifyShape(h);
    case None =>
  }

  lemma {:induction false} CollectedKey(rough: seq<string>, k: string)
    requires Collected(rough, k) != []
    ensures k in RuleKeys || k == "parties" || (k != "" && IsSlug(k))
    decreases |rough|
  {
    var s := Strip(rough[|rough| - 1]);
    if s != "" && Destination(s) == Some(k) {
      DestinationKey(s);
    } else {
      CollectedKey(rough[..|rough| - 1], k);
    }
  }

  /**
   * Every key of a segmented document is a key of the title rules, `parties`, or a
   * non-empty slug of `[a-z0-9_]` with no `_` at either end and none doubled.
   */
  lemma SegmentKeys(text: string)
    ensures forall k :: k in Segment(text).text ==> k in RuleKeys || k == "parties" || (k != "" && IsSlug(k))
  {
    var rough := SplitDividers(text);
    AccumulateModels(rough);
    forall k | k in Segment(text).text ensures k in RuleKeys || k == "parties" || (k != "" && IsSlug(k)) {
      CollectedKey(rough, k);
    }
  }

  /**
   * The segmented document: a key for each destination some section reaches, its
   * sections joined by blank lines in order of appearance, every text stripped and
   * non-empty; a section with no destination is dropped.
   */
  lemma SegmentSpec(text: string)
    ensures var cm := Segment(text); var rough := SplitDividers(text);
      (forall k :: k in cm.text <==> Collected(rough, k) != [])
      && (forall k :: k in cm.text ==> cm.text[k] == JoinWith("\n\n", Collected(rough, k)))
      && (forall k :: k in cm.text ==> Stripped(cm.text[k]))
  {
    AccumulateModels(SplitDividers(text));
  }

  // ---------------------------------------------------------------------------
  // Names found by the patterns (document_store.py:179-231)
  // ---------------------------------------------------------------------------

  /** A text that starts with a visible character keeps that character first after `strip()`. */
  lemma StripFirst(w: string)
    requires |w| > 0 && !IsSpace(w[0])
    ensures |Strip(w)| > 0 && Strip(w)[0] == w[0]
  {
    StripKeepsFirst(w);
  }

  /** No pattern of this model matches the empty text. */
  lemma NothingInEmpty(p: Pattern)
    ensures FirstText(p, "").None?
  {
  }

  /**
   * The matches of every pattern except the divider and the sentence gap start with a
   * visible character.
   */
  lemma FirstTextVisible(p: Pattern, s: string)
    requires p != Divider && p != SentenceGap && FirstText(p, s).Some?
    ensures !IsSpace(FirstText(p, s).value[0])
  {
    var sp := Search(p, s, 0).value;
    MatchStartVisible(p, s, sp.start);
    assert FirstText(p, s).value[0] == s[sp.start];
  }

  /** An attempt of such a pattern succeeds only on a visible character. */
  lemma MatchStartVisible(p: Pattern, s: string, i: nat)
    requires p != Divider && p != SentenceGap && MatchAt(p, s, i).Some?
    ensures i < |s| && !IsSpace(s[i])
  {
    if p == Place {
      PlaceStartVisible(s, i);
    }
  }

  /** `State of` or `in` starts with a visible character. */
  lemma PlaceStartVisible(s: string, i: nat)
    requires PlaceAt(s, i).Some?
    ensures i < |s| && (s[i] == 'S' || s[i] == 'i')
  {
    assert HasAt(s, i, "State of") || HasAt(s, i, "in");
    if HasAt(s, i, "State of") {
      assert s[i..i + 8][0] == s[i];
    } else {
      assert s[i..i + 2][0] == s[i];
    }
  }

  /**
   * The company name `_strip_party_names` looks for: a capital, lower-case letters, a
   * space and one of Corp, Inc, LLC, Ltd, with the `.` or `,` that follows it in the
   * parties text cut off.
   */
  lemma CompanyNameShape(parties: string)
    requires FirstText(NamedCompany, parties).Some?
    ensures var n := FirstText(NamedCompany, parties).value;
      IsUpper(n[0]) && EndsWithSuffix(n, ShortSuffixes)
  {
    var sp := Search(NamedCompany, parties, 0).value;
    assert NamedCompanyAt(parties, sp.start) == Some(sp.end);
  }

  /** The individual's name: it starts with a capital and ` an individual` or `, an individual` follows it. */
  lemma IndividualNameShape(s: string)
    requires FirstText(Individual, s).Some?
    ensures var n := FirstText(Individual, s).value;
      IsUpper(n[0])
      && exists i: nat :: HasAt(s, i, n) && (HasAt(s, i + |n|, " an individual") || HasAt(s, i + |n|, ", an individual"))
  {
    var sp := Search(Individual, s, 0).value;
    var n := FirstText(Individual, s).value;
    assert IndividualAt(s, sp.start) == Some(sp.end);
    assert n == s[sp.start..sp.end] && sp.start + |n| == sp.end;
    assert HasAt(s, sp.start, n);
  }

  /** `re.sub(r"\b(the Company)\b", "Party A", …)` and then the same for `the Employee` and `Party B`. */
  function RedactRoles(text: string): string {
    ReplaceWord(ReplaceWord(text, "the Company", "Party A"), "the Employee", "Party B")
  }

  /** `text.replace(company_name, "Party A")` for the company name found in `parties`, if any. */
  function RedactCompany(parties: string, text: string): string {
    match FirstText(NamedCompany, parties)
    case Some(n) => Replace(text, n, "Party A")
    case None => text
  }

  /** `text.replace(individual_name, "Party B")` for the individual found in `parties`, if any. */
  function RedactIndividual(parties: string, text: string): string {
    match FirstText(Individual, parties)
    case Some(n) => Replace(text, n, "Party B")
    case None => text
  }

  /**
   * `_strip_party_names(text)`: every occurrence of the company name found in the
   * `parties` clause becomes `Party A`, then every occurrence of the individual's name
   * becomes `Party B`, then the role phrases are replaced.
   */
  function RedactNames(cm: ClauseMap, text: string): string {
    var parties := cm.Get("parties").GetOr("");
    RedactRoles(RedactIndividual(parties, RedactCompany(parties, text)))
  }

  /**
   * The company name is looked up in `parties` and replaced in `text`: the text before
   * its first occurrence is kept, that occurrence becomes `Party A`, and the rest is
   * processed the same way.
   */
  lemma CompanyRedacted(parties: string, text: string, n: string, i: nat)
    requires FirstText(NamedCompany, parties) == Some(n)
    requires HasAt(text, i, n) && NoHitBefore(text, n, i)
    ensures RedactCompany(parties, text) == text[..i] + "Party A" + Replace(text[i + |n|..], n, "Party A")
  {
    ReplaceLeftmost(text, n, "Party A", i);
  }

  /** Without a company name in `parties`, or without it in `text`, the company step changes nothing. */
  lemma CompanyKept(parties: string, text: string)
    requires FirstText(NamedCompany, parties).None? || !Occurs(text, FirstText(NamedCompany, parties).value)
    ensures RedactCompany(parties, text) == text
  {
    if FirstText(NamedCompany, parties).Some? {
      ReplaceAbsent(text, FirstText(NamedCompany, parties).value, "Party A");
    }
  }

  /**
   * The individual's name is looked up in `parties` and replaced in `text`: the text
   * before its first occurrence is kept, that occurrence becomes `Party B`, and the rest
   * is processed the same way.
   */
  lemma IndividualRedacted(parties: string, text: string, n: string, i: nat)
    requires FirstText(Individual, parties) == Some(n)
    requires HasAt(text, i, n) && NoHitBefore(text, n, i)
    ensures RedactIndividual(parties, text) == text[..i] + "Party B" + Replace(text[i + |n|..], n, "Party B")
  {
    ReplaceLeftmost(text, n, "Party B", i);
  }

  /** Without an individual in `parties`, or without the name in `text`, the step changes nothing. */
  lemma IndividualKept(parties: string, text: string)
    requires FirstText(Individual, parties).None? || !Occurs(text, FirstText(Individual, parties).value)
    ensures RedactIndividual(parties, text) == text
  {
    if FirstText(Individual, parties).Some? {
      ReplaceAbsent(text, FirstText(Individual, parties).value, "Party B");
    }
  }

  /**
   * `the Company` standing as a phrase of its own becomes `Party A`; the text before its
   * first such occurrence is kept, even where `the Company` is glued to a word character.
   */
  lemma CompanyRoleRedacted(text: string, i: nat)
    requires WordHitAt(text, i, "the Company") && NoWordHitBefore(text, "the Company", i)
    ensures ReplaceWord(text, "the Company", "Party A")
      == text[..i] + "Party A" + ReplaceWordAfter(text[i + 11..], true, "the Company", "Party A")
  {
    ReplaceWordLeftmost(text, "the Company", "Party A", i);
  }

  /**
   * `the Employee` standing as a phrase of its own becomes `Party B`; the text before its
   * first such occurrence is kept.
   */
  lemma EmployeeRoleRedacted(text: string, i: nat)
    requires WordHitAt(text, i, "the Employee") && NoWordHitBefore(text, "the Employee", i)
    ensures ReplaceWord(text, "the Employee", "Party B")
      == text[..i] + "Party B" + ReplaceWordAfter(text[i + 12..], true, "the Employee", "Party B")
  {
    ReplaceWordLeftmost(text, "the Employee", "Party B", i);
  }

  /** Without a `parties` clause only the role phrases change. */
  lemma RedactWithoutParties(cm: ClauseMap, text: string)
    requires "parties" !in cm.text
    ensures RedactNames(cm, text) == RedactRoles(text)
  {
    NothingInEmpty(NamedCompany);
    NothingInEmpty(Individual);
  }

  lemma PlaceholdersVisible()
    ensures Visible("Party A") && Visible("Party B")
  {
    assert !IsSpace("Party A"[0]) && !IsSpace("Party B"[0]);
  }

  /**
   * Redaction keeps a text with a visible character visible, and leaves a blank text
   * exactly as it was.
   */
  lemma RedactVisible(cm: ClauseMap, text: string)
    ensures Visible(RedactNames(cm, text)) <==> Visible(text)
    ensures !Visible(text) ==> RedactNames(cm, text) == text
  {
    var parties := cm.Get("parties").GetOr("");
    PlaceholdersVisible();
    var a := RedactCompany(parties, text);
    var b := RedactIndividual(parties, a);
    var c := ReplaceWord(b, "the Company", "Party A");
    assert RedactNames(cm, text) == ReplaceWord(c, "the Employee", "Party B");
    assert Visible("the Company") && Visible("the Employee") by {
      assert !IsSpace("the Company"[0]) && !IsSpace("the Employee"[0]);
    }
    if Visible(text) {
      if FirstText(NamedCompany, parties).Some? {
        ReplaceVisible(text, FirstText(NamedCompany, parties).value, "Party A");
      }
      if FirstText(Individual, parties).Some? {
        ReplaceVisible(a, FirstText(Individual, parties).value, "Party B");
      }
      ReplaceWordVisible(b, false, "the Company", "Party A");
      ReplaceWordVisible(c, false, "the Employee", "Party B");
    } else {
      if FirstText(NamedCompany, parties).Some? {
        var n := FirstText(NamedCompany, parties).value;
        FirstTextVisible(NamedCompany, parties);
        assert Visible(n) by { assert !IsSpace(n[0]); }
        BlankHasNoVisible(text, n);
        ReplaceAbsent(text, n, "Party A");
      }
      if FirstText(Individual, parties).Some? {
        var n := FirstText(Individual, parties).value;
        FirstTextVisible(Individual, parties);
        assert Visible(n) by { assert !IsSpace(n[0]); }
        BlankHasNoVisible(a, n);
        ReplaceAbsent(a, n, "Party B");
      }
      BlankHasNoVisible(b, "the Company");
      ReplaceWordAbsent(b, false, "the Company", "Party A");
      BlankHasNoVisible(c, "the Employee");
      ReplaceWordAbsent(c, false, "the Employee", "Party B");
    }
  }

  // ---------------------------------------------------------------------------
  // Summaries (document_store.py:135-176)
  // ---------------------------------------------------------------------------

  /** The lines that are neither a numbered heading nor an all-capitals title, in order. */
  function KeptLines(lines: seq<string>): (r: seq<string>)
    ensures forall i :: 0 <= i < |r| ==> r[i] in lines && !HeadingLine(r[i]) && !CapsTitleLine(r[i])
    ensures forall i :: 0 <= i < |lines| && !HeadingLine(lines[i]) && !CapsTitleLine(lines[i]) ==> lines[i] in r
  {
    if |lines| == 0 then []
    else
      var rest := KeptLines(lines[1..]);
      assert forall i :: 1 <= i < |lines| ==> lines[i] == lines[1..][i - 1];
      if !HeadingLine(lines[0]) && !CapsTitleLine(lines[0]) then [lines[0]] + rest else rest
  }

  /**
   * Filtering a concatenation filters each part in turn, and a single line is kept
   * exactly when it is neither kind of heading: the kept lines come in their original
   * order, each as often as it occurs.
   */
  lemma {:induction false} KeptLinesAppend(xs: seq<string>, ys: seq<string>)
    ensures KeptLines(xs + ys) == KeptLines(xs) + KeptLines(ys)
    decreases |xs|
  {
    if |xs| == 0 {
      assert xs + ys == ys;
    } else {
      var x, tail := xs[0], xs[1..];
      var head := if !HeadingLine(x) && !CapsTitleLine(x) then [x] else [];
      calc {
        KeptLines(xs + ys);
        { assert xs + ys == [x] + (tail + ys); }
        KeptLines([x] + (tail + ys));
        { KeptLinesCons(x, tail + ys); }
        head + KeptLines(tail + ys);
        { KeptLinesAppend(tail, ys); }
        head + (KeptLines(tail) + KeptLines(ys));
        (head + KeptLines(tail)) + KeptLines(ys);
        { KeptLinesCons(x, tail); assert [x] + tail == xs; }
        KeptLines(xs) + KeptLines(ys);
      }
    }
  }

  /** One more line in front: kept in front exactly when it qualifies. */
  lemma KeptLinesCons(x: string, xs: seq<string>)
    ensures KeptLines([x] + xs) == (if !HeadingLine(x) && !CapsTitleLine(x) then [x] else []) + KeptLines(xs)
  {
    assert ([x] + xs)[0] == x && ([x] + xs)[1..] == xs;
  }

  /**
   * The body of a clause without its heading lines, stripped; the whole clause when
   * nothing is left. A blank clause comes back as it is; a visible one stays visible.
   */
  function SummaryBody(c: string): (r: string)
    ensures Visible(r) <==> Visible(c)
    ensures !Visible(c) ==> r == c
  {
    var body := Strip(JoinWith("\n", KeptLines(SplitOn(c, '\n'))));
    KeptOfBlank(c);
    if body == "" then c else body
  }

  /** The kept lines of a blank clause join into a blank text. */
  lemma KeptOfBlank(c: string)
    ensures !Visible(c) ==> !Visible(JoinWith("\n", KeptLines(SplitOn(c, '\n'))))
  {
    if !Visible(c) {
      var lines := SplitOn(c, '\n');
      var kept := KeptLines(lines);
      SplitOnBlank(c, '\n');
      forall i | 0 <= i < |kept| ensures !Visible(kept[i]) {
        assert kept[i] in lines;
      }
      assert !Visible("\n") by { assert IsSpace("\n"[0]); }
      JoinBlank("\n", kept);
    }
  }

  /** `text.rfind(". ")`, `"! "` or `"? "` found at `j`. */
  predicate SentenceEndAt(t: string, j: nat) {
    HasAt(t, j, ". ") || HasAt(t, j, "! ") || HasAt(t, j, "? ")
  }

  /** `max(t.rfind(". "), t.rfind("! "), t.rfind("? "))`: the last sentence end, or -1. */
  function LastSentenceEnd(t: string): (r: int)
    ensures -1 <= r < |t|
    ensures r >= 0 ==> SentenceEndAt(t, r)
    ensures forall j: nat :: r < j ==> !SentenceEndAt(t, j)
  {
    var a := RFind(t, ". ");
    var b := RFind(t, "! ");
    var c := RFind(t, "? ");
    if a >= b && a >= c then a else if b >= c then b else c
  }

  /** `" ".join(words[:n])`: the first `n` words of `s`, one space apart. */
  function HardCut(s: string, n: nat): string
    requires n <= WordCount(s)
  {
    JoinWith(" ", Words(s)[..n])
  }

  /** The hard cut has exactly the first `n` words and, when not empty, needs no stripping. */
  lemma HardCutFacts(s: string, n: nat)
    requires n <= WordCount(s)
    ensures Words(HardCut(s, n)) == Words(s)[..n]
    ensures n > 0 ==> Stripped(HardCut(s, n))
    ensures n == 0 ==> HardCut(s, n) == ""
  {
    var ws := Words(s)[..n];
    assert forall i :: 0 <= i < |ws| ==> IsToken(ws[i]);
    WordsJoinTokens(ws);
    if n > 0 {
      JoinTokensStripped(ws);
    }
  }

  /**
   * The truncation of `get_clause_summary`: a text within the budget is returned
   * stripped; a longer one is cut to its first `maxWords` words, and then cut after
   * the last sentence end when that lies past the first quarter, or else ended with
   * `...`.
   */
  function TruncateWords(s: string, maxWords: nat): (r: string)
  {
    if WordCount(s) <= maxWords then Strip(s)
    else
      var t := HardCut(s, maxWords);
      var last := LastSentenceEnd(t);
      if last > |t| / 4 then Strip(t[..last + 1]) else Strip(t) + "..."
  }

  /** Within the budget the text comes back stripped, with all its words. */
  lemma TruncateWithinBudget(s: string, maxWords: nat)
    requires WordCount(s) <= maxWords
    ensures TruncateWords(s, maxWords) == Strip(s)
    ensures Words(TruncateWords(s, maxWords)) == Words(s)
  {
    WordsStrip(s);
  }

  /**
   * Over the budget, with a sentence end past the first quarter of the hard cut, the
   * summary is the hard cut up to and including the last such punctuation mark.
   */
  lemma TruncateAtSentence(s: string, maxWords: nat)
    requires WordCount(s) > maxWords
    requires LastSentenceEnd(HardCut(s, maxWords)) > |HardCut(s, maxWords)| / 4
    ensures var t := HardCut(s, maxWords); var e := LastSentenceEnd(t);
      TruncateWords(s, maxWords) == t[..e + 1]
      && t[e] in {'.', '!', '?'}
      && forall j: nat :: e < j ==> !SentenceEndAt(t, j)
    ensures WordCount(TruncateWords(s, maxWords)) <= maxWords
  {
    var t := HardCut(s, maxWords);
    var e := LastSentenceEnd(t);
    assert TruncateWords(s, maxWords) == Strip(t[..e + 1]);
    HardCutFacts(s, maxWords);
    assert maxWords > 0 && WordCount(t) == maxWords;
    SentenceCut(t, e);
  }

  /** Cutting a stripped text just after a sentence end leaves a stripped text with no more words. */
  lemma SentenceCut(t: string, e: int)
    requires Stripped(t) && 0 <= e < |t| && SentenceEndAt(t, e)
    ensures t[e] in {'.', '!', '?'} && Stripped(t[..e + 1]) && Strip(t[..e + 1]) == t[..e + 1]
    ensures WordCount(t[..e + 1]) <= WordCount(t)
  {
    assert t[e..e + 2][0] == t[e];
    assert Stripped(t[..e + 1]);
    WordsPrefix(t, e + 1);
  }

  /**
   * Over the budget, with no sentence end past the first quarter, the summary is the
   * hard cut followed by `...`; that adds no word.
   */
  lemma TruncateHard(s: string, maxWords: nat)
    requires WordCount(s) > maxWords
    requires LastSentenceEnd(HardCut(s, maxWords)) <= |HardCut(s, maxWords)| / 4
    ensures TruncateWords(s, maxWords) == HardCut(s, maxWords) + "..."
    ensures maxWords > 0 ==> WordCount(TruncateWords(s, maxWords)) == maxWords
    ensures maxWords == 0 ==> TruncateWords(s, maxWords) == "..."
  {
    var t := HardCut(s, maxWords);
    HardCutFacts(s, maxWords);
    if maxWords > 0 {
      WordsExtendLast(t, "...");
    }
  }

  /**
   * The truncated summary is empty exactly when the text is blank, and it never has
   * more than `maxWords` words when the budget is positive.
   */
  lemma TruncateBounds(s: string, maxWords: nat)
    ensures TruncateWords(s, maxWords) == "" <==> !Visible(s)
    ensures maxWords > 0 ==> WordCount(TruncateWords(s, maxWords)) <= maxWords
  {
    if WordCount(s) <= maxWords {
      TruncateWithinBudget(s, maxWords);
    } else {
      TruncateOver(s, maxWords);
    }
  }

  lemma TruncateOver(s: string, maxWords: nat)
    requires WordCount(s) > maxWords
    ensures Visible(s) && TruncateWords(s, maxWords) != ""
    ensures maxWords > 0 ==> WordCount(TruncateWords(s, maxWords)) <= maxWords
  {
    WordsBlank(s);
    var t := HardCut(s, maxWords);
    var e := LastSentenceEnd(t);
    if e > |t| / 4 {
      TruncateAtSentence(s, maxWords);
      assert |t[..e + 1]| > 0;
    } else {
      TruncateHard(s, maxWords);
      assert |t + "..."| > 0;
    }
  }

  /**
   * `get_clause_summary(name, maxWords)`: `""` when the clause is missing or empty,
   * otherwise its body, redacted and truncated.
   */
  function Summary(cm: ClauseMap, name: string, maxWords: nat): (r: string)
    ensures r == "" <==> GetClause(cm, name).None? || !Visible(GetClause(cm, name).value)
    ensures maxWords > 0 ==> WordCount(r) <= maxWords
  {
    match GetClause(cm, name)
    case None => ""
    case Some(c) =>
      if c == "" then ""
      else
        var redacted := RedactNames(cm, SummaryBody(c));
        RedactVisible(cm, SummaryBody(c));
        TruncateBounds(redacted, maxWords);
        TruncateWords(redacted, maxWords)
  }

  /** On a store whose texts are all visible, the summary is empty exactly when the clause is missing. */
  lemma SummaryEmptyIffMissing(cm: ClauseMap, name: string, maxWords: nat)
    requires forall k :: k in cm.text ==> Visible(cm.text[k])
    ensures Summary(cm, name, maxWords) == "" <==> Normalize(name) !in cm.text
  {
  }

  // ---------------------------------------------------------------------------
  // Sentences with more than a given number of words
  // ---------------------------------------------------------------------------

  /** The index of the first sentence, from `from` on, with more than `n` words. */
  function FirstLong(xs: seq<string>, n: nat, from: nat): (r: Option<nat>)
    requires from <= |xs|
    ensures r.Some? ==> from <= r.value < |xs| && WordCount(xs[r.value]) > n
    ensures r.Some? ==> forall j :: from <= j < r.value ==> WordCount(xs[j]) <= n
    ensures r.None? ==> forall j :: from <= j < |xs| ==> WordCount(xs[j]) <= n
    decreases |xs| - from
  {
    if from == |xs| then None
    else if WordCount(xs[from]) > n then Some(from)
    else FirstLong(xs, n, from + 1)
  }

  /** `[s for s in xs if len(s.split()) > n]`. */
  function LongOnes(xs: seq<string>, n: nat): (r: seq<string>)
    ensures |r| <= |xs|
    ensures forall i :: 0 <= i < |r| ==> r[i] in xs && WordCount(r[i]) > n
    ensures forall i :: 0 <= i < |xs| && WordCount(xs[i]) > n ==> xs[i] in r
  {
    if |xs| == 0 then []
    else
      var rest := LongOnes(xs[1..], n);
      assert forall i :: 1 <= i < |xs| ==> xs[i] == xs[1..][i - 1];
      if WordCount(xs[0]) > n then [xs[0]] + rest else rest
  }

  /**
   * Filtering a concatenation filters each part in turn, and a single sentence is kept
   * exactly when it has more than `n` words: the comprehension keeps the original order
   * and every repetition.
   */
  lemma {:induction false} LongOnesAppend(xs: seq<string>, ys: seq<string>, n: nat)
    ensures LongOnes(xs + ys, n) == LongOnes(xs, n) + LongOnes(ys, n)
    decreases |xs|
  {
    if |xs| == 0 {
      assert xs + ys == ys;
    } else {
      var x, tail := xs[0], xs[1..];
      var head := if WordCount(x) > n then [x] else [];
      calc {
        LongOnes(xs + ys, n);
        { assert xs + ys == [x] + (tail + ys); }
        LongOnes([x] + (tail + ys), n);
        { LongOnesCons(x, tail + ys, n); }
        head + LongOnes(tail + ys, n);
        { LongOnesAppend(tail, ys, n); }
        head + (LongOnes(tail, n) + LongOnes(ys, n));
        (head + LongOnes(tail, n)) + LongOnes(ys, n);
        { LongOnesCons(x, tail, n); assert [x] + tail == xs; }
        LongOnes(xs, n) + LongOnes(ys, n);
      }
    }
  }

  /** One more line in front: kept in front exactly when it qualifies. */
  lemma LongOnesCons(x: string, xs: seq<string>, n: nat)
    ensures LongOnes([x] + xs, n) == (if WordCount(x) > n then [x] else []) + LongOnes(xs, n)
  {
    assert ([x] + xs)[0] == x && ([x] + xs)[1..] == xs;
  }

  /** The filter and the search agree: the first long sentence heads the filtered list. */
  lemma {:induction false} LongOnesFirst(xs: seq<string>, n: nat)
    ensures LongOnes(xs, n) == [] <==> FirstLong(xs, n, 0).None?
    ensures LongOnes(xs, n) != [] ==> LongOnes(xs, n)[0] == xs[FirstLong(xs, n, 0).value]
    decreases |xs|
  {
    if |xs| > 0 && WordCount(xs[0]) <= n {
      LongOnesFirst(xs[1..], n);
      FirstLongShift(xs, n, 1);
    }
  }

  /** Searching from 1 on `xs` is searching from 0 on `xs[1..]`, one index later. */
  lemma {:induction false} FirstLongShift(xs: seq<string>, n: nat, from: nat)
    requires 1 <= from <= |xs|
    ensures FirstLong(xs, n, from).None? <==> FirstLong(xs[1..], n, from - 1).None?
    ensures FirstLong(xs, n, from).Some? ==> FirstLong(xs, n, from).value == FirstLong(xs[1..], n, from - 1).value + 1
    decreases |xs| - from
  {
    if from < |xs| {
      assert xs[1..][from - 1] == xs[from];
      if WordCount(xs[from]) <= n {
        FirstLongShift(xs, n, from + 1);
      }
    }
  }

  // ---------------------------------------------------------------------------
  // Party names and fields (document_store.py:205-293)
  // ---------------------------------------------------------------------------

  /** The result of `extract_parties()`: the dictionary holds `company`, `individual`, both or neither. */
  datatype Parties = Parties(company: Option<string>, individual: Option<string>)

  /** `"\n".join(CLAUSES.values())`. */
  function AllText(cm: ClauseMap): string
    requires cm.Valid()
  {
    JoinWith("\n", cm.Values())
  }

  /**
   * `extract_parties()`: the first company name (a capitalised run of letters and
   * spaces ending in a corporate suffix) and the first `First Last, an individual`
   * in the whole document.
   */
  function ExtractParties(cm: ClauseMap): (r: Parties)
    requires cm.Valid()
    ensures r.company.None? <==> Search(LongCompany, AllText(cm), 0).None?
    ensures r.individual.None? <==> Search(Individual, AllText(cm), 0).None?
    ensures r.company.Some? ==> |r.company.value| > 0 && IsUpper(r.company.value[0])
    ensures r.individual.Some? ==> |r.individual.value| > 0 && IsUpper(r.individual.value[0])
    ensures r.company.Some? ==> var sp := Search(LongCompany, AllText(cm), 0).value;
      r.company.value == Strip(AllText(cm)[sp.start..sp.end])
      && forall j :: 0 <= j < sp.start ==> MatchAt(LongCompany, AllText(cm), j).None?
    ensures r.individual.Some? ==> var sp := Search(Individual, AllText(cm), 0).value;
      r.individual.value == Strip(AllText(cm)[sp.start..sp.end])
      && forall j :: 0 <= j < sp.start ==> MatchAt(Individual, AllText(cm), j).None?
  {
    var full := AllText(cm);
    var company := FirstText(LongCompany, full);
    var individual := FirstText(Individual, full);
    CapitalStart(LongCompany, full);
    CapitalStart(Individual, full);
    SearchFirst(LongCompany, full);
    SearchFirst(Individual, full);
    Parties(
      if company.Some? then Some(Strip(company.value)) else None,
      if individual.Some? then Some(Strip(individual.value)) else None)
  }

  /** The company and individual patterns start with a capital letter, and stripping keeps it. */
  lemma CapitalStart(p: Pattern, s: string)
    requires p == LongCompany || p == Individual
    ensures FirstText(p, s).Some? ==> |Strip(FirstText(p, s).value)| > 0 && IsUpper(Strip(FirstText(p, s).value)[0])
  {
    if FirstText(p, s).Some? {
      CapitalStartSome(p, s);
    }
  }

  lemma CapitalStartSome(p: Pattern, s: string)
    requires (p == LongCompany || p == Individual) && FirstText(p, s).Some?
    ensures |Strip(FirstText(p, s).value)| > 0 && IsUpper(Strip(FirstText(p, s).value)[0])
  {
    var sp := Search(p, s, 0).value;
    var v := FirstText(p, s).value;
    assert v[0] == s[sp.start];
    assert IsUpper(v[0]);
    StripFirst(v);
  }

  /** `Company: …` before `Individual: …`, for the entries that are present. */
  function PartyLines(p: Parties): (r: seq<string>)
    ensures r == [] <==> p.company.None? && p.individual.None?
    ensures |r| <= 2
  {
    (if p.company.Some? then ["Company: " + p.company.value] else [])
      + (if p.individual.Some? then ["Individual: " + p.individual.value] else [])
  }

  function NotFoundIn(name: string): string {
    "Clause '" + name + "' not found in document."
  }

  /**
   * The field extractors of `get_field_from_clause` on a clause text `c` that is
   * present, for a field name already lower-cased and stripped.
   */
  function FieldOf(cm: ClauseMap, c: string, field: string): (r: string)
    requires cm.Valid()
    ensures |c| > 0 && !IsSpace(c[0]) ==> r != ""
  {
    if field == "duration" then DurationField(c)
    else if field == "scope" then ScopeField(c)
    else if field == "amount" then AmountField(c)
    else if field == "parties" then PartiesField(cm)
    else if field == "definition" then DefinitionField(c)
    else HeadField(c)
  }

  /** `duration`: the number-word duration, else the digit duration, else a message. */
  function DurationField(c: string): (r: string)
    ensures r != ""
    ensures FirstText(DurationWords, c).Some? ==> r == Strip(FirstText(DurationWords, c).value)
    ensures FirstText(DurationWords, c).None? && FirstText(DurationDigits, c).Some? ==>
      r == Strip(FirstText(DurationDigits, c).value)
    ensures FirstText(DurationWords, c).None? && FirstText(DurationDigits, c).None? ==>
      r == "Duration not explicitly stated."
  {
    match FirstText(DurationWords, c)
    case Some(m) =>
      MatchedNonEmpty(DurationWords, c);
      Strip(m)
    case None =>
      match FirstText(DurationDigits, c)
      case Some(m) =>
        MatchedNonEmpty(DurationDigits, c);
        Strip(m)
      case None => "Duration not explicitly stated."
  }

  /** `scope`: the mile radius sentence, else the named place, else a message. */
  function ScopeField(c: string): (r: string)
    ensures r != ""
    ensures FirstText(MileRadius, c).Some? ==> r == Strip(FirstText(MileRadius, c).value)
    ensures FirstText(MileRadius, c).None? && FirstText(Place, c).Some? ==>
      r == "Geographic scope: " + Strip(FirstText(Place, c).value)
    ensures FirstText(MileRadius, c).None? && FirstText(Place, c).None? ==> r == "Scope details not found."
  {
    match FirstText(MileRadius, c)
    case Some(m) =>
      MatchedNonEmpty(MileRadius, c);
      Strip(m)
    case None =>
      match FirstText(Place, c)
      case Some(m) => "Geographic scope: " + Strip(m)
      case None => "Scope details not found."
  }

  /** `amount`: the first dollar amount, else a message. */
  function AmountField(c: string): (r: string)
    ensures r != ""
    ensures FirstText(Dollars, c).Some? ==> r == Strip(FirstText(Dollars, c).value)
    ensures FirstText(Dollars, c).None? ==> r == "No monetary amount found."
  {
    match FirstText(Dollars, c)
    case Some(m) =>
      MatchedNonEmpty(Dollars, c);
      Strip(m)
    case None => "No monetary amount found."
  }

  /** `parties`: the party lines of the whole document, whatever the clause. */
  function PartiesField(cm: ClauseMap): (r: string)
    requires cm.Valid()
    ensures r != ""
  {
    var lines := PartyLines(ExtractParties(cm));
    if lines == [] then "Parties not found." else JoinWith("; ", lines)
  }

  /** `definition`: the first sentence of more than ten words, else the clause's head. */
  function DefinitionField(c: string): (r: string)
    ensures |c| > 0 && !IsSpace(c[0]) ==> r != ""
    ensures var long := LongOnes(Sentences(Strip(c)), 10);
      (long != [] ==> r == Strip(long[0])) && (long == [] ==> r == Strip(Head(c, 300)))
  {
    var sentences := Sentences(Strip(c));
    LongOnesFirst(sentences, 10);
    match FirstLong(sentences, 10, 0)
    case Some(i) =>
      DefinitionNonEmpty(c);
      Strip(sentences[i])
    case None => HeadField(c)
  }

  /** Any other field: the first 300 characters of the clause, stripped. */
  function HeadField(c: string): (r: string)
    ensures |c| > 0 && !IsSpace(c[0]) ==> r != ""
  {
    HeadNonEmpty(c);
    Strip(Head(c, 300))
  }

  lemma HeadNonEmpty(c: string)
    ensures |c| > 0 && !IsSpace(c[0]) ==> Strip(Head(c, 300)) != ""
  {
    if |c| > 0 && !IsSpace(c[0]) {
      StripFirst(Head(c, 300));
    }
  }

  /**
   * `get_field_from_clause(name, field)`: the not-found message, with the name as
   * given, when the clause is missing or empty; otherwise the field extracted from
   * the clause, the field name being lower-cased and stripped first.
   */
  function GetField(cm: ClauseMap, name: string, field: string): (r: string)
    requires cm.Valid()
    ensures GetClause(cm, name).None? || GetClause(cm, name).value == "" ==> r == NotFoundIn(name)
    ensures GetClause(cm, name).Some? && |GetClause(cm, name).value| > 0 && !IsSpace(GetClause(cm, name).value[0]) ==> r != ""
  {
    match GetClause(cm, name)
    case None => NotFoundIn(name)
    case Some(c) =>
      if c == "" then NotFoundIn(name)
      else
        FieldOf(cm, c, Strip(Lower(field)))
  }

  /** A match of a pattern other than the divider and the sentence gap survives stripping. */
  lemma MatchedNonEmpty(p: Pattern, c: string)
    requires p != Divider && p != SentenceGap && FirstText(p, c).Some?
    ensures Strip(FirstText(p, c).value) != ""
  {
    FirstTextVisible(p, c);
    StripFirst(FirstText(p, c).value);
  }

  /** The first sentence of more than ten words survives stripping. */
  lemma DefinitionNonEmpty(c: string)
    requires FirstLong(Sentences(Strip(c)), 10, 0).Some?
    ensures Strip(Sentences(Strip(c))[FirstLong(Sentences(Strip(c)), 10, 0).value]) != ""
  {
    var s := Sentences(Strip(c))[FirstLong(Sentences(Strip(c)), 10, 0).value];
    WordsBlank(s);
    assert Visible(s);
  }

  /** The field name is lower-cased and stripped before use, so doing that first changes nothing. */
  lemma GetFieldNormalisesField(cm: ClauseMap, name: string, field: string)
    requires cm.Valid()
    ensures GetField(cm, name, field) == GetField(cm, name, Strip(Lower(field)))
  {
    var f := Strip(Lower(field));
    LowerNoUpper(field);
    StripNoUpper(Lower(field));
    LowerIdentity(f);
    if f != "" {
      assert Stripped(f);
    }
  }

  // ---------------------------------------------------------------------------
  // The process-wide store and its two imperative operations
  // ---------------------------------------------------------------------------

  /** The module-level `CLAUSES` dictionary and the functions that write it. */
  class Store {
    var clauses: ClauseMap

    constructor()
      ensures clauses == Empty()
    {
      clauses := Empty();
    }

    /**
     * `load_document(text)`: the store is emptied, then each rough section between
     * divider lines is filed in turn.
     */
    method LoadDocument(text: string) returns (r: ClauseMap)
      modifies this
      ensures clauses == Segment(text) && r == clauses
    {
      clauses := Empty();
      var rough := SplitDividers(text);
      FileSections(rough);
      r := clauses;
    }

    /** The loop of `load_document` over the rough sections, from the emptied store. */
    method FileSections(rough: seq<string>)
      requires clauses == Empty()
      modifies this
      ensures clauses == Accumulate(rough)
    {
      var i := 0;
      while i < |rough|
        invariant 0 <= i <= |rough|
        invariant clauses == Accumulate(rough[..i])
      {
        FileSection(rough[i]);
        AccumulatePrefix(rough, i);
        i := i + 1;
      }
      assert rough[..i] == rough;
    }

    /**
     * The body of the loop of `load_document`: the section is stripped; a blank one is
     * skipped, a numbered one is stored or appended under the key of its title, and an
     * unnumbered one that mentions a party word is appended to `parties`.
     */
    method FileSection(rough: string)
      requires clauses.Valid()
      modifies this
      ensures clauses == Step(old(clauses), rough)
    {
      var section := Strip(rough);
      if section != "" {
        var numbered := NumberedTitle(section);
        if numbered.Some? {
          var key := Identify(numbered.value);
          if key in clauses.text {
            clauses := clauses.Put(key, clauses.text[key] + "\n\n" + section);
          } else {
            clauses := clauses.Put(key, section);
          }
        } else if MentionsParty(section) {
          var existing := clauses.Get("parties").GetOr("");
          clauses := clauses.Put("parties", Strip(existing + "\n\n" + section));
        }
      }
    }

    /**
     * `_strip_party_names(text)` on the current store, reassigning the text once per
     * replacement.
     */
    method StripPartyNames(text: string) returns (r: string)
      ensures r == RedactNames(clauses, text)
    {
      r := text;
      var parties := clauses.Get("parties").GetOr("");
      var company := FirstText(NamedCompany, parties);
      if company.Some? {
        r := Replace(r, company.value, "Party A");
      }
      var individual := FirstText(Individual, parties);
      if individual.Some? {
        r := Replace(r, individual.value, "Party B");
      }
      r := ReplaceWord(r, "the Company", "Party A");
      r := ReplaceWord(r, "the Employee", "Party B");
    }
  }
}
