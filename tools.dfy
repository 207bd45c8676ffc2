/**
 * The tool dispatcher of nda_tools.py: the closed catalogue of five tools, its split
 * into tools answered on the device and tools that need the cloud, and
 * `execute_tool`, which maps a tool name and its arguments to a result string and
 * never fails: every failure is a fixed message.
 */
module Tools {
  import opened Wrappers
  import opened Text
  import opened Patterns
  import opened ClauseStore

  /** The names of the tools in `NDA_TOOLS`, in catalogue order. */
  const ToolNames: seq<string> :=
    ["extract_parties", "get_clause_info", "summarize_clause", "check_enforceability", "benchmark_clause"]

  /** Tools answered from the document alone. */
  const DeviceTools: set<string> := {"extract_parties", "get_clause_info", "summarize_clause"}

  /** Tools whose answer needs legal or market knowledge from outside the document. */
  const CloudRequiredTools: set<string> := {"check_enforceability", "benchmark_clause"}

  /** The two groups do not overlap and together are exactly the catalogue. */
  lemma ToolPartition()
    ensures DeviceTools !! CloudRequiredTools
    ensures forall n :: n in DeviceTools + CloudRequiredTools <==> n in ToolNames
  {
  }

  /** The arguments of a call: a dictionary of string values. */
  type Args = map<string, string>

  /** `arguments.get(key, default)`. */
  function Arg(args: Args, key: string, default: string): string {
    if key in args then args[key] else default
  }

  const ClauseTypeRequired: string := "Error: clause_type is required."

  // ---------------------------------------------------------------------------
  // The handlers (nda_tools.py:174-243)
  // ---------------------------------------------------------------------------

  /** What `_exec_extract_parties()` answers for the names found. */
  function PartiesText(p: Parties): string {
    var lines := PartyLines(p);
    if lines == [] then "Could not extract party names from document." else JoinWith("; ", lines)
  }

  /** What `_exec_extract_parties()` answers on the store `cm`. */
  function PartiesMessage(cm: ClauseMap): string
    requires cm.Valid()
  {
    PartiesText(ExtractParties(cm))
  }

  /**
   * The parties message: the fixed failure text when neither name is found, otherwise
   * `Company: …` first when a company is found and `Individual: …` last when an
   * individual is found, joined by `; `.
   */
  lemma PartiesTextShape(p: Parties)
    ensures var r := PartiesText(p);
      (r == "Could not extract party names from document." <==> p.company.None? && p.individual.None?)
      && (p.company.Some? && p.individual.Some? ==> r == "Company: " + p.company.value + "; Individual: " + p.individual.value)
      && (p.company.Some? && p.individual.None? ==> r == "Company: " + p.company.value)
      && (p.company.None? && p.individual.Some? ==> r == "Individual: " + p.individual.value)
  {
    var lines := PartyLines(p);
    var r := PartiesText(p);
    var failure := "Could not extract party names from document.";
    if p.company.Some? && p.individual.Some? {
      var a, b := "Company: " + p.company.value, "Individual: " + p.individual.value;
      assert lines == [a, b];
      assert lines[1..] == [b];
      assert JoinWith("; ", lines[1..]) == b;
      assert JoinWith("; ", lines) == a + "; " + b;
      assert r == JoinWith("; ", lines);
      assert r[2] == a[2] == 'm' && failure[2] == 'u';
    } else if p.company.Some? {
      var a := "Company: " + p.company.value;
      assert lines == [a];
      assert r[2] == a[2] == 'm' && failure[2] == 'u';
    } else if p.individual.Some? {
      var b := "Individual: " + p.individual.value;
      assert lines == [b];
      assert r[0] == 'I' && failure[0] == 'C';
    }
  }

  /**
   * `_exec_get_clause_info(clause_type, field)`: the clause type is required; an empty
   * field means `definition`; an empty extraction is reported with the field as given.
   */
  function ClauseInfo(cm: ClauseMap, clauseType: string, field: string): (r: string)
    requires cm.Valid()
    ensures clauseType == "" ==> r == ClauseTypeRequired
    ensures clauseType != "" ==> r != ""
  {
    if clauseType == "" then ClauseTypeRequired
    else
      var result := GetField(cm, clauseType, if field == "" then "definition" else field);
      if result == "" then "Could not find '" + field + "' in " + clauseType + " clause." else result
  }

  /**
   * On a store whose texts start with a visible character, as `load_document` leaves
   * them, the extraction never comes back empty, so an empty field behaves exactly as
   * `definition`.
   */
  lemma ClauseInfoDefaultField(cm: ClauseMap, clauseType: string)
    requires cm.Valid() && clauseType != ""
    requires forall k :: k in cm.text ==> |cm.text[k]| > 0 && !IsSpace(cm.text[k][0])
    ensures ClauseInfo(cm, clauseType, "") == ClauseInfo(cm, clauseType, "definition")
      == GetField(cm, clauseType, "definition")
  {
    var c := GetClause(cm, clauseType);
    if c.Some? {
      assert Normalize(clauseType) in cm.text;
    }
  }

  /** `text.strip()` cut into sentences, keeping those with more than 8 words: the summary's candidates. */
  function SummaryCandidates(text: string): seq<string> {
    LongOnes(Sentences(Strip(text)), 8)
  }

  /** The summary of a clause text that was found: at most two candidates, or the first 300 characters. */
  function SummaryOfText(text: string): string {
    var long := SummaryCandidates(text);
    if long == [] then Strip(Head(text, 300))
    else JoinWith(" ", long[..if |long| < 2 then |long| else 2])
  }

  /**
   * `_exec_summarize_clause(clause_type)`: the first two sentences with more than 8
   * words joined by one space, or the first 300 characters stripped when there is none.
   */
  function SummarizeClause(cm: ClauseMap, clauseType: string): (r: string)
    ensures clauseType == "" ==> r == ClauseTypeRequired
    ensures clauseType != "" && (GetClause(cm, clauseType).None? || GetClause(cm, clauseType).value == "") ==>
      r == NotFoundIn(clauseType)
    ensures clauseType != "" && GetClause(cm, clauseType).Some? && GetClause(cm, clauseType).value != "" ==>
      r == SummaryOfText(GetClause(cm, clauseType).value)
  {
    if clauseType == "" then ClauseTypeRequired
    else
      match GetClause(cm, clauseType)
      case None => NotFoundIn(clauseType)
      case Some(text) => if text == "" then NotFoundIn(clauseType) else SummaryOfText(text)
  }

  /**
   * When the clause has sentences of more than 8 words, the summary's words are those of
   * the first of them, in order, then those of the second when there is one; the first
   * is the first such sentence of the clause.
   */
  lemma SummaryOfTextWords(text: string)
    requires SummaryCandidates(text) != []
    ensures var long := SummaryCandidates(text);
      var xs := Sentences(Strip(text));
      FirstLong(xs, 8, 0).Some? && long[0] == xs[FirstLong(xs, 8, 0).value]
      && Words(SummaryOfText(text)) == Words(long[0]) + (if |long| > 1 then Words(long[1]) else [])
  {
    var long := SummaryCandidates(text);
    LongOnesFirst(Sentences(Strip(text)), 8);
    FirstTwoWords(long);
  }

  /** The words of the first two texts joined by one space are theirs, in order. */
  lemma FirstTwoWords(long: seq<string>)
    requires long != []
    ensures Words(JoinWith(" ", long[..if |long| < 2 then |long| else 2]))
      == Words(long[0]) + (if |long| > 1 then Words(long[1]) else [])
  {
    if |long| > 1 {
      assert long[..2] == [long[0], long[1]];
      assert JoinWith(" ", long[..2]) == long[0] + " " + long[1];
      WordsSpaceJoin(long[0], long[1]);
    } else {
      assert long[..1] == [long[0]];
    }
  }

  /** The summary of a text that starts with a visible character is never empty. */
  lemma SummaryOfTextNonEmpty(text: string)
    requires |text| > 0 && !IsSpace(text[0])
    ensures SummaryOfText(text) != ""
  {
    var long := SummaryCandidates(text);
    if long == [] {
      StripFirst(Head(text, 300));
    } else {
      var k := if |long| < 2 then |long| else 2;
      assert WordCount(long[..k][0]) > 8;
      JoinNonEmpty(" ", long[..k]);
    }
  }

  /** Joining texts whose first has a word gives a non-empty text. */
  lemma JoinNonEmpty(sep: string, parts: seq<string>)
    requires |parts| > 0 && WordCount(parts[0]) > 0
    ensures JoinWith(sep, parts) != ""
  {
    assert parts[0] != "";
    if |parts| > 1 {
      assert |JoinWith(sep, parts)| >= |parts[0]|;
    }
  }

  function NotFoundShort(clauseType: string): string {
    "Clause '" + clauseType + "' not found."
  }

  /** The enforceability context around a summary, or the short not-found message when it is empty. */
  function EnforceabilityText(clauseType: string, jurisdiction: string, summary: string): string {
    if summary == "" then NotFoundShort(clauseType)
    else "Clause type: " + clauseType + "\nJurisdiction: " + jurisdiction + "\nClause summary (anonymized): " + summary
  }

  /** The benchmark context around a summary, or the short not-found message when it is empty. */
  function BenchmarkText(clauseType: string, summary: string): string {
    if summary == "" then NotFoundShort(clauseType)
    else "Clause type: " + clauseType + "\nClause summary (anonymized): " + summary
  }

  /**
   * `_exec_check_enforceability_context(clause_type, jurisdiction)`: the labelled lines
   * around the redacted summary of at most 80 words; the jurisdiction is used as given.
   */
  function EnforceabilityContext(cm: ClauseMap, clauseType: string, jurisdiction: string): string {
    EnforceabilityText(clauseType, jurisdiction, Summary(cm, clauseType, 80))
  }

  /** `_exec_benchmark_context(clause_type)`: as above, without the jurisdiction line. */
  function BenchmarkContext(cm: ClauseMap, clauseType: string): string {
    BenchmarkText(clauseType, Summary(cm, clauseType, 80))
  }

  /**
   * A found clause's context holds its redacted summary of at most 80 words after the
   * labelled lines, the jurisdiction as given; nothing about the jurisdiction is checked.
   */
  lemma ContextShape(cm: ClauseMap, clauseType: string, jurisdiction: string)
    ensures var s := Summary(cm, clauseType, 80);
      WordCount(s) <= 80
      && (s != "" ==>
        EnforceabilityContext(cm, clauseType, jurisdiction)
          == "Clause type: " + clauseType + "\nJurisdiction: " + jurisdiction + "\nClause summary (anonymized): " + s
        && BenchmarkContext(cm, clauseType) == "Clause type: " + clauseType + "\nClause summary (anonymized): " + s)
  {
  }

  /** A labelled context never reads as the not-found message. */
  lemma LabelledIsNotMessage(clauseType: string, rest: string)
    ensures "Clause type: " + clauseType + rest != NotFoundShort(clauseType)
  {
    var x := "Clause type: " + clauseType + rest;
    var y := NotFoundShort(clauseType);
    assert x[7] == 't' && y[7] == '\'';
  }

  /** The enforceability context is the not-found message exactly when the summary is empty. */
  lemma EnforceabilityNotFound(clauseType: string, jurisdiction: string, summary: string)
    ensures EnforceabilityText(clauseType, jurisdiction, summary) == NotFoundShort(clauseType) <==> summary == ""
  {
    var rest := "\nJurisdiction: " + jurisdiction + "\nClause summary (anonymized): " + summary;
    LabelledIsNotMessage(clauseType, rest);
    assert "Clause type: " + clauseType + "\nJurisdiction: " + jurisdiction + "\nClause summary (anonymized): " + summary
      == "Clause type: " + clauseType + rest;
  }

  /** The benchmark context is the not-found message exactly when the summary is empty. */
  lemma BenchmarkNotFound(clauseType: string, summary: string)
    ensures BenchmarkText(clauseType, summary) == NotFoundShort(clauseType) <==> summary == ""
  {
    var rest := "\nClause summary (anonymized): " + summary;
    LabelledIsNotMessage(clauseType, rest);
    assert "Clause type: " + clauseType + "\nClause summary (anonymized): " + summary == "Clause type: " + clauseType + rest;
  }

  /**
   * The two context tools report a missing clause, and only a missing one, on a store
   * whose texts are all visible.
   */
  lemma ContextNotFoundIffMissing(cm: ClauseMap, clauseType: string, jurisdiction: string)
    requires forall k :: k in cm.text ==> Visible(cm.text[k])
    ensures EnforceabilityContext(cm, clauseType, jurisdiction) == NotFoundShort(clauseType)
      <==> Normalize(clauseType) !in cm.text
    ensures BenchmarkContext(cm, clauseType) == NotFoundShort(clauseType) <==> Normalize(clauseType) !in cm.text
  {
    SummaryEmptyIffMissing(cm, clauseType, 80);
    var s := Summary(cm, clauseType, 80);
    EnforceabilityNotFound(clauseType, jurisdiction, s);
    BenchmarkNotFound(clauseType, s);
  }

  /** `word_count(text)`: the number of whitespace-separated words, 0 for the empty text. */
  function WordCountTool(text: string): (r: nat)
    ensures r == 0 <==> !Visible(text)
  {
    WordsBlank(text);
    if text == "" then 0 else WordCount(text)
  }

  /** Counting the words of tokens joined by single spaces gives the number of tokens. */
  lemma WordCountOfJoin(ws: seq<string>)
    requires forall i :: 0 <= i < |ws| ==> IsToken(ws[i])
    ensures WordCountTool(JoinWith(" ", ws)) == |ws|
  {
    WordsJoinTokens(ws);
  }

  // ---------------------------------------------------------------------------
  // The dispatcher (nda_tools.py:127-167)
  // ---------------------------------------------------------------------------

  /** The answer of `execute_tool(name, args)` on the store `cm`. */
  function ToolResult(cm: ClauseMap, name: string, args: Args): (r: string)
    requires cm.Valid()
    ensures name !in ToolNames ==> r == "Unknown tool: " + name
  {
    var clauseType := Arg(args, "clause_type", "");
    if name == "extract_parties" then PartiesMessage(cm)
    else if name == "get_clause_info" then ClauseInfo(cm, clauseType, Arg(args, "field", "definition"))
    else if name == "summarize_clause" then SummarizeClause(cm, clauseType)
    else if name == "check_enforceability" then EnforceabilityContext(cm, clauseType, Arg(args, "jurisdiction", ""))
    else if name == "benchmark_clause" then BenchmarkContext(cm, clauseType)
    else "Unknown tool: " + name
  }

  /**
   * Every known tool answers with a non-empty text on a store whose texts start with a
   * visible character, as `load_document` leaves them: failures are fixed messages.
   */
  lemma ToolResultNonEmpty(cm: ClauseMap, name: string, args: Args)
    requires cm.Valid() && name in ToolNames
    requires forall k :: k in cm.text ==> |cm.text[k]| > 0 && !IsSpace(cm.text[k][0])
    ensures ToolResult(cm, name, args) != ""
  {
    var clauseType := Arg(args, "clause_type", "");
    if name == "extract_parties" {
      PartiesNonEmpty(ExtractParties(cm));
    } else if name == "summarize_clause" {
      SummarizeOnStore(cm, clauseType);
    } else if name == "check_enforceability" || name == "benchmark_clause" {
      ContextNonEmpty(cm, clauseType, Arg(args, "jurisdiction", ""));
    }
  }

  /** The parties message is never empty. */
  lemma PartiesNonEmpty(p: Parties)
    ensures PartiesText(p) != ""
  {
    var lines := PartyLines(p);
    if lines != [] {
      assert |lines[0]| > 0;
      if |lines| > 1 {
        assert |JoinWith("; ", lines)| >= |lines[0]|;
      }
    }
  }

  /** The summary tool's answer on a store whose texts start with a visible character is never empty. */
  lemma SummarizeOnStore(cm: ClauseMap, clauseType: string)
    requires forall k :: k in cm.text ==> |cm.text[k]| > 0 && !IsSpace(cm.text[k][0])
    ensures SummarizeClause(cm, clauseType) != ""
  {
    SummarizeNonEmpty(cm, clauseType);
    assert GetClause(cm, clauseType).Some? ==> Normalize(clauseType) in cm.text;
  }

  /** The two context tools never answer with the empty text. */
  lemma ContextNonEmpty(cm: ClauseMap, clauseType: string, jurisdiction: string)
    ensures EnforceabilityContext(cm, clauseType, jurisdiction) != ""
    ensures BenchmarkContext(cm, clauseType) != ""
  {
  }

  /** The summary tool never answers with the empty text on a store of stripped texts. */
  lemma SummarizeNonEmpty(cm: ClauseMap, clauseType: string)
    ensures var c := GetClause(cm, clauseType);
      c.Some? && |c.value| > 0 && !IsSpace(c.value[0]) ==> SummarizeClause(cm, clauseType) != ""
  {
    var c := GetClause(cm, clauseType);
    if clauseType != "" && c.Some? && |c.value| > 0 && !IsSpace(c.value[0]) {
      SummaryOfTextNonEmpty(c.value);
    }
  }

  /**
   * `_exec_extract_parties()`: the answer is built by appending the present entries to
   * a list and joining it.
   */
  method ExecExtractParties(cm: ClauseMap) returns (r: string)
    requires cm.Valid()
    ensures r == PartiesMessage(cm)
  {
    var parties := ExtractParties(cm);
    r := PartiesAnswer(parties);
  }

  /** The list-building part of `_exec_extract_parties()`, on the names found. */
  method PartiesAnswer(parties: Parties) returns (r: string)
    ensures r == PartiesText(parties)
  {
    if parties.company.None? && parties.individual.None? {
      return "Could not extract party names from document.";
    }
    var parts: seq<string> := [];
    if parties.company.Some? {
      parts := parts + ["Company: " + parties.company.value];
    }
    if parties.individual.Some? {
      parts := parts + ["Individual: " + parties.individual.value];
    }
    r := if parts == [] then "Parties not found." else JoinWith("; ", parts);
  }

  /**
   * `execute_tool(name, args, clauses)`: a non-empty override replaces the store first;
   * a missing or empty one leaves it alone. Then the named handler answers.
   */
  method ExecuteTool(store: Store, name: string, args: Args, override: Option<ClauseMap>) returns (r: string)
    requires store.clauses.Valid() && (override.Some? ==> override.value.Valid())
    modifies store
    ensures store.clauses == if override.Some? && override.value.text != map[] then override.value else old(store.clauses)
    ensures r == ToolResult(store.clauses, name, args)
  {
    if override.Some? && override.value.text != map[] {
      store.clauses := override.value;
    }
    if name == "extract_parties" {
      r := ExecExtractParties(store.clauses);
    } else {
      r := ToolResult(store.clauses, name, args);
    }
  }
}
