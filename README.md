# NDA Guardian core, modelled in Dafny

NDA Guardian answers questions about a non-disclosure agreement. A small on-device
model proposes tool calls, and a router decides whether to trust it or escalate to a
cloud model. The tools read a clause store built from the agreement's plain text. This
project models the deterministic core of that system and proves what it promises:

- **The clause store** (`document_store.py`, modules `ClauseStore`, `Patterns`,
  `Titles`, `Text`). `load_document` splits the text on divider lines and files each
  numbered section under the key its title classifies to. Unnumbered sections that
  mention a party word go under `parties`. The store is an ordered dictionary: a key
  sequence in insertion order plus a map. The queries are:
  - alias normalisation and `get_clause`;
  - the redacting, word-bounded `get_clause_summary` and `_strip_party_names`;
  - `extract_parties`;
  - `get_field_from_clause`.

  Each regular expression the store uses is a hand-written recogniser over ASCII
  strings. Each recogniser tries a match at one index; `Patterns.Search` finds the
  leftmost index where one succeeds, as `re.search` does. The divider split
  `\n\s*[-=]{3,}\s*\n` is modelled exactly, including the backtracking of `\s*`.
- **The tool dispatcher** (`nda_tools.py`, module `Tools`). This covers the tool
  catalogue and its device/cloud split, `execute_tool` with its store override, and the
  five handlers with their exact messages.
- **The hybrid router** (`main.py`, module `Router`). `generate_cactus` turns the local
  model's output into a local result, with defaults for a parse failure and for
  missing keys. `generate_hybrid` applies its four rules in priority order. The cloud
  model is a recorded link: its reply is a fixed value and its calls are counted, so
  the model can state when the cloud is asked.
- **The session counters** (`backend/session.py`, module `Session`). `record_query`,
  `reset` and the integer part of `stats` are modelled, including Python's
  round-half-to-even for the two percentages.

The state the source changes in place is modelled as classes:
- `ClauseStore.Store` holds the global `CLAUSES` and its loading loop;
- `Session.Session` holds the session counters;
- `Router.CloudLink` stands for the cloud model.

Everything that only reads state is a function. Each method is proved against the
function that specifies it.

## Model

| member | source | states |
|---|---|---|
| ClauseStore.ClauseMap.Put | document_store.py:98-101 | Assigning a key keeps the store well-formed. A new key goes to the end of the insertion order; an existing key keeps its place. |
| ClauseStore.ClauseMap.Values | document_store.py:211 | `CLAUSES.values()` lists one text per key, in insertion order. |
| ClauseStore.AliasesCanonical | document_store.py:14-42 | Every alias resolves to one of the seven canonical keys, and every canonical key is its own alias. |
| ClauseStore.AliasesWithUnderscore | document_store.py:14-42 | An alias that resolves to a different key is never written with `_`. |
| ClauseStore.AliasPlain | document_store.py:14-42 | Every alias is already lower-case and stripped. |
| ClauseStore.CanonicalPlain | document_store.py:14-42 | A canonical key has no upper-case letter, no `-` and no space, and needs no stripping. |
| ClauseStore.Normalize | document_store.py:129-132 | A normalised name never has an upper-case letter, `-` or a space. A name whose lower-cased, stripped form is an alias normalises to a canonical key. |
| ClauseStore.FallbackShape | document_store.py:132 | The fallback spelling keeps the length and turns exactly the `-` and space characters into `_`. |
| ClauseStore.NormalizeAlias | document_store.py:129-132 | An alias normalises to its canonical key, and the canonical key normalises to itself. |
| ClauseStore.NormalizeCanonical | document_store.py:129-132 | A canonical key normalises to itself. |
| ClauseStore.FallbackFixed | document_store.py:129-132 | The fallback spelling of an unknown name normalises to itself. |
| ClauseStore.NormalizeIdempotent | document_store.py:129-132 | Normalising twice gives the same result as normalising once. |
| ClauseStore.GetClauseAlias | document_store.py:120-126 | Asking by an alias finds exactly what asking by its canonical key finds. |
| Titles.FirstRule | document_store.py:59-61 | Gives the first title rule that matches, and no earlier rule matches; `None` means no rule matches. |
| Titles.Identify | document_store.py:57-63 | The key of the first matching rule in table order; the slug when no rule matches. |
| Titles.IdentifyShape | document_store.py:57-63 | For a title starting with a capital, the key is non-empty and is either a rule key or a slug. |
| Titles.CollapseRuns | document_store.py:63 | `re.sub(r"[^a-z0-9]+", "_", …)` leaves only `[a-z0-9_]`, never two `_` in a row, and every `[a-z0-9]` character in order. |
| Titles.SlugSpec | document_store.py:63 | The slug is made of `[a-z0-9_]` with no `_` at either end and none doubled, and it keeps the `[a-z0-9]` characters of the lower-cased title in order. |
| Titles.SlugOfCapitalised | document_store.py:63 | A title starting with a capital letter has a non-empty slug. |
| Patterns.DividerAt | document_store.py:80 | A divider match starts and ends with a newline and spans at least five characters. |
| Patterns.NumberedTitle | document_store.py:89-96 | A numbered heading's title starts with a capital and uses only `[A-Z\s,()&/'-]`. |
| Patterns.SplitNoMatch | document_store.py:80-81 | With no divider in the text, the split gives the whole text as one piece. |
| Patterns.Search | document_store.py:216-219 | `re.search`: the span found is a successful attempt inside the text. |
| Patterns.SearchLeftmost | document_store.py:216-219 | No attempt succeeds before the start of the span found, so the match is the leftmost one. |
| Patterns.SearchNone | document_store.py:216-219 | When the search finds nothing, no attempt succeeds at any index. |
| Patterns.SearchFirst | document_store.py:216-219 | `re.search` from the start: no attempt before the span it finds succeeds. |
| Patterns.NamedCompanyAt | document_store.py:187 | A company match starts with a capital, ends in `Corp`, `Inc`, `LLC` or `Ltd`, and is followed by `.` or `,`. |
| Patterns.LongCompanyAt | document_store.py:216-219 | The long company match starts with a capital and ends in one of the six suffixes. |
| Patterns.IndividualAt | document_store.py:193 | An individual's name starts with a capital and is followed by ` an individual` or `, an individual`. |
| Patterns.DurationWordsAt | document_store.py:250 | A number-word duration starts and ends with a letter. |
| Patterns.DurationDigitsAt | document_store.py:252 | A digit duration starts with a digit and ends with a letter. |
| Patterns.MileRadiusAt | document_store.py:262 | A mile-radius match starts with a digit and ends with `.`. |
| Patterns.PlaceAt | document_store.py:265 | A place match starts with `State of` or `in` and ends on a lower-case letter. |
| Patterns.DollarsAt | document_store.py:272 | An amount starts with `$` and ends on a visible character. |
| Patterns.SentenceGapAt | document_store.py:285 | A sentence gap is a maximal run of whitespace right after `.`, `!` or `?`. |
| Patterns.SentencesStripped | document_store.py:285 | Splitting a stripped text into sentences gives stripped sentences. |
| ClauseStore.Step | document_store.py:84-106 | One pass of the loading loop keeps the store well-formed. |
| ClauseStore.StepEffect | document_store.py:84-106 | A blank section, or an unnumbered one without a party word, changes nothing. Otherwise the stripped section is stored under its key, or appended after `\n\n` when the key is already there. |
| ClauseStore.AccumulatePrefix | document_store.py:83-106 | Filing one more section is one more pass of the loop. |
| ClauseStore.AccumulateModels | document_store.py:83-106 | The store built from a list of sections holds exactly the keys some section is filed under. Each key's text is that key's stripped sections joined by `\n\n`, in order of appearance. |
| ClauseStore.SegmentSpec | document_store.py:76-106 | `load_document` on a fresh store keeps a section only if it is numbered or mentions a party word. It concatenates sections with the same key in order of appearance, and every stored text is stripped and non-empty. |
| ClauseStore.SegmentKeys | document_store.py:89-106 | Every stored key is a rule key, `parties` or a non-empty slug. |
| ClauseStore.PartiesJoin | document_store.py:105-106 | Appending to `parties` and stripping gives the old text, `\n\n` and the section, or just the section when there was none. |
| ClauseStore.Store.constructor | document_store.py:11 | The store starts empty. |
| ClauseStore.Store.LoadDocument | document_store.py:66-108 | The previous store is thrown away, and the new one is the segmentation of the text. |
| ClauseStore.Store.FileSections | document_store.py:83-106 | The loop over the sections leaves the store that filing them in order builds. |
| ClauseStore.Store.FileSection | document_store.py:84-106 | One iteration of the loop is one `Step`. |
| ClauseStore.KeptLines | document_store.py:150-154 | A kept line is neither a heading line nor an all-capitals title line, and every line that is neither is kept. |
| ClauseStore.KeptLinesAppend | document_store.py:150-154 | Filtering two blocks of lines one after the other gives the filtered first block followed by the filtered second, so the kept lines stay in their original order and keep their repetitions. |
| ClauseStore.KeptLinesCons | document_store.py:150-154 | A line put in front is kept in front exactly when it is neither kind of heading line. |
| ClauseStore.SummaryBody | document_store.py:149-157 | The body has a visible character exactly when the clause does; a blank clause is kept as it is. |
| ClauseStore.RedactWithoutParties | document_store.py:179-202 | Without a `parties` clause only `the Company` and `the Employee` are replaced. |
| ClauseStore.RedactVisible | document_store.py:179-202 | Redaction keeps a text visible exactly when it was, and leaves a blank text unchanged. |
| ClauseStore.CompanyNameShape | document_store.py:187-189 | The company name to redact starts with a capital and ends in `Corp`, `Inc`, `LLC` or `Ltd`, with the punctuation cut off. |
| ClauseStore.IndividualNameShape | document_store.py:193-195 | The individual's name starts with a capital and occurs in the parties text just before ` an individual` or `, an individual`. |
| ClauseStore.Store.StripPartyNames | document_store.py:179-202 | Reassigning the text step by step gives the redaction of the current store, whose steps the redaction lemmas state. |
| ClauseStore.CompanyRedacted | document_store.py:185-190 | The company name is taken from the `parties` text and replaced in the given text. Everything before its first occurrence is kept, that occurrence becomes `Party A`, and the rest is treated the same way. |
| ClauseStore.CompanyKept | document_store.py:185-190 | Without a company name in `parties`, or when the text does not contain it, the company step leaves the text unchanged. |
| ClauseStore.IndividualRedacted | document_store.py:192-196 | The individual's name is taken from the `parties` text and replaced in the given text. Everything before its first occurrence is kept, that occurrence becomes `Party B`, and the rest is treated the same way. |
| ClauseStore.IndividualKept | document_store.py:192-196 | Without an individual in `parties`, or when the text does not contain the name, the individual step leaves the text unchanged. |
| ClauseStore.CompanyRoleRedacted | document_store.py:199 | The first `the Company` with no word character on either side becomes `Party A`. Everything before it is kept, including occurrences glued to a word character. |
| ClauseStore.EmployeeRoleRedacted | document_store.py:200 | The first `the Employee` with no word character on either side becomes `Party B`. Everything before it is kept. |
| Text.ReplaceLeftmost | document_store.py:190 | `str.replace` keeps the text before the first occurrence, replaces that occurrence and goes on after it. |
| Text.ReplaceAbsent | document_store.py:190 | `str.replace` leaves a text without the target unchanged. |
| Text.ReplaceWordLeftmost | document_store.py:199-200 | `re.sub` with `\b` on both sides keeps the text before the first word-bounded occurrence and replaces it. The rest is treated as following a word character. |
| Text.ReplaceWordAbsent | document_store.py:199-200 | `re.sub` with `\b` leaves a text without the phrase unchanged. |
| ClauseStore.LastSentenceEnd | document_store.py:169-173 | The largest of the three `rfind`s: a sentence end with none after it, or -1. |
| ClauseStore.HardCutFacts | document_store.py:168 | The hard cut has exactly the first `max_words` words and needs no stripping. |
| ClauseStore.TruncateWithinBudget | document_store.py:163-165 | Within the budget the text is stripped and keeps all its words. |
| ClauseStore.TruncateAtSentence | document_store.py:167-175 | Over the budget, with a sentence end past the first quarter, the result is the hard cut up to the last `.`, `!` or `?` followed by a space, and it has at most `max_words` words. |
| ClauseStore.TruncateHard | document_store.py:167-176 | Over the budget, with no sentence end past the first quarter, the result is the hard cut followed by `...`, with exactly `max_words` words. |
| ClauseStore.TruncateBounds | document_store.py:163-176 | The truncation is empty exactly when the text is blank and, for a positive budget, never has more than `max_words` words. |
| ClauseStore.Summary | document_store.py:135-176 | The summary is `""` exactly when the clause is missing or blank, and it has at most `max_words` words. |
| ClauseStore.SummaryEmptyIffMissing | document_store.py:144-146 | On a store of visible texts, the summary is `""` exactly when the clause is absent. |
| ClauseStore.FirstLong | document_store.py:286-288 | The first sentence with more than `n` words: no earlier sentence has that many. |
| ClauseStore.LongOnes | nda_tools.py:206 | Every sentence kept has more than `n` words and comes from the input, and every such sentence is kept. |
| ClauseStore.LongOnesAppend | nda_tools.py:206 | Filtering two blocks of sentences one after the other gives the filtered first block followed by the filtered second, so the comprehension keeps the original order and every repetition. |
| ClauseStore.LongOnesCons | nda_tools.py:206 | A sentence put in front is kept in front exactly when it has more than `n` words. |
| ClauseStore.LongOnesFirst | document_store.py:285-288 | The early-return loop finds exactly the first sentence the comprehension keeps, and finds none exactly when it keeps none. |
| ClauseStore.ExtractParties | document_store.py:205-231 | Each entry is present exactly when its pattern occurs in the texts joined by `\n`. Its value is the stripped text of the leftmost match, no attempt before which succeeds, and it starts with a capital. |
| ClauseStore.PartyLines | document_store.py:279-280 | At most two lines, and none exactly when neither party was found. |
| ClauseStore.FieldOf | document_store.py:246-293 | On a clause that starts with a visible character, every field extractor answers with a non-empty text. |
| ClauseStore.DurationField | document_store.py:246-258 | The number-word pattern is tried before the digit pattern; when both fail, the answer is the fixed message. |
| ClauseStore.ScopeField | document_store.py:260-268 | The mile radius comes before the place, which gets the `Geographic scope: ` prefix; otherwise the answer is the fixed message. |
| ClauseStore.AmountField | document_store.py:270-275 | The first dollar amount, stripped; `No monetary amount found.` when there is none. Never empty. |
| ClauseStore.PartiesField | document_store.py:277-281 | Whatever the store holds, the `parties` field is never empty: it gives the party lines or the fixed message. |
| ClauseStore.DefinitionField | document_store.py:283-289 | The first sentence with more than ten words, stripped; otherwise the first 300 characters, stripped. |
| ClauseStore.HeadField | document_store.py:291-293 | For any other field: the first 300 characters, stripped, which is non-empty when the clause starts with a visible character. |
| ClauseStore.GetField | document_store.py:234-244 | A missing or empty clause gives exactly `Clause '<name>' not found in document.` with the name as given. A clause starting with a visible character gives a non-empty answer. |
| ClauseStore.GetFieldNormalisesField | document_store.py:244 | The field name is lower-cased and stripped first, so doing that beforehand changes nothing. |
| Tools.ToolPartition | nda_tools.py:104-120 | The device tools and the cloud tools are disjoint, and together they are exactly the five catalogue names. |
| Router.CloudToolsAgree | main.py:22 | The router's cloud tools are the dispatcher's cloud tools. |
| Tools.PartiesTextShape | nda_tools.py:174-183 | The failure message appears exactly when neither name is found. Otherwise the answer is `Company: …` before `Individual: …`, joined by `; `. |
| Tools.PartiesNonEmpty | nda_tools.py:174-183 | The parties answer is never empty. |
| Tools.PartiesAnswer | nda_tools.py:176-183 | Appending the present entries to a list and joining it gives the parties message. |
| Tools.ExecExtractParties | nda_tools.py:174-183 | `_exec_extract_parties` answers the parties message of the store. |
| Tools.ClauseInfo | nda_tools.py:186-192 | A missing clause type gives `Error: clause_type is required.`; otherwise the answer is never empty. |
| Tools.ClauseInfoDefaultField | nda_tools.py:186-192 | On a loaded store, an empty field behaves exactly as `definition`. |
| Tools.SummarizeClause | nda_tools.py:195-210 | A missing clause type gives the required-argument error. A missing or empty clause gives the `not found in document` message. A found clause gives its sentence summary. |
| Tools.SummaryOfTextWords | nda_tools.py:204-210 | With at least one sentence of more than eight words, the summary's words are those of the first such sentence, then those of the second if there is one. |
| Tools.SummaryOfTextNonEmpty | nda_tools.py:204-210 | The summary of a clause starting with a visible character is never empty. |
| Tools.SummarizeNonEmpty | nda_tools.py:195-210 | The summary tool never answers with the empty text when the clause found starts with a visible character, as every text `load_document` stores does. |
| Tools.ContextShape | nda_tools.py:213-238 | A found clause's context holds its summary of at most 80 words after the labelled lines. The jurisdiction is used as given, unchecked. |
| Tools.EnforceabilityNotFound | nda_tools.py:218-220 | The enforceability context is `Clause '<t>' not found.` exactly when the summary is empty. |
| Tools.BenchmarkNotFound | nda_tools.py:232-234 | The benchmark context is `Clause '<t>' not found.` exactly when the summary is empty. |
| Tools.LabelledIsNotMessage | nda_tools.py:220-225 | A labelled context can never be mistaken for the short not-found message. |
| Tools.ContextNotFoundIffMissing | nda_tools.py:213-238 | On a store of visible texts, both context tools give the short not-found message exactly when the clause is absent. |
| Tools.ContextNonEmpty | nda_tools.py:213-238 | The two context tools never answer with the empty text. |
| Tools.WordCountTool | nda_tools.py:241-243 | `word_count` is 0 exactly when the text has no visible character. |
| Tools.WordCountOfJoin | nda_tools.py:241-243 | Counting the words of tokens joined by single spaces gives the number of tokens. |
| Tools.ToolResult | nda_tools.py:145-167 | An unknown tool name gives exactly `Unknown tool: <name>`. |
| Tools.ToolResultNonEmpty | nda_tools.py:145-164 | On a loaded store, every known tool answers with a non-empty text. |
| Tools.ExecuteTool | nda_tools.py:127-167 | A non-empty override replaces the store; a missing or empty one leaves it as it was. The answer is the dispatcher's answer on the resulting store. |
| Router.AnyCloudTool | main.py:134-135 | True exactly when some call, not only the first, names a tool that needs the cloud. |
| Router.DecidePriority | main.py:125-153 | Each rule applies exactly when every earlier rule does not and its own condition holds. The device keeps the query exactly when no escalation rule applies. |
| Router.HandoffFirst | main.py:126-131 | A set handoff flag escalates with `cloud (cactus handoff)`, whatever the calls and the confidence. |
| Router.LegalKnowledgeAtFullConfidence | main.py:133-141 | A cloud tool anywhere among the calls escalates with `cloud (legal knowledge required)`, even at full confidence. |
| Router.ThresholdIsInclusive | main.py:143-153 | A confidence equal to the default threshold 0.72 stays on the device; one strictly below escalates with `cloud (low confidence)`. |
| Router.LabelsDistinct | main.py:126-153 | The four provenance labels name the rules one to one, and only the device's label is `on-device`. |
| Router.RouteShape | main.py:126-153 | On the device path the local result is returned unchanged apart from its label. On every escalation the cloud's calls replace the local ones, the local confidence is kept aside, and the times add up. |
| Router.UnparseableEscalates | main.py:45-52 | Unparseable output has no calls, confidence 0 and no handoff key, so any positive threshold escalates it through the low-confidence rule. |
| Router.ParsedDefaults | main.py:54-59 | Missing keys take `[]`, 0, 0 and `False`; the keys that are present are kept. |
| Router.CloudLink.Generate | main.py:127 | One more cloud request, answered with the recorded reply. |
| Router.GenerateHybrid | main.py:111-153 | The result is the routed result of the shaped local output. The cloud is asked exactly once on every escalation and never on the device path. |
| Session.RoundHalfEven | backend/session.py:45 | Python's `round` of `n / d`: the nearest integer, with ties going to the even one. |
| Session.RoundComplement | backend/session.py:44-51 | Two shares that add up to the whole round to percentages that add up to 100. |
| Session.Session.constructor | backend/session.py:13-21 | A new session has no clauses, no document and all counters at 0. |
| Session.Session.RecordQuery | backend/session.py:24-38 | One more query. It is local exactly when the source is `on-device`; the words sent count only for the cloud. `query_count == local_count + cloud_count` is preserved, and with `words_sent >= 0` the word total never decreases. |
| Session.Session.Stats | backend/session.py:42-65 | The counters are reported unchanged. With no queries both percentages are 0; otherwise each is Python's `round` of the share times 100. |
| Session.StatsPercentages | backend/session.py:42-65 | On a session where every query is local or cloud, both reported percentages lie between 0 and 100 and, once a query was recorded, add up to exactly 100. |
| Session.PercentagesSum | backend/session.py:44-51 | With at least one query, the local and cloud percentages add up to exactly 100. |
| Session.PercentBounds | backend/session.py:44-51 | Each percentage lies between 0 and 100. |
| Session.Session.Reset | backend/session.py:67-76 | Every integer field returns to its default, the clauses are emptied and the document flag is cleared. |

## Left out

- `load_sample` (document_store.py:111-117) reads a file from disk. File I/O is outside the model.
- backend/app.py and demo/run_demo.py are left out. They hold the HTTP endpoints, the command line, printing, timing and the Gemini elaboration.
- The bodies of `generate_cactus` and `generate_cloud` are left out: the calls into the cactus runtime and google-genai, and `json.loads`. The local output arrives as a value (`Router.RawLocal`). The cloud is a recorded link with a fixed reply.
- Router.ShapeLocal: the local output is assumed to be a JSON object whose `function_calls`, when present, is a list of objects that each have a `name`. The source raises otherwise: `raw.get` on a parsed non-object (main.py:55-58), iterating a `null` `function_calls` (main.py:134-135), and `c["name"]` on a call without a name (main.py:135). `Router.RawLocal` and `Router.Call` cannot express those inputs.
- Router.ShapeLocal: the handoff flag is modelled as a boolean. A non-boolean JSON value tested for truth is not modelled, and neither are non-numeric confidence or time values.
- Session.Session.RecordQuery: the floating-point fields `total_latency_ms` and `total_cost_usd` are not modelled, and neither is the latency argument.
- Session.Session.Stats: the average latency and the rounded cost are floating point and are not modelled. The percentages round the exact rational `100 * part / whole`. Python rounds the float quotient, which gives the same integer whenever the query count is far below 2^40, because no true quotient then lies within float error of a half.
- Strings are ASCII. `lower`, `strip`, `split` and `isspace` follow Python on ASCII characters. Unicode case mapping and Unicode whitespace are not modelled.
- Regular expressions are not modelled in general. Each pattern the core uses has its own recogniser.
- The global `CLAUSES` is a field of `ClauseStore.Store`. When `execute_tool` gets an override dictionary, the store takes it as a value. Later mutation of the caller's dictionary through the shared reference (aliasing) is not modelled.
- Tool arguments are strings. A non-string argument value from the model's JSON is not modelled.
- A concurrent reload racing a query is not modelled, because the source has no synchronisation to specify.
- ClauseStore.Summary: the word bound is proved for `max_words > 0`. With `max_words == 0`, a non-blank clause summarises to `...`, which is one word (`ClauseStore.TruncateHard`). The callers always pass 80.
- ClauseStore.PartiesField: `parties` is answered from the whole store and ignores the clause that was asked about, as the source does. Its contract states only that the answer is never empty; the exact lines are those of `ClauseStore.PartyLines`.
- Tools.PartiesAnswer: the `Parties not found.` branch is modelled but cannot be reached, because the list is non-empty whenever the parties dictionary is.
- Tools.ClauseInfo: the `Could not find '<field>' in <type> clause.` message is modelled, but on a loaded store it cannot occur, because the extraction is never empty (`Tools.ClauseInfoDefaultField`).
