# AvalIA: the reply parser, the request guards and the screen logic, in Dafny

AvalIA is a web tool for property brokers. A form describing a property goes to a large language model, which is told to answer in four sections, each introduced by a delimiter `[[SEÇÃO n]]`:

1. a price analysis;
2. negotiation script lines;
3. a knowledge pill;
4. a CRM record written as JSON.

The app shows the sections on a result screen. This project models three parts of it, with proofs about each.

- **The reply parser** (`parseResponse`, in `Parser`, with `Sections`, `Scripts` and `JsString`):
  - It splits the reply on the delimiter regex and fills the fields by fragment position.
  - It cleans the script lines.
  - It takes the CRM object out of section 4: it strips code fences, cuts from the first `{` to the last `}`, parses strictly, and retries once with every `'` turned into `"`.
  - `ParseResponse` is imperative, as the source is. It starts from the default record and overwrites one field at a time. It is proved equal to the specification function `ParsedResponse`, and the parser's guarantees are lemmas about that function.
- **The request guards** (`analyzeProperty`, in `Request`):
  - the API-key check;
  - the sale and rental wording;
  - the amenities phrase and its fallback `Nenhuma informada`;
  - the four delimiters of the system instruction;
  - the empty-reply check.

  The model call is a parameter `service`. Its outcome is either a reply text, which may be absent, or an error.
- **The screen machine** (App.tsx, in `Screens`):
  - the cells `appState`, `result` and `error`, as a class with one method per handler;
  - the same transitions as a function `Next`;
  - the events each rendered screen offers;
  - an invariant that every reachable state keeps.

`JSON.parse` is a parameter `parse: string -> Option<Json>`. Its internals are not modelled, and only the two-attempt control flow around it is verified. `Scenarios` states what the parser returns for a whole reply; the single-quoted CRM object in it is recovered by the repair.

Two behaviours of the parser are easy to misread, and the model keeps them as the code has them:

- **A parsed object replaces the CRM record as a whole.** The code assigns whatever `JSON.parse` returned (services/geminiService.ts:57, 64). On a single-quoted `{'resumo_imovel':'ok'}`, the other three CRM fields are therefore gone, not left at their defaults. `Parser.WholesaleReplacement` and `Scenarios.WorkedExample` state this.
- **Fields go by position, not by the digit in the delimiter.** The sections are not independent of each other: a reply that leaves out the first delimiter puts section 2 into `priceAnalysis`. `Parser.ByPosition` and `Parser.DigitsIgnored` state this.

## Model

| member | source | states |
|---|---|---|
| JsString.TrimSpec | services/geminiService.ts:29 | `trim` removes a whitespace-only prefix and a whitespace-only suffix, and what is left is a contiguous slice that neither starts nor ends with whitespace |
| JsString.TrimIdempotent | services/geminiService.ts:37 | trimming an already trimmed line changes nothing |
| JsString.TrimKeeps | services/geminiService.ts:47 | trimming never removes a character that is not whitespace |
| JsString.TrimOfFramed | services/geminiService.ts:29 | whitespace around a text whose ends are not whitespace is exactly what `trim` removes |
| JsString.Split | services/geminiService.ts:36 | `split('\n')` gives at least one part, and no part contains the separator |
| JsString.JoinSplit | services/geminiService.ts:36 | joining the parts of a split with the separator gives back the text |
| JsString.SplitJoin | services/geminiService.ts:36 | splitting a join of separator-free parts gives back the parts |
| JsString.IndexOf | services/geminiService.ts:51 | the result is -1 exactly when the character is absent; otherwise it is the position of its first occurrence |
| JsString.LastIndexOf | services/geminiService.ts:52 | the result is -1 exactly when the character is absent; otherwise it is the position of its last occurrence |
| JsString.Substring | services/geminiService.ts:55 | `substring(a, b)` is the slice between a and b, with the ends swapped when a > b |
| JsString.ReplaceAllKeeps | services/geminiService.ts:49 | replacing a pattern keeps every character that is in neither the pattern nor the replacement |
| JsString.ReplaceAllChar | services/geminiService.ts:63 | replacing one character by another changes exactly its occurrences and keeps the length |
| Types.StringsRoundTrip | types.ts:24 | a list of strings written as a JSON array reads back as the same list |
| Types.CrmRoundTrip | types.ts:20-25 | a CRM record written as the JSON object with its four keys reads back as the same record |
| Types.Lookup | types.ts:20-25 | a key is found exactly when some member has it, and the value found belongs to the last member with that key |
| Sections.SplitSections | services/geminiService.ts:20 | the split gives at least one fragment, and the first fragment is a prefix of the reply |
| Sections.FirstFragment | services/geminiService.ts:20-22 | the first fragment is the text before the first delimiter: a delimiter-free prefix of the reply, followed by a delimiter when there are more fragments, and the whole reply when there is only one |
| Sections.SplitMarkerFree | services/geminiService.ts:20 | no fragment of the split contains a delimiter |
| Sections.SplitAfterFree | services/geminiService.ts:20 | a delimiter-free text followed by a delimiter is the first fragment, and the split goes on with the rest |
| Sections.SplitRejoin | services/geminiService.ts:20 | splitting on the delimiter regex and putting the matched delimiters back gives the reply |
| Sections.RejoinSplit | services/geminiService.ts:20 | delimiter-free fragments joined by delimiters with any digits split back into those fragments |
| Sections.SplitOfFree | services/geminiService.ts:20 | a reply without a delimiter is a single fragment |
| Sections.NoBracketNoMarker | services/geminiService.ts:20 | a text without `[` holds no delimiter |
| Scripts.CleanLine | services/geminiService.ts:39 | the cleaned line is a slice of the line: it starts after at most one bullet and the whitespace right after it, and it ends before at most one closing quote |
| Scripts.CleanDecorated | services/geminiService.ts:39 | any bullet, any run of spacing and an optional closing quote around a text clean to that text |
| Scripts.CleanPlain | services/geminiService.ts:39 | a line that neither starts with a bullet nor ends with a quote is kept unchanged |
| Scripts.ScriptLineSources | services/geminiService.ts:33-39 | each script line comes from its own line of the trimmed section, at increasing positions; that line is not blank and the script is it trimmed and cleaned; every non-blank line gives a script line |
| Scripts.NonBlankSources | services/geminiService.ts:36-38 | each kept line is a non-blank line of the input, trimmed, taken at increasing positions, and no non-blank line is left out |
| Scripts.NonBlankElements | services/geminiService.ts:37-38 | every kept line is non-empty and already trimmed |
| Scripts.NonBlankAppend | services/geminiService.ts:37-38 | the blank-line filter works line by line: filtering two lists one after the other is filtering their concatenation |
| Scripts.NonBlankOfTrimmed | services/geminiService.ts:33-38 | trimming the section before splitting it changes none of the kept lines |
| Scripts.BareBulletKept | services/geminiService.ts:38-39 | a line that is only `-` survives as an empty script line, because the blank filter runs before the cleanup |
| Parser.StripFencesKeeps | services/geminiService.ts:49 | removing the fences keeps every character that is not part of "```json" |
| Parser.StripFencesOfFree | services/geminiService.ts:49 | a text without "```" is left unchanged by the fence removal |
| Parser.JsonCandidate | services/geminiService.ts:51-55 | there is no candidate exactly when the text lacks a `{` or a `}` |
| Parser.CandidateBraces | services/geminiService.ts:51-55 | when the first `{` comes before the last `}`, the candidate is the text from the one to the other, inclusive |
| Parser.CandidateSwapped | services/geminiService.ts:55 | when the last `}` comes before the first `{`, the candidate is the text strictly between them, and it holds no brace |
| Parser.BareObjectCandidate | services/geminiService.ts:47-55 | a fence-free text that opens with `{` and closes with `}` is its own candidate |
| Parser.RepairQuotesSpec | services/geminiService.ts:63 | the repair turns every `'` into `"`, changes nothing else and keeps the length |
| Parser.RepairWithoutQuote | services/geminiService.ts:63 | a candidate without `'` is retried unchanged |
| Parser.CandidateExists | services/geminiService.ts:47-54 | a parse is attempted exactly when section 4 holds both a `{` and a `}` |
| Parser.FirstSuccess | services/geminiService.ts:56-67 | there is no value exactly when every attempt fails; otherwise the value is what an attempt parsed to, and every attempt before it failed |
| Parser.MineCrm | services/geminiService.ts:46-69 | the imperative JSON step makes the attempts of the specification, in order, and leaves the CRM value at the first success or unchanged |
| Parser.ParseResponse | services/geminiService.ts:4-77 | the imperative parser returns `ParsedResponse(parse, text)`, for every text, and hands `JSON.parse` exactly the texts `ParseAttempts` lists |
| Parser.DefaultsAreSentinels | services/geminiService.ts:5-15 | the default record is "", [], "" and the CRM record ("Erro na análise", "N/A", "N/A", []) |
| Parser.NoMarkerGivesDefaults | services/geminiService.ts:17-76 | a reply without a delimiter gives the default record and never calls `JSON.parse` |
| Parser.ByPosition | services/geminiService.ts:20-46 | for delimiter-free fragments, each field comes from the fragment at its position; the fields with no fragment keep their defaults |
| Parser.DigitsIgnored | services/geminiService.ts:20 | changing the digits in the delimiters does not change the result |
| Parser.ExtraSectionsIgnored | services/geminiService.ts:28-46 | fragments past the fourth section do not change the result |
| Parser.PreambleIgnored | services/geminiService.ts:20-29 | the text before the first delimiter does not change the result |
| Parser.ScriptsFromSection | services/geminiService.ts:32-39 | the script lines are one per non-blank line of section 2, in order, each that line cleaned |
| Parser.AttemptsShape | services/geminiService.ts:54-64 | there are at most two attempts, none without both braces; the first is the candidate, and the second is the repaired candidate, made only when the first failed |
| Parser.CrmOutcome | services/geminiService.ts:56-67 | when every attempt fails the CRM value is the default; otherwise it is what the last attempt parsed to |
| Parser.MissingBraceKeepsDefault | services/geminiService.ts:51-54 | a section 4 without a `{` or without a `}` leaves the CRM value at the default |
| Parser.RepairCannotHelp | services/geminiService.ts:62-64 | a failing candidate without `'` is tried twice, unchanged, and the default stays |
| Parser.WholesaleReplacement | services/geminiService.ts:57 | a parsed object holding only `resumo_imovel` becomes the CRM value as it is, and it no longer reads as a CRM record |
| Request.ContextsAgree | services/geminiService.ts:87-88 | the transaction and price wordings, and the word of line 115, are the sale wordings exactly for a sale |
| Request.SelectLabels | services/geminiService.ts:91-98 | one label per set flag, and every label taken belongs to a set flag at its own position |
| Request.SelectConcat | services/geminiService.ts:91-98 | the list keeps the array's order: selecting from two lists one after the other is selecting from their concatenation |
| Request.SelectedIff | services/geminiService.ts:91-98 | with distinct labels, a label is listed exactly when its flag is set |
| Request.AmenityListed | services/geminiService.ts:91-98 | each of the six amenity labels is listed exactly when its form flag is set |
| Request.NoAmenitiesIff | services/geminiService.ts:111 | the prompt says `Nenhuma informada` exactly when no amenity flag is set |
| Request.AmenitiesExample | services/geminiService.ts:91-98 | a condominium with a pool lists the condominium label first, then ", ", then the pool label |
| Request.InstructionMarkersMatch | services/geminiService.ts:140-155 | each of the four delimiters in the system instruction matches the parser's regex, with digits 1 to 4 |
| Request.InstructedLayout | services/geminiService.ts:140-155 | a reply laid out with those four delimiters around delimiter-free fragments puts each section in its own field |
| Request.BuildRequest | services/geminiService.ts:87-115 | the request carries the form; its three wordings are the sale ones exactly for a sale and the rental ones for a rental; its amenities text is `Nenhuma informada` exactly when no flag is set, and otherwise the ", "-join of the selected labels, a list in which each label appears exactly when its flag is set; its four delimiters all match the parser's regex |
| Request.AnalyzeProperty | services/geminiService.ts:79-191 | a missing or empty key fails with its message and never calls the model; otherwise the model is called with the request built from the form; an error is passed on unchanged, an absent or empty reply fails, and any other reply gives `ParsedResponse` of it |
| Screens.EnabledStates | App.tsx:42-99 | login is offered only in LOGIN, submit only in FORM, and completion only in LOADING; reset is offered in ERROR, or in RESULT when a result is there |
| Screens.InitialInv | App.tsx:11-13 | the initial state keeps the invariant |
| Screens.NextInv | App.tsx:16-39 | every offered event keeps the invariant: a result only in RESULT, and the fixed message only in ERROR |
| Screens.RunInv | App.tsx:16-39 | every run of offered events keeps the invariant |
| Screens.Reachable | App.tsx:42-99 | every reachable state keeps the invariant, shows the result screen whenever it is RESULT, and offers some event |
| Screens.ResetClears | App.tsx:35-39 | from any state, reset gives FORM with both cells cleared |
| Screens.RetryAfterError | App.tsx:21-39 | after an error, reset and a successful submit show the new result, and the error cell is cleared |
| Screens.App.constructor | App.tsx:11-13 | the app starts in LOGIN with no result and no error |
| Screens.App.HandleLogin | App.tsx:16-19 | the state becomes FORM and both cells are kept |
| Screens.App.BeginSubmit | App.tsx:21-23 | the state becomes LOADING, the error is cleared, and the result is kept |
| Screens.App.CompleteSubmit | App.tsx:24-32 | success stores the response and shows RESULT; failure stores the fixed message, shows ERROR and keeps the result |
| Screens.App.HandleFormSubmit | App.tsx:21-33 | the submit is its start step followed by its completion with the analysis outcome; without an API key it ends in ERROR; with one, the outcome is the service's error, the empty-reply failure, or `ParsedResponse` of the reply |
| Screens.App.ResetApp | App.tsx:35-39 | the state becomes FORM with both cells cleared, a state that keeps the invariant |
| Scenarios.QuotedSectionRecovered | services/geminiService.ts:46-67 | a single-quoted object fails the strict parse and is recovered from the repaired text |
| Scenarios.BulletedScript | services/geminiService.ts:32-39 | a section of one dash-bulleted line gives that line without the bullet |
| Scenarios.WorkedExample | services/geminiService.ts:4-77 | a reply in the instructed layout gives its texts trimmed and cleaned, and a CRM value that is the repaired object as a whole |

## Left out

- The model client (`GoogleGenAI`, `generateContent`, the search tool, the temperature): the call is the parameter `service`, and only its outcome is modelled.
- The internals of `JSON.parse`: it is the parameter `parse`, a deterministic partial function. The apostrophe-corrupting quote repair is modelled as written.
- `data.price.toLocaleString('pt-BR')` and the numeric form fields: locale and floating-point formatting. Numbers are `real`.
- The prose of the prompt and of the system instruction. Only the values built into it (the context strings, the amenities phrase, the four delimiters) are modelled.
- `console.warn` and `console.error` logging.
- The outer `try`/`catch` of `parseResponse`. Nothing in the modelled steps can throw, so the parser is total.
- `async`/`await`: a submit is a start step followed by a completion step, and no event interleaves within that step pair.
- `HandleFormSubmit` and `AnalyzeProperty` are modelled without the exception mechanism. A thrown error becomes a `Failure` carrying its message.
- components/PropertyForm.tsx, components/LoginScreen.tsx and components/AnalysisResult.tsx, which are rendering, clipboard access and timers. components/AnalysisResult.tsx:17 reads `salesScripts[0]` without checking that the list is non-empty. An empty section 2 gives an empty list (`Parser.ScriptsFromSection`), so that read can be undefined. It lies outside this model.
- JavaScript strings are UTF-16 code units, while `string` here is a sequence of Unicode scalar values. Every character the parser tests for is in the Basic Multilingual Plane.
- The form field `type` of types.ts is named `propertyType`, because `type` is a Dafny keyword.
- Parser.StripFences: no lemma states that the fences are gone afterwards. The model states only which characters survive (`Parser.StripFencesKeeps`) and that a text without "```" is unchanged (`Parser.StripFencesOfFree`).
