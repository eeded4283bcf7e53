# SafeClick core, modelled in Dafny

SafeClick is a cybersecurity dashboard. Its pages send content to a
generative model and draw what comes back:

- The **analyzer** sends a URL, an email or an SMS for a structured threat
  analysis, or runs a grounded threat-intelligence search.
- The **video lab** asks for a forensic report on a video and reads it back
  by its bracketed tags.
- The **chat bot** streams replies into a transcript and renders replies
  in the `### [SECTION]` layout as titled sections.

This project models the logic behind those pages and the service layer
under them, and proves what each part promises.

| module | file | models |
|---|---|---|
| `Text` | `text.dfy` | trimming, substring search, ASCII case mapping, string split and join |
| `Types` | `types.dfy` | the analysis record, and the decoded object the page actually holds |
| `GeminiService` | `gemini_service.dfy` | the requests each call makes and how its outcome reaches the caller |
| `VideoLab` | `video_lab.dfy` | the tag extractor of the report parser, and the verdict styling |
| `ChatFormat` | `chat_format.dfy` | the renderer that turns a reply into sections |
| `ChatBot` | `chat_bot.dfy` | the chat window's state and its send / stream / settle transitions |
| `Analyzer` | `analyzer.dfy` | the analyzer page's state, request routing, result panel and source links |

The provider is not part of the model. Every service call takes the
settled outcome of its request as a parameter (`Outcome.Ok` or `Outcome.Failed`).
`JSON.parse` is a parameter `parse: string -> Option<Decoded>`, where `None`
stands for a throw. The page state is a class whose methods are the state
updates of the handlers. Each `await` is split into a start method and a
method that settles it.

## Model

| member | source | states |
|---|---|---|
| `Types.ParseLevel` | types.ts:2 | a string is read as a level only when it is that level's name |
| `Types.LevelNameRoundTrip` | types.ts:2 | every level is read back from its own name |
| `Types.Encode` | types.ts:4-15 | a declared record, seen as a decoded object, has every field, both lists among them |
| `Types.Conform` | types.ts:4-15 | a decoded object stands for a record exactly when every field is there and the level is a known name |
| `Types.ConformEncode` | types.ts:4-15 | a record survives encoding and conforming |
| `Types.EncodeConform` | types.ts:4-15 | a conforming object is exactly the encoding of its record |
| `Types.EmptyObjectShape` | geminiService.ts:62 | the object `{}` has no field, does not conform, and lacks the lists |
| `GeminiService.ThreatInstruction` | geminiService.ts:8-34 | the instruction names the content kind, asks for three layers, asks for the URL checks exactly for a URL, and asks for the ten fields in order |
| `GeminiService.KindNameInjective` | geminiService.ts:9 | different kinds are written into the instruction differently |
| `GeminiService.InstructionDeterminesKind` | geminiService.ts:8-34 | two kinds get the same instruction only when they are the same kind |
| `GeminiService.SchemaShape` | geminiService.ts:43-58 | the schema has the ten declared fields in order with their declared types, and requires seven: all but the two lists and the behavioural index |
| `GeminiService.RequiredLeavesListsOptional` | geminiService.ts:57 | an object can meet every required field and still lack both lists |
| `GeminiService.JsonText` | geminiService.ts:62 | a missing or empty reply is read as `{}`; any other reply as itself |
| `GeminiService.AnalyzeThreat` | geminiService.ts:5-66 | succeeds exactly when the client is built, the request succeeds and its text parses, with the parsed object unchecked; a failure to build the client (line 6, before the `try`) escapes with its own message; every other failure is `Intelligence core offline.` |
| `GeminiService.EmptyReplyIsEmptyObject` | geminiService.ts:62 | an empty or missing reply is handed on as the empty object, without the lists |
| `GeminiService.SearchPrompt` | geminiService.ts:74 | the query sits in the request right after the fixed lead text |
| `GeminiService.SearchPromptRoundTrip` | geminiService.ts:74 | the query is recovered from the request made for it |
| `GeminiService.SearchThreatIntelligence` | geminiService.ts:69-84 | fails exactly when the client cannot be built (line 70, before the `try`), with that error's message; otherwise the reply's text with its grounding chunks, or no sources when they are missing, and a failed request is the text `Intelligence search failed.` with no sources |
| `GeminiService.VideoRequest` | geminiService.ts:126-137 | the video goes first inline with the caller's MIME type, then the instruction asking for the five tags in order |
| `GeminiService.AnalyzeVideo` | geminiService.ts:122-144 | fails exactly when the client cannot be built (line 123, with that error's message) or the request fails (with `Video lab error.`); otherwise returns the reply's text |
| `GeminiService.ParserReadsRequestedTags` | pages/VideoLab.tsx:41-47 | the page reads exactly the five tags the instruction asks for, in the same order |
| `GeminiService.VideoTagsAreTags` | geminiService.ts:130-136 | the five requested tags are upper-case names and distinct |
| `GeminiService.AnswerFillsReport` | pages/VideoLab.tsx:35-48 | a reply in the requested layout, with bracket-free values, fills each report field with its trimmed value |
| `GeminiService.ChatHeadersAreNames` | geminiService.ts:96-113 | the headers hold no brackets, `#` or newline and are trimmed |
| `GeminiService.ChatBlocksGood` | geminiService.ts:96-113 | with `#`-free bodies every block of the layout is well formed |
| `GeminiService.StructuredReplySections` | geminiService.ts:96-113 | a reply in the instructed layout renders as five sections titled VERDICT, FORENSIC_SUMMARY, THREAT_INDICATORS, BEHAVIORAL_LOG and RECOMMENDED_ACTIONS, each with its trimmed body |
| `GeminiService.InstructionSections` | geminiService.ts:86-120 | the instruction itself, opening text included, renders as six sections: the opening text's own, then the five headers |
| `VideoLab.ParseReport` | pages/VideoLab.tsx:35-48 | each field is read from its own tag: the sentinel when the tag is absent, else trimmed text free of `[`; what a field holds in a well-formed report is stated by `VideoLab.ExtractFromReport` and `GeminiService.AnswerFillsReport` |
| `VideoLab.Extract` | pages/VideoLab.tsx:36-39 | `Data Unavailable` when the marker is absent; otherwise a trimmed value without `[` |
| `VideoLab.RegexAgrees` | pages/VideoLab.tsx:36-39 | the regular expression's reading equals the trimmed text after the first marker, up to the next `[` or the end |
| `VideoLab.ExtractAbsent` | pages/VideoLab.tsx:38 | a reply without the marker gives the sentinel |
| `VideoLab.ExtractPresentShape` | pages/VideoLab.tsx:38 | a found value is trimmed and holds no `[` |
| `VideoLab.EmptyValueBeforeBracket` | pages/VideoLab.tsx:37 | a marker followed directly by `:` and the next tag gives the empty value, not the sentinel |
| `VideoLab.ExtractSkipsEntry` | pages/VideoLab.tsx:37 | a line with another tag in front does not change what a tag reads |
| `VideoLab.ExtractFromReport` | pages/VideoLab.tsx:35-48 | in a report of tagged lines, whatever their order, a tag reads its first line's trimmed value, or the sentinel when no line has it |
| `VideoLab.FirstValueOfDistinct` | pages/VideoLab.tsx:37 | with distinct tags each tag's first line is its own |
| `VideoLab.EmptyReplyAllSentinel` | pages/VideoLab.tsx:35-48 | an empty reply gives the sentinel in all five fields |
| `VideoLab.ReportOf` | pages/VideoLab.tsx:72 | defined as the parse of the reply's text, or of the empty text when there is none; its meaning is stated by `VideoLab.MissingReplyAllSentinel` |
| `VideoLab.MissingReplyAllSentinel` | pages/VideoLab.tsx:72 | a reply without text is parsed as the empty string and gives all sentinels |
| `VideoLab.VerdictStyle` | pages/VideoLab.tsx:88-93 | defined as substring tests on the upper-cased verdict, CRITICAL first; its meaning is stated by `VideoLab.VerdictClassification` |
| `VideoLab.VerdictClassification` | pages/VideoLab.tsx:88-93 | ignoring case, a verdict mentioning CRITICAL is compromised; otherwise one mentioning SUSPICIOUS is flagged; every other verdict is verified |
| `VideoLab.SentinelIsVerified` | pages/VideoLab.tsx:38 | a missing verdict is styled as verified |
| `ChatFormat.KeepNonBlank` | components/ChatBot.tsx:105 | keeps exactly the non-blank pieces |
| `ChatFormat.Pieces` | components/ChatBot.tsx:105 | the kept pieces are non-blank and hold no `###`, and every non-blank piece of the split is kept; their order and layout are stated by `ChatFormat.KeepNonBlank` and `ChatFormat.SplitReply` |
| `ChatFormat.SectionOf` | components/ChatBot.tsx:110-113 | a section's title has no brackets and is trimmed; its body is trimmed |
| `ChatFormat.SectionOfLines` | components/ChatBot.tsx:110-113 | the title is the first line of the trimmed piece without brackets; the body is the trimmed rest |
| `ChatFormat.SectionOfSingleLine` | components/ChatBot.tsx:110-113 | a one-line piece gives a title and an empty body |
| `ChatFormat.SectionBodyEmpty` | components/ChatBot.tsx:112 | the body is empty exactly when the piece has one line or only blank lines after the first |
| `ChatFormat.SectionsOf` | components/ChatBot.tsx:108-114 | one section per piece, in order, each the section of its piece |
| `ChatFormat.FormatMessage` | components/ChatBot.tsx:103-128 | plain text exactly when fewer than two non-blank pieces; otherwise one bracket-free section per piece |
| `ChatFormat.FormatWithoutMark` | components/ChatBot.tsx:104-107 | a reply without `#` is shown as it is |
| `ChatFormat.ReplyPieces` | components/ChatBot.tsx:105 | a reply in the `### [NAME]` layout splits into its blocks, after the preamble when it is not blank |
| `ChatFormat.SplitReply` | components/ChatBot.tsx:105 | splitting on `###` gives the preamble and then one piece per block |
| `ChatFormat.SectionOfBlock` | components/ChatBot.tsx:110-113 | a block renders as the section of its trimmed name and trimmed body |
| `ChatFormat.FormatBlocks` | components/ChatBot.tsx:103-128 | two or more blocks after a blank start render as one section per block, in order |
| `ChatFormat.FormatSingleBlock` | components/ChatBot.tsx:106 | a single block after a blank start is shown as plain text |
| `ChatFormat.FormatAfterPreamble` | components/ChatBot.tsx:103-128 | a non-blank preamble renders as its own section in front of the blocks' sections |
| `ChatBot.ChosenMessage` | components/ChatBot.tsx:47 | the custom message when it is non-empty, else the input |
| `ChatBot.CanSend` | components/ChatBot.tsx:48 | defined as the guard of the send handler; its meaning is stated by `ChatBot.SendGuard` |
| `ChatBot.SendGuard` | components/ChatBot.tsx:48 | a send starts exactly when the message is not blank, there is a session, and nothing is loading |
| `ChatBot.Streamed` | components/ChatBot.tsx:61-75 | defined as the chunks appended one by one; its meaning is stated by `ChatBot.StreamedConcat` and `ChatBot.StreamedSkipsEmpty` |
| `ChatBot.StreamedConcat` | components/ChatBot.tsx:61-75 | the accumulated text of a stream is the text of its parts, one after the other |
| `ChatBot.StreamedStep` | components/ChatBot.tsx:65 | each chunk extends the accumulated text by itself |
| `ChatBot.StreamedSkipsEmpty` | components/ChatBot.tsx:64 | an empty chunk changes nothing |
| `ChatBot.AfterSendShape` | components/ChatBot.tsx:46-91 | a settled send keeps the transcript, adds the user's message and one reply, and leaves nothing streaming |
| `ChatBot.FinalReplyText` | components/ChatBot.tsx:78-87 | the settled reply is the streamed text of any completed stream, or the uplink error when the stream fails |
| `ChatBot.ChatWindow.constructor` | components/ChatBot.tsx:25-31 | the window opens closed and idle, with the welcome message as the only entry |
| `ChatBot.ChatWindow.Toggle` | components/ChatBot.tsx:225 | toggling flips the window open or closed; the session exists once the window has been opened |
| `ChatBot.ChatWindow.Close` | components/ChatBot.tsx:155 | closing changes nothing else |
| `ChatBot.ChatWindow.SetInput` | components/ChatBot.tsx:204 | typing replaces the input and nothing else |
| `ChatBot.ChatWindow.Send` | components/ChatBot.tsx:46-55 | a blocked send changes nothing; a send that starts clears the input, is loading, and appends the user's message and a streaming placeholder |
| `ChatBot.ChatWindow.OnChunk` | components/ChatBot.tsx:64-73 | a chunk extends the text and replaces only the last message, which stays streaming |
| `ChatBot.ChatWindow.OnComplete` | components/ChatBot.tsx:78-83 | completion ends streaming with the full text and ends loading; the running text is kept |
| `ChatBot.ChatWindow.OnError` | components/ChatBot.tsx:85-89 | a failure replaces the placeholder with the uplink error and ends loading; the running text is kept |
| `ChatBot.ChatWindow.Receive` | components/ChatBot.tsx:61-75 | after any chunks the last message holds exactly their concatenation and is still streaming |
| `ChatBot.ChatWindow.Exchange` | components/ChatBot.tsx:46-91 | a whole send either changes nothing or appends the user's message and the settled reply, leaving the running text as the streamed chunks; it always ends not loading |
| `Analyzer.RiskBand` | pages/Analyzer.tsx:158 | defined as the two comparisons of the gauge; its meaning is stated by `Analyzer.RiskBandPartition` |
| `Analyzer.RiskBandPartition` | pages/Analyzer.tsx:158 | red above 80, amber above 40 up to 80, green up to 40; a higher score never gets a milder band |
| `Analyzer.ScoreBand` | pages/Analyzer.tsx:158 | a missing score compares false with both bounds and is shown green |
| `Analyzer.CriticalBadge` | pages/Analyzer.tsx:195 | defined as the level being the string `Critical`; its meaning for records is stated by `Analyzer.CriticalBadgeOfRecord` |
| `Analyzer.CriticalBadgeOfRecord` | pages/Analyzer.tsx:195 | the alarming badge is shown exactly for the Critical level |
| `Analyzer.ListPanel` | pages/Analyzer.tsx:209-212 | as written: needs the list present; shows `NONE_DETECTED` exactly for an empty list, else the items |
| `Analyzer.GuardedListPanel` | pages/Analyzer.tsx:209-212 | with the emptiness test guarded, `NONE_DETECTED` for a missing or empty list, else the items |
| `Analyzer.GuardedListPanelAgrees` | pages/Analyzer.tsx:220-223 | the guarded panel agrees with the written one wherever that one can be drawn |
| `Analyzer.EmptyReplyBreaksListPanels` | pages/Analyzer.tsx:212 | the result of an empty reply is accepted, but its lists are missing |
| `Analyzer.IsHighlighted` | pages/Analyzer.tsx:235 | defined as the lower-cased substring tests; its meaning is stated by `Analyzer.HighlightIgnoresCase` |
| `Analyzer.HighlightIgnoresCase` | pages/Analyzer.tsx:235 | an indicator is highlighted exactly when it mentions `homograph` or `typo`, ignoring case |
| `Analyzer.IndicatorPanel` | pages/Analyzer.tsx:233-239 | `CLEAN_FORENSICS` for a missing or empty list; otherwise every indicator in order with its highlight |
| `Analyzer.ResultPanel` | pages/Analyzer.tsx:158-239 | the band follows the score and the badge the level; the list panels agree with the written ones where those can be drawn, and show `NONE_DETECTED` for a missing list |
| `Analyzer.ResultPanelOfRecord` | pages/Analyzer.tsx:158-239 | a declared record is drawn with its score's band, the badge for its level, and empty panels exactly for its empty lists |
| `Text.Or` | pages/Analyzer.tsx:279-280 | JavaScript `\|\|` on optional strings: the first when it is non-empty, else the second; the result is non-empty exactly when one of them is |
| `Text.OrElse` | geminiService.ts:62 | `\|\|` with a string fallback: the optional string when it is non-empty, else the fallback |
| `Analyzer.LinkOf` | pages/Analyzer.tsx:278-281 | a link exactly when the web or maps URL is non-empty; the web URL first; the web title, else the maps title, else `Verification Link` |
| `Analyzer.SourceLinks` | pages/Analyzer.tsx:277-281 | at most one link per source, each with a URL and a title |
| `Analyzer.SourceLinksConcat` | pages/Analyzer.tsx:277 | links are drawn source by source, in order |
| `Analyzer.SourceLinksAllDrawn` | pages/Analyzer.tsx:277-281 | when every source has a URL, each source gets its own link, in order |
| `Analyzer.SourceLinksNoneDrawn` | pages/Analyzer.tsx:281 | sources without a URL draw no link |
| `Analyzer.RequestFor` | pages/Analyzer.tsx:41-46 | the intelligence tab searches for the input; every other tab analyses it as that tab's kind |
| `Analyzer.RequestKindsDiffer` | pages/Analyzer.tsx:45 | the analysis tabs make different requests |
| `Analyzer.ErrorMessage` | pages/Analyzer.tsx:49 | the error's message when it is non-empty, else `Intelligence Link Failed.` |
| `Analyzer.AnalysisErrorMessage` | pages/Analyzer.tsx:49 | a failed analysis shows `Intelligence core offline.` once the client is built, so the fallback is never reached from it; a client that cannot be built shows its own error's message |
| `Analyzer.SearchErrorMessage` | pages/Analyzer.tsx:49 | a search fails only when its client cannot be built, and then shows that error's message |
| `Analyzer.AnalyzerPage.constructor` | pages/Analyzer.tsx:24-30 | the page starts on the URL tab, idle, with no input, result or error |
| `Analyzer.AnalyzerPage.SelectTab` | pages/Analyzer.tsx:84-89 | a tab switch clears both results and the input, and keeps the error |
| `Analyzer.AnalyzerPage.SetInput` | pages/Analyzer.tsx:109 | typing replaces the input and nothing else |
| `Analyzer.AnalyzerPage.Start` | pages/Analyzer.tsx:32-46 | a blank input does nothing; otherwise both results and the error are cleared, the page is busy, and the active tab's request is made |
| `Analyzer.AnalyzerPage.FinishAnalysis` | pages/Analyzer.tsx:45-51 | the analysis becomes the result, or its message becomes the error; the page is no longer busy |
| `Analyzer.AnalyzerPage.FinishSearch` | pages/Analyzer.tsx:42-51 | a settled search is shown as the search result with no error; a rejected one shows no result and its message as the error; the page is no longer busy |
| `Analyzer.AnalyzerPage.Analyze` | pages/Analyzer.tsx:32-53 | the whole handler: no-op on blank input; a client that cannot be built shows its error and no result on any tab; otherwise the intelligence tab shows the search result, and other tabs show the analysis or `Intelligence core offline.`; never busy afterwards |
| `Text.Trim` | pages/VideoLab.tsx:38 | the result has no surrounding white space, and is cut from the input with only blanks around it |
| `Text.TrimEmptyIffBlank` | components/ChatBot.tsx:48 | trimming gives the empty string exactly for a blank string |
| `Text.Contains` | pages/Analyzer.tsx:235 | `includes`: true exactly when the pattern occurs |
| `Text.UpperSearchIgnoresCase` | pages/VideoLab.tsx:89-91 | searching the upper-cased string for an upper-case word is searching while ignoring case |
| `Text.LowerSearchIgnoresCase` | pages/Analyzer.tsx:235 | searching the lower-cased string for a lower-case word is searching while ignoring case |
| `Text.SplitJoin` | components/ChatBot.tsx:105 | splitting on a separator and joining with it gives back the text |
| `Text.RemoveBrackets` | components/ChatBot.tsx:111 | every `[` and `]` is removed and every other character kept |
| `Text.RemoveBracketsIdentity` | components/ChatBot.tsx:111 | removing brackets leaves a bracket-free text as it is |

## Left out

- White space and case are ASCII only. `.trim()`, `\s`, `toUpperCase` and `toLowerCase` are modelled on ASCII. Non-ASCII white space and case mapping are not modelled.
- JavaScript numbers are modelled as `real`. NaN and other float behaviour are not modelled, nor are the gauge's stroke arithmetic and animations.
- The provider is not modelled: the network, models, streaming transport, retries and timing. Each call takes its settled outcome as a parameter. Building the client (a missing or bad API key) is a parameter `Setup` of each service call: ready, or an error with its message.
- ChatBot.ChatWindow.Toggle: a throw from building the chat client inside the opening effect (geminiService.ts:87, ChatBot.tsx:34-38) is not modelled; opening always gives a session.
- `JSON.parse` is a parameter that yields a decoded object or a throw. A reply that parses to something other than an object (`null`, a number, a string, an array) is not modelled. With `null` the page would set no result and show no error.
- Prompt wording is not modelled. The threat instruction is reduced to its structure: the content kind, the layers, the URL checks and the returned fields. The fields' descriptions are not modelled either, among them the homograph and typosquatting examples of the indicators field (geminiService.ts:32), which are asked for whatever the content kind. The video instruction is reduced to the tag layout it asks for. The chat instruction's opening and the block bodies are parameters.
- Async interleaving is not modelled. The chat's running text (`fullText`) is a field of the window, and chunks arrive one call at a time. A second send while streaming is ruled out by the loading guard. Updates that land after the window closes are not modelled.
- On the chat, a chunk only rewrites the last message when it is the assistant's (ChatBot.tsx:69). In the model the last message is always the placeholder while loading, so that check always passes.
- The quick-action buttons (ChatBot.tsx:93-101) call the send handler with fixed text. They are covered by `Send` with a custom message, and their labels are not modelled.
- The video page's file picking, reading and `FileReader` (VideoLab.tsx:50-84) are left out as file ingestion. So is the page's handling of a rejected video analysis, which is never caught. Only line 72 is modelled, by `VideoLab.ReportOf`.
- `VideoLab.Extract` is a direct model of one regular expression, not a general regular-expression engine. `VideoLab.RegexAgrees` ties it to the step-by-step reading of that expression. A stray `[` inside a value ends the value there.
- The analyzer's `error` state is set but never drawn on the page. The model keeps it as state.
- The disabled state of the buttons (Analyzer.tsx:122, ChatBot.tsx:211) is not modelled. The handlers' own guards are.
- Static pages, the App shell, navigation, scrolling, `Math.random` and styling classes other than the band, badge and highlight choices are not modelled.

## Findings

| source | as written | input that shows it | evidently intended | confidence | as-written member | corrected member |
|---|---|---|---|---|---|---|
| pages/Analyzer.tsx:212 and :223 | The list panels draw the items with a guard (`?.map`) but test emptiness with an unguarded `.length`. The service hands on any parsed object unchecked, and the schema does not require the two lists. | An empty reply, which is read as `{}`, or any reply meeting the schema but without `linguisticManipulation`. Reading `.length` then throws while the result is drawn. | a missing list is shown as `NONE_DETECTED`, as the indicators panel does for its list at line 239 | not executed | `Analyzer.ListPanel`, with `Analyzer.EmptyReplyBreaksListPanels` and `GeminiService.RequiredLeavesListsOptional` | `Analyzer.GuardedListPanel`, with `Analyzer.GuardedListPanelAgrees`, used by `Analyzer.ResultPanel` |
