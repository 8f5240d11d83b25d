# DocFlow core, modelled in Dafny

DocFlow is a documentation study tool. A user uploads a document or points the crawler at a
documentation site. The application builds an outline of sections, shows it with a collapsible
table of contents and a line search, and generates quizzes, flowcharts and runnable code from it.
This project models the logic behind those features and proves what it promises:

- `section_extractor.dfy` (module `DocumentProcessing`): the upload checks, the Markdown
  section extractor (the `forEach` over lines) and the nesting of level-2 sections under level-1
  sections (`findIndex` + `filter`).
- `table_of_contents.dfy` (module `TableOfContents`): the anchor slug, the expansion set, and
  which children are shown.
- `documentation_page.dfy` (module `DocumentationPage`): the line search and the heading ids.
- `quiz_service.dfy` (module `QuizService`): fence stripping and the structural validation of a
  generated quiz.
- `quiz_component.dfy` (module `QuizComponent`): the quiz screen's state as a class, covering
  answers, score, advancing and option colouring.
- `flowchart.dfy` (module `Flowchart`): splitting the documentation into sections at headings,
  the overview graph, and label truncation.
- `crawler.dfy` (module `Crawler`) and `url_input.dfy` (module `UrlInput`): the two sitemap
  address rules, crawl aggregation, and the address form as a class.
- `code_execution.dfy` (module `CodeExecution`): the language list, boilerplate wrapping and the
  mapping of execution results.
- `code_assist.dfy` (module `CodeAssist`) and `ai_assist.dfy` (module `AiAssist`): parsing the
  streamed reply (a method with a loop), the instruction texts and the result shaping.
- `mermaid.dfy` (module `Mermaid`): normalising chart text.

Helper modules:

- `Wrappers`: `Option`, `Result`.
- `Text`: the JavaScript string operations used. These are `trim` with its white-space set,
  ASCII `toLowerCase`, `split`, `join`, `includes`, `startsWith` and `endsWith`.
- `JsValue`: decoded JSON values, JavaScript truthiness, property access (including the
  `TypeError` on `null`) and string conversion.

The parts the code cannot see are parameters of the operations that use them: the network, the
Worqhat API, `JSON.parse` and the `URL` constructor. A property that holds "before any request
is made" is therefore stated as independence from that parameter.

Where the code differs from what a first reading suggests, the model follows the code:

- The anchor slug keeps a leading or trailing hyphen ("Getting Started!" gives
  "getting-started-").
- Section titles are not trimmed, and a heading's title stops at the first line terminator.
- A section followed by another heading is kept even when its body is empty, but the last
  section is kept only when its trimmed body is not empty.
- Level-2 sections before the first level-1 section are dropped from the outline.
- The address form's `getSitemapUrl` appends `/sitemap.xml` even to an address that already ends
  with it. The crawler service's own rule leaves such an address alone.
- The table of contents renders an empty list for an empty `sections` array. Only a missing
  documentation or a missing `sections` renders nothing.

## Model

| member | source | states |
|---|---|---|
| DocumentProcessing.HeadingShape | application/src/services/worqhatService.js:151-152 | a heading line is level 1 or 2 and has a non-empty title |
| DocumentProcessing.HeadingRecognition | application/src/services/worqhatService.js:151-152 | a line is level 1 exactly when it starts with `# ` and a non-terminator character, level 2 exactly when it starts with `## ` and one; `###` lines are body text |
| DocumentProcessing.TitlesAreNotTrimmed | application/src/services/worqhatService.js:162-167 | the title keeps the spaces after the marker; `# ` alone is no heading |
| DocumentProcessing.TitleStopsAtLineTerminator | application/src/services/worqhatService.js:151-152 | `.` in the heading pattern stops the title at a carriage return |
| DocumentProcessing.SegmentsWellFormed | application/src/services/worqhatService.js:147-171 | every segment is a heading line followed by non-heading lines; there are none exactly when the document has no heading |
| DocumentProcessing.SegmentsPartition | application/src/services/worqhatService.js:147-171 | the lines are the heading-free preamble followed by the segments, with nothing lost or reordered |
| DocumentProcessing.SegmentsUnique | application/src/services/worqhatService.js:147-171 | any preamble and well-formed segments that reassemble the lines are the segments computed |
| DocumentProcessing.ExtractFlatSections | application/src/services/worqhatService.js:141-178 | the line loop with its accumulator yields exactly the specified flat section list |
| DocumentProcessing.FlatSectionsShape | application/src/services/worqhatService.js:155-178 | every section has level 1 or 2, an empty subsection list, and a trimmed body |
| DocumentProcessing.FlatSectionsBySegment | application/src/services/worqhatService.js:155-178 | each segment gives one section in order, and the last is dropped exactly when its trimmed body is empty |
| DocumentProcessing.PreambleIsDiscarded | application/src/services/worqhatService.js:148-171 | lines before the first heading do not change the result |
| DocumentProcessing.SegmentsFollowHeadings | application/src/services/worqhatService.js:150-167 | segments open at the heading lines, one per heading, in document order |
| DocumentProcessing.FlatSectionsInDocumentOrder | application/src/services/worqhatService.js:150-178 | section titles follow the document's headings in order |
| DocumentProcessing.NoHeadingsNoSections | application/src/services/worqhatService.js:141-178 | a document without headings has no sections |
| DocumentProcessing.NextMainFrom | application/src/services/worqhatService.js:188 | the index found is the first level-1 section after the start, or the end |
| DocumentProcessing.FindNextMain | application/src/services/worqhatService.js:188 | `findIndex` returns -1 exactly when no later level-1 section exists, and that section's index otherwise |
| DocumentProcessing.Organize | application/src/services/worqhatService.js:180-191 | the nesting loop yields exactly the specified hierarchy |
| DocumentProcessing.HierarchyPartition | application/src/services/worqhatService.js:180-191 | flattening the outline gives back the flat list from the first level-1 section on |
| DocumentProcessing.HierarchyMains | application/src/services/worqhatService.js:181-182 | the outline's entries are exactly the level-1 sections in order |
| DocumentProcessing.HierarchySubsections | application/src/services/worqhatService.js:181-191 | the k-th entry is the k-th level-1 section of the flat list, holding exactly the sections between it and the next level-1 section, which are level 2 and have no subsections |
| DocumentProcessing.MainPositions | application/src/services/worqhatService.js:181 | the positions listed hold level-1 sections |
| DocumentProcessing.MainsAreBetween | application/src/services/worqhatService.js:181-191 | each entry of the nesting is the level-1 section at the matching position with the sections up to the next level-1 section attached |
| DocumentProcessing.ExampleSegments | application/src/services/worqhatService.js:147-171 | a worked document splits into the expected segments |
| DocumentProcessing.ExampleHierarchy | application/src/services/worqhatService.js:180-191 | a level-2 section nests under the level-1 section before it |
| DocumentProcessing.ExampleOrphanDropped | application/src/services/worqhatService.js:180-191 | a level-2 section before any level-1 section is dropped |
| DocumentProcessing.BuildDocumentation | application/src/services/worqhatService.js:141-196 | the returned documentation keeps the content and holds the hierarchy of its lines' sections |
| DocumentProcessing.OutlineOfContent | application/src/services/worqhatService.js:141-196 | the outline of a content is the level-1 sections of its lines, each with its level-2 sections |
| DocumentProcessing.UploadError | application/src/services/worqhatService.js:44-62 | an upload passes exactly when it is a file, the key is set, the size is at most 10 MiB and the type is allowed; otherwise the first failed check gives its message |
| DocumentProcessing.ProcessDocument | application/src/services/worqhatService.js:42-202 | a refused upload fails with the check's message, a refused request with its status; otherwise the result is what `DocumentOfReply` makes of the decoded reply, and every success carries the hierarchy of the returned text |
| DocumentProcessing.DocumentOfReply | application/src/services/worqhatService.js:135-197 | an undecodable reply fails with the decoding error; every success comes from an object whose `content` is that non-empty text, with the hierarchy of its lines |
| DocumentProcessing.InvalidReplyIff | application/src/services/worqhatService.js:136-139 | a falsy reply or a falsy `content`, and nothing else, fails as 'Invalid response from API' |
| DocumentProcessing.ContentNotText | application/src/services/worqhatService.js:142-147 | a truthy `content` that is not text fails with the TypeError of `content.split` |
| DocumentProcessing.TextContentBuilt | application/src/services/worqhatService.js:142-197 | a non-empty text `content` succeeds with that text and the hierarchy of its lines |
| DocumentProcessing.RejectedBeforeRequest | application/src/services/worqhatService.js:52-62 | an oversized or wrongly typed file is refused before any request |
| TableOfContents.SlugShape | application/src/components/TableOfContents.jsx:19 | a slug holds only `[a-z0-9-]` and never two adjacent hyphens |
| TableOfContents.SlugKeepsAlnums | application/src/components/TableOfContents.jsx:19 | a slug keeps every letter and digit of the lower-cased title, in order |
| TableOfContents.SlugIdempotent | application/src/components/TableOfContents.jsx:19 | slugging a slug changes nothing |
| TableOfContents.SlugKeepsTrailingHyphen | application/src/components/TableOfContents.jsx:19 | trailing punctuation becomes one trailing hyphen |
| TableOfContents.SlugKeepsLeadingHyphen | application/src/components/TableOfContents.jsx:19 | leading punctuation becomes one leading hyphen |
| TableOfContents.ToggleFlipsOnlyTitle | application/src/components/TableOfContents.jsx:8-16 | toggling flips the membership of the given title and of no other |
| TableOfContents.ToggleTwice | application/src/components/TableOfContents.jsx:8-16 | toggling a title twice restores the set |
| TableOfContents.ExpansionState.ToggleSection | application/src/components/TableOfContents.jsx:8-16 | the stored set becomes the toggled set |
| TableOfContents.RenderAllShape | application/src/components/TableOfContents.jsx:85 | one link per section, in order, at the given level |
| TableOfContents.ChildrenRule | application/src/components/TableOfContents.jsx:20-21 | children are shown exactly when there are subsections and the title is expanded, and then at the next level |
| TableOfContents.SameTitleSameExpansion | application/src/components/TableOfContents.jsx:21 | sections with equal titles share their expansion state |
| TableOfContents.RenderToc | application/src/components/TableOfContents.jsx:79-88 | nothing is rendered exactly when there is no documentation, and otherwise one link per section |
| DocumentationPage.FilterLines | application/src/pages/Documentation.jsx:42-44 | the kept lines all match the query and are no more than the input |
| DocumentationPage.FilterMembership | application/src/pages/Documentation.jsx:42-44 | a line is kept exactly when it is an input line that matches |
| DocumentationPage.FilterAppend | application/src/pages/Documentation.jsx:42-44 | filtering distributes over concatenation, so order is preserved |
| DocumentationPage.FilterIsSubsequence | application/src/pages/Documentation.jsx:42-44 | the result is a subsequence of the input lines |
| DocumentationPage.FilterKeepsMatches | application/src/pages/Documentation.jsx:42-44 | when every line matches, all lines are kept |
| DocumentationPage.EmptyQueryShowsAll | application/src/pages/Documentation.jsx:46-48 | an empty query shows the whole content, or nothing without content |
| DocumentationPage.SearchResultLines | application/src/pages/Documentation.jsx:39-50 | the result's lines are exactly the matching lines |
| DocumentationPage.SearchLinesComeFromContent | application/src/pages/Documentation.jsx:39-50 | every result line is an unchanged, matching content line |
| DocumentationPage.SearchIdempotent | application/src/pages/Documentation.jsx:39-50 | searching the result again with the same query changes nothing |
| DocumentationPage.HeadingId | application/src/pages/Documentation.jsx:202-213 | heading ids are slug-shaped |
| DocumentationPage.TocLinksReachHeadings | application/src/pages/Documentation.jsx:203 | a table-of-contents link targets the id of the heading with the same title |
| QuizService.RemoveMarker | application/src/services/quizService.js:43-44 | removing a marker never lengthens the text |
| QuizService.NoFenceLeft | application/src/services/quizService.js:43-44 | after removing every fence with its optional newline, no fence is left |
| QuizService.CleanRemovesFences | application/src/services/quizService.js:43-45 | cleaned quiz content contains no code fence |
| QuizService.CleanPlainText | application/src/services/quizService.js:43-45 | text without fences is only trimmed |
| QuizService.QuestionErrorSpec | application/src/services/quizService.js:60-72 | a question passes exactly when its fields are truthy, it has four options and the answer is among them |
| QuizService.QuestionErrorNamesPosition | application/src/services/quizService.js:61-71 | a question's error names its one-based position |
| QuizService.FirstErrorSpec | application/src/services/quizService.js:60-72 | there is no error exactly when every question passes, and an error is the first failing question's |
| QuizService.CheckQuestions | application/src/services/quizService.js:60-72 | the check loop reports the first failing question's error |
| QuizService.GenerateQuiz | application/src/services/quizService.js:36-79 | the service returns the specified outcome for the reply |
| QuizService.AcceptedQuizzes | application/src/services/quizService.js:48-74 | an accepted quiz is the decoded array unchanged, with the requested count and every question passing |
| QuizService.CountCheckedFirst | application/src/services/quizService.js:55-57 | a wrong count is reported before any question is checked |
| QuizService.FirstFailureDecides | application/src/services/quizService.js:60-72 | the first failing question decides the error |
| QuizService.FirstErrorAt | application/src/services/quizService.js:60-72 | the first failing question from a position decides the error from there |
| QuizService.ErrorsArePrefixed | application/src/services/quizService.js:75-79 | every parsing or validation error carries the 'Failed to parse quiz data: ' prefix |
| QuizComponent.CorrectCountBounds | application/src/components/QuizComponent.jsx:71-73 | the number answered correctly is at most the number asked, all exactly when every answer is right, none exactly when none is |
| QuizComponent.CorrectCountIgnoresLater | application/src/components/QuizComponent.jsx:63-68 | answering a later question does not change the count for earlier ones |
| QuizComponent.QuizSession.ResetQuiz | application/src/components/QuizComponent.jsx:19-29 | every field returns to its initial value |
| QuizComponent.QuizSession.StartQuiz | application/src/components/QuizComponent.jsx:86-105 | a generated quiz is shown with no error; a failure hides the quiz and shows the prefixed message |
| QuizComponent.QuizSession.HandleAnswerSelect | application/src/components/QuizComponent.jsx:63-68 | only the current question's answer changes |
| QuizComponent.QuizSession.HandleNextQuestion | application/src/components/QuizComponent.jsx:70-80 | the score grows by one exactly for a right answer; the index advances except on the last question, which shows results with the score equal to the number answered correctly |
| QuizComponent.QuizSession.ScoreBounded | application/src/components/QuizComponent.jsx:70-80 | the score never exceeds the number of questions |
| QuizComponent.QuizSession.OptionClassName | application/src/components/QuizComponent.jsx:107-120 | before results no colour; afterwards green exactly for the correct option, red exactly for a chosen wrong one, neutral exactly for every other option |
| QuizComponent.QuizSession.OneWrongChoice | application/src/components/QuizComponent.jsx:107-120 | at most one option of a question is marked red |
| Flowchart.HashRunSpec | application/src/components/FlowchartExplanation.jsx:17 | the heading marker run is all `#` |
| Flowchart.SpaceRunSpec | application/src/components/FlowchartExplanation.jsx:17 | the space run after the marker is all white space |
| Flowchart.CutFrom | application/src/components/FlowchartExplanation.jsx:17 | splitting gives one more piece than markers |
| Flowchart.CutReassembles | application/src/components/FlowchartExplanation.jsx:17 | pieces interleaved with the markers give back the text |
| Flowchart.CutMarkersAreMarkers | application/src/components/FlowchartExplanation.jsx:17 | every separator removed is one to three `#` followed by white space |
| Flowchart.MarkerShape | application/src/components/FlowchartExplanation.jsx:17 | a matched marker is one to three `#` followed by white space only |
| Flowchart.NextMarker | application/src/components/FlowchartExplanation.jsx:17 | the first position from a start where a line-start marker matches, with no match before it |
| Flowchart.CutAtFirstMarker | application/src/components/FlowchartExplanation.jsx:17 | the split cuts at the first line-start run of one to three `#` followed by white space and nowhere before it; the first piece is the text up to there, and the rest is the split of what follows the marker |
| Flowchart.NoMarkerOnePiece | application/src/components/FlowchartExplanation.jsx:17 | text without a marker is one piece |
| Flowchart.PiecesPartition | application/src/components/FlowchartExplanation.jsx:17 | the whole text is partitioned into pieces and markers |
| Flowchart.SectionOfPieceShape | application/src/components/FlowchartExplanation.jsx:19-21 | a section's title and content are trimmed and the title holds no newline |
| Flowchart.ExtractSectionsShape | application/src/components/FlowchartExplanation.jsx:15-24 | section k is the shaping of the k-th non-empty piece, one per piece; each is trimmed with a one-line title |
| Flowchart.SectionOfOneLine | application/src/components/FlowchartExplanation.jsx:19-22 | a piece that is one line once trimmed is all title, with empty content |
| Flowchart.SectionOfLines | application/src/components/FlowchartExplanation.jsx:19-22 | the title is the trimmed text before the first newline of the trimmed piece, the content the trimmed text after it |
| Flowchart.LeadingTextIsFirstSection | application/src/components/FlowchartExplanation.jsx:15-24 | non-empty text before the first heading marker is the first section |
| Flowchart.PlainTextOneSection | application/src/components/FlowchartExplanation.jsx:15-24 | text without headings is one section |
| Flowchart.MainFlowchart | application/src/components/FlowchartExplanation.jsx:26-69 | the graph fails exactly when there are no sections |
| Flowchart.SectionIdsDistinct | application/src/components/FlowchartExplanation.jsx:46 | section node ids are distinct for distinct sections |
| Flowchart.MainFlowchartShape | application/src/components/FlowchartExplanation.jsx:40-59 | the graph has the main node, one node per section, and one edge from the main node to each |
| Flowchart.MainFlowchartIdsDistinct | application/src/components/FlowchartExplanation.jsx:40-54 | all node ids in the graph are distinct |
| Flowchart.TruncateLabel | application/src/components/FlowchartExplanation.jsx:334-338 | a label is at most 40 characters; a short one is kept, a long one is its first 37 characters and `...` |
| Flowchart.CleanLabels | application/src/components/FlowchartExplanation.jsx:334-338 | each node keeps its id and gets its label truncated |
| Flowchart.CleanLabelsIdempotent | application/src/components/FlowchartExplanation.jsx:334-338 | truncating labels twice is truncating once |
| Crawler.DropTrailingSlash | application/src/services/crawlerService.js:8 | exactly one trailing slash is removed, and only when present |
| Crawler.AppendedNamesSitemap | application/src/services/crawlerService.js:6-8 | an address with `/sitemap.xml` appended names a sitemap |
| Crawler.SitemapUrlNamesSitemap | application/src/services/crawlerService.js:6-8 | the derived address always names a sitemap |
| Crawler.SitemapUrlIdempotent | application/src/services/crawlerService.js:6-8 | deriving twice is deriving once |
| Crawler.SitemapUrlAppends | application/src/services/crawlerService.js:6-8 | an address not naming a sitemap gets `/sitemap.xml` after its trailing slash is removed |
| Crawler.ContributionOfFailedPage | application/src/services/crawlerService.js:44-47 | a page that did not succeed contributes nothing |
| Crawler.AggregateAppend | application/src/services/crawlerService.js:43-48 | aggregation distributes over concatenation of page lists |
| Crawler.AggregateBlankIff | application/src/services/crawlerService.js:43-48 | the aggregate is blank exactly when every succeeded page brought only white space |
| Crawler.CrawlOutcome | application/src/services/crawlerService.js:23-63 | a crawl succeeds exactly for an accepted, successful reply whose `data` is an array with a non-blank aggregate; the result is the trimmed aggregate, the requested address and the reply's `memory_stats` |
| Crawler.RefusedCrawlMessage | application/src/services/crawlerService.js:23-26 | a refused request reports a truthy `detail`, else 'Failed to crawl documentation' |
| Crawler.UnsuccessfulCrawlMessage | application/src/services/crawlerService.js:30-32 | an unsuccessful crawl reports a truthy `error_message`, else 'Failed to process documentation' |
| Crawler.MissingPagesFail | application/src/services/crawlerService.js:43 | a missing or `null` `data` fails as reading `reduce` from `undefined` or `null` does |
| Crawler.NoContentIff | application/src/services/crawlerService.js:43-52 | 'No content found' is reported exactly when every succeeded page is blank |
| UrlInput.GetSitemapUrlEnds | application/src/components/UrlInput.jsx:17-21 | the derived address ends with `/sitemap.xml` |
| UrlInput.GetSitemapUrlKeepsAddress | application/src/components/UrlInput.jsx:17-21 | what precedes the suffix is the address less at most one trailing slash |
| UrlInput.SitemapSuffixDoubled | application/src/components/UrlInput.jsx:17-21 | an address already ending in `/sitemap.xml` gets the suffix a second time |
| UrlInput.ServiceKeepsFormAddress | application/src/services/crawlerService.js:6-8 | were the form's derived address handed to the crawler, the crawler's rule would leave it unchanged (the application does not connect the two) |
| UrlInput.UrlForm.HandleUrlChange | application/src/components/UrlInput.jsx:54-58 | the new address is kept and error and status are cleared |
| UrlInput.UrlForm.HandleSubmit | application/src/components/UrlInput.jsx:23-52 | empty address refused first, then an invalid one, neither submitting; otherwise the derived address is submitted with the starting status, and a thrown error is shown with the status cleared |
| CodeExecution.KeysAreTableDomain | application/src/services/codeExecutionService.js:6-18 | the ordered key list holds exactly the version table's languages |
| CodeExecution.Capitalize | application/src/services/codeExecutionService.js:44 | the name is the id with its first letter upper-cased |
| CodeExecution.Entries | application/src/services/codeExecutionService.js:42-46 | one entry per id, in order, with capitalised name and the table's version |
| CodeExecution.KnownRuntimesMembership | application/src/services/codeExecutionService.js:24-25 | a runtime is kept exactly when the service lists it and the table knows it |
| CodeExecution.FallbackList | application/src/services/codeExecutionService.js:40-46 | without the service, one entry per table key in order |
| CodeExecution.ServiceList | application/src/services/codeExecutionService.js:22-38 | with the service, known runtimes with the table's versions, then MySQL |
| CodeExecution.HeadsCarryMarkers | application/src/services/codeExecutionService.js:93-125 | each wrapper contains the marker its guard looks for |
| CodeExecution.BoilerplateWhen | application/src/services/codeExecutionService.js:91-133 | code is wrapped exactly for java without `class Main`, and for cpp or c without `#include` |
| CodeExecution.BoilerplateKeepsCode | application/src/services/codeExecutionService.js:91-133 | the wrapped text contains the code |
| CodeExecution.BoilerplateIdempotent | application/src/services/codeExecutionService.js:91-133 | wrapping wrapped code changes nothing |
| CodeExecution.RequestFor | application/src/services/codeExecutionService.js:61-69 | the request names the language, carries the code, and has a version exactly for a table language |
| CodeExecution.ExecuteCode | application/src/services/codeExecutionService.js:50-89 | mysql gives the preview; a throw gives `response.data.message` or the fallback message; a reply without a `run` object gives the fallback message; any output or error shown is truthy |
| CodeExecution.MySqlMakesNoRequest | application/src/services/codeExecutionService.js:53-58 | the mysql result does not depend on the execution service |
| CodeExecution.ExecuteCodeReply | application/src/services/codeExecutionService.js:71-81 | stderr wins over stdout, and an empty run shows the no-output message |
| CodeAssist.NonEmpty | application/src/services/codeAssistService.js:21 | no kept line is empty |
| CodeAssist.ChunkMembership | application/src/services/codeAssistService.js:21 | a line is a chunk exactly when it is a non-empty line of the reply |
| CodeAssist.NonEmptyAppend | application/src/services/codeAssistService.js:21 | dropping empty lines distributes over concatenation |
| CodeAssist.ParseStreamedResponse | application/src/services/codeAssistService.js:20-37 | the chunk loop accumulates exactly the specified stream content |
| CodeAssist.StreamAppend | application/src/services/codeAssistService.js:20-37 | the content of two chunk runs is the concatenation of their contents |
| CodeAssist.UndecodableChunkSkipped | application/src/services/codeAssistService.js:25-33 | a chunk that fails to decode contributes nothing |
| CodeAssist.ContentChunk | application/src/services/codeAssistService.js:26-30 | a chunk whose decoded `content` is a string contributes that string |
| CodeAssist.StripOnce | application/src/services/codeAssistService.js:26 | one `data: ` prefix is removed |
| CodeAssist.StripNothing | application/src/services/codeAssistService.js:26 | a chunk without the prefix is kept |
| CodeAssist.ThrownMessage | application/src/services/codeAssistService.js:79-85 | the response message, else the error message, else the fallback |
| CodeAssist.GetCodeAssistance | application/src/services/codeAssistService.js:39-86 | status 200 exactly gives assistance; other statuses give 'Failed to get assistance'; a throw gives its response message, else its message, else that text; tips always truthy |
| CodeAssist.RawContentExplains | application/src/services/codeAssistService.js:54-62 | undecodable content becomes the explanation |
| CodeAssist.DecodedAssistance | application/src/services/codeAssistService.js:63-72 | decoded truthy fields are kept, others take their defaults |
| CodeAssist.DebugCode | application/src/services/codeAssistService.js:88-135 | status 200 exactly gives a debugging result; other statuses give 'Failed to debug code'; a throw gives its response message, else its message, else that text |
| CodeAssist.RawContentExplainsError | application/src/services/codeAssistService.js:103-112 | undecodable content becomes the error explanation |
| CodeAssist.DecodedDebugging | application/src/services/codeAssistService.js:104-112 | decoded content keeps its truthy `errorExplanation`, `solution` and `fixedCode`; absent or falsy ones become `''`, `''` and `null` |
| AiAssist.SystemMessagesNameLanguage | application/src/services/aiAssistService.js:41-46 | generic instructions name the language right after the opening |
| AiAssist.GenericMessagesDistinguishLanguages | application/src/services/aiAssistService.js:41-46 | equal generic instructions mean equal languages |
| AiAssist.GenerateQuestionCarriesDocumentation | application/src/services/aiAssistService.js:49 | the question contains the whole documentation |
| AiAssist.ImproveQuestionCarriesCodeAndError | application/src/services/aiAssistService.js:90 | the question contains the whole code and error |
| AiAssist.ShapeCode | application/src/services/aiAssistService.js:59-77 | code exactly at status 200, trimmed; other statuses give the status message; a throw gives its response message, else its message, else the fallback |
| AiAssist.GenerateCodeImplementation | application/src/services/aiAssistService.js:39-78 | the failure messages of generating, a throw's message in the order response message, message, fallback, and trimmed code |
| AiAssist.ImproveCode | application/src/services/aiAssistService.js:80-119 | the failure message of improving, a throw's message in the order response message, message, fallback, and trimmed code |
| AiAssist.CodeIsTrimmedStream | application/src/services/aiAssistService.js:59-64 | status 200 gives the trimmed stream content |
| Mermaid.ProcessChart | application/src/components/Mermaid.jsx:21-36 | nothing for an empty chart; otherwise text starting with `graph TD` |
| Mermaid.HeaderNotDuplicated | application/src/components/Mermaid.jsx:34-36 | the header is added exactly when the cleaned chart lacks it |
| Mermaid.OpeningFenceWithNewline | application/src/components/Mermaid.jsx:29 | the opening fence goes with its newline |
| Mermaid.OpeningFenceAlone | application/src/components/Mermaid.jsx:29 | without a newline only the fence goes |
| Mermaid.OpeningFenceOnlyAtStart | application/src/components/Mermaid.jsx:29 | a fence not at the start stays |
| Mermaid.ClosingFenceOnce | application/src/components/Mermaid.jsx:30 | exactly one closing fence at the end is removed |
| Mermaid.ClosingFenceOnlyAtEnd | application/src/components/Mermaid.jsx:30 | a fence not at the end stays |

## Left out

- The network, the Worqhat API, `fetch`, `FormData`, `JSON.parse` and the `URL` constructor are
  parameters. Their behaviour is not modelled.
- React rendering, state batching, `useEffect`, scrolling, `console` logging, and status
  callbacks other than the form's starting status are not modelled.
- Case mapping is ASCII only. Lengths are counted in characters, not UTF-16 code units.
- The crawl time stamp and the memory-usage status message are not modelled.
- `loadQuiz` and `handleStudyConcept` in the quiz screen make AI requests and set loading flags;
  they are not modelled. `handleRetry` is `ResetQuiz`.
- The prompt texts sent by the quiz service, the Worqhat document request and the code
  assistant are not modelled. The AI service's instruction and question texts are modelled.
- `getSupportedLanguages` reads the runtime objects' `language` field. The model takes the
  list of names.
- The fallback list names MySQL `Mysql`, by capitalisation, while the service path appends
  `MySQL`. The model keeps both as the code does.
- Execution output and errors are JSON values. Their rendering is not modelled.
- Mermaid's rendering, its `elementRef` guard and its error display are not modelled.
- The Python crawler back end is not part of this model.
- JSON numbers are integers in the model. A fractional number in a reply (`0.5`, `1.5`) is not
  represented. Its truthiness and its text when streamed content is appended (`fullContent +=
  data.content`) are therefore not captured; the `decode` parameter never yields one.
- DocumentationPage.HeadingId: the page gives a rendered heading the slug of its first child
  (`props.children[0]`), not of the section title. The model slugs the title. The two differ when a
  title starts with white space (`#  Intro`: link `-intro`, heading `intro`) or holds inline markup
  (`` # Using `npm` ``: link `using-npm-`, heading `using-`). In those cases a table-of-contents link
  can miss its heading, and the model does not show this.
- DocumentationPage.TocLinksReachHeadings: proved against the slug of the section title, so it does
  not cover the cases just described.
- QuizComponent: options and answers are strings, compared as the screen's `===` compares two
  strings. Options or answers of other JSON types are not represented. `StartQuiz` takes the
  validated questions as a sequence of records, not the decoded JSON array.
- Flowchart.CleanLabels: a node is a fixed record whose label is always a string. A generated node
  without a `label` makes `node.label.length` throw, and the source then reports 'Failed to parse
  Worqhat response'. The model does not have that path.
