# VidGraph core in Dafny

VidGraph turns a YouTube lecture into a study kit: a transcript, a knowledge
graph of concepts, and a PDF study guide with a quiz. This project models the
pure text logic at the centre of that pipeline and proves what it does:

- **Extractor** (`src/extractor.py`): `get_video_id` runs a regex search for
  `(?:v=|\/)([0-9A-Za-z_-]{11}).*`. It is modelled as an explicit
  left-to-right scan: at each position, check for `v=` or `/`, then for eleven
  id characters. The first position that matches gives the id, otherwise the
  result is `None`. `get_transcript` joins the fetched segment texts with one
  space and turns any exception into `"Error: " + message`. The fetch itself is
  a parameter.
- **Latin1** (`src/pdf_generator.py`): the sanitiser
  `s.encode('latin-1', 'replace').decode('latin-1')`. Every character above
  code point 255 becomes `?`.
- **PdfGenerator** (`src/pdf_generator.py`): `create_pdf` as the sequence of
  text lines it writes, each tagged with the call that writes it. The lines are
  the page headers, section titles, summary, one line per concept node, the
  numbered questions with their options, and the numbered answer key. The
  document is then read back by call kind, and the lemmas state what each
  reader sees.
- **GraphBuilder** (`src/graph_builder.py`): the styling of nodes and edges for
  the graph widget, and the insertion of the fullscreen block before every
  `</body>`. When rendering raises, the result is an inline error `<div>`.
  The widget's rendering is a parameter.
- Supporting modules:
  - **Strings** models Python's `sep.join`.
  - **Replace** models `str.replace` as a scan that cuts the text at each
    occurrence.
  - **Decimal** models `str(n)` for the `Q{i+1}` labels.
  - **Knowledge** holds the graph and quiz records.
  - **Wrappers** holds `Option` and `Result`.

The code keeps every edge and every quiz item. It has no repair pass for
edges whose endpoints are not nodes, and no filter for malformed quiz items
(`GraphBuilder.StyleEdges`, `PdfGenerator.QuizSection`).

## Model

| member | source | states |
|---|---|---|
| Extractor.PrefixLength | src/extractor.py:6 | the alternation of `v=` and `/` matches a two-character `v=`, a one-character `/`, or nothing at a position, and at most one branch can apply there |
| Extractor.MatchesAt | src/extractor.py:6 | the whole pattern matches at one position: a `v=` or `/` prefix, then eleven id characters; its contract is carried by `Extractor.MatchesAtAgree`, `Extractor.NoPrefixNoMatch`, `Extractor.BrokenRunNoMatch` and the contracts of `Extractor.FirstMatch` and `Extractor.GetVideoId` |
| Extractor.IdAt | src/extractor.py:6-9 | the captured group is exactly eleven characters of `[0-9A-Za-z_-]` |
| Extractor.FirstMatch | src/extractor.py:7 | the search returns a position where the pattern matches and none earlier matches; it returns nothing exactly when no later position matches |
| Extractor.GetVideoId | src/extractor.py:5-10 | a returned id has eleven id characters and is the group of some match; `None` exactly when no position in the URL matches |
| Extractor.VideoIdFollowsPrefix | src/extractor.py:6 | the id is a contiguous slice of the URL directly preceded by `/` or by `v=` |
| Extractor.VideoIdIsLeftmost | src/extractor.py:7-9 | if the pattern matches at `p` and at no earlier position, the result is the id captured at `p` |
| Extractor.MatchesAtAgree | src/extractor.py:6 | whether a position matches, and the id it captures, depend only on the text up to the end of that id |
| Extractor.NoEarlierMatchKept | src/extractor.py:7 | positions before the leftmost match still fail after the text beyond that match is changed |
| Extractor.SameLeftmostMatch | src/extractor.py:7-9 | two URLs that agree up to the end of the first one's leftmost match give the same id |
| Extractor.VideoIdIgnoresRest | src/extractor.py:6 | replacing everything after the captured id by any tail leaves the result unchanged, because the trailing `.*` never decides |
| Extractor.NoPrefixNoMatch | src/extractor.py:6 | a position holding neither `/` nor `v` never starts a match |
| Extractor.BrokenRunNoMatch | src/extractor.py:6 | a `/` followed within eleven characters by a non-id character never starts a match |
| Extractor.LongRunExample | src/extractor.py:6-9 | `/abcdefghijklmnop` yields only the first eleven characters, `abcdefghijk` |
| Extractor.ShortLinkExample | src/extractor.py:6-9 | `https://youtu.be/dQw4w9WgXcQ` yields `dQw4w9WgXcQ`; the slashes of `//` and of `/youtu.be` are rejected |
| Extractor.WatchLinkExample | src/extractor.py:6-9 | `https://www.youtube.com/watch?v=dQw4w9WgXcQ` yields `dQw4w9WgXcQ`, found through `v=` |
| Extractor.HostNameExample | src/extractor.py:6-9 | in `//youtube-nocookie.com/embed/dQw4w9WgXcQ` the host name right after `//` is taken as the id, `youtube-noc` |
| Extractor.Texts | src/extractor.py:20 | the comprehension succeeds exactly when every segment has a text, and then yields the texts in segment order |
| Extractor.GetTranscript | src/extractor.py:12-26 | a fetch failure gives `"Error: "` and its message; a segment without `text` gives `"Error: 'text'"`; otherwise the result is the joined texts |
| Extractor.TranscriptFailureIsMarked | src/extractor.py:24-26 | every failure value starts with `"Error: "` |
| Extractor.TranscriptIsOrderedJoin | src/extractor.py:20-22 | on success the transcript is the segment texts in their original order with exactly one space between neighbours and nothing else |
| Strings.Join | src/extractor.py:20 | `" ".join` of the texts; its contract is carried by `Strings.JoinLength`, `Strings.JoinPiece` and `Strings.JoinLaysOut`: the pieces in order, one separator between neighbours, nothing else |
| Strings.JoinLength | src/extractor.py:20 | a join is as long as its pieces plus one separator per gap |
| Strings.OffsetStep | src/extractor.py:20 | each piece starts one piece and one separator after the previous one |
| Strings.JoinPiece | src/extractor.py:20 | piece `i` appears unchanged at its offset and is followed by exactly the separator when another piece follows |
| Strings.JoinSnoc | src/extractor.py:20 | joining one more piece appends one separator and that piece |
| Strings.JoinLaysOut | src/extractor.py:20 | a join lays out all its pieces in order, separated by the separator, with no other characters |
| Latin1.SanitizeChar | src/pdf_generator.py:18 | a character up to code point 255 passes unchanged; any other becomes `?`; the result is always Latin-1 |
| Latin1.Sanitize | src/pdf_generator.py:18 | the sanitiser keeps the length, maps each character on its own, and yields only Latin-1 characters |
| Latin1.SanitizeKeepsOrReplaces | src/pdf_generator.py:18 | position by position: code points up to 255 are kept, all others become `?` |
| Latin1.SanitizeIdempotent | src/pdf_generator.py:18 | sanitising twice is the same as sanitising once |
| Latin1.SanitizeFixesExactlyLatin1 | src/pdf_generator.py:18 | a string is left unchanged if and only if it is already Latin-1 |
| Latin1.SanitizeConcat | src/pdf_generator.py:35 | sanitising a concatenation sanitises each part, so the fixed prefix of a node line passes through unchanged |
| Latin1.Latin1Concat | src/pdf_generator.py:45 | concatenating Latin-1 strings gives a Latin-1 string |
| Decimal.ToDecimal | src/pdf_generator.py:45 | `str(n)` is a non-empty digit string that starts with `0` only for zero |
| Decimal.ParseToDecimal | src/pdf_generator.py:45 | reading the digits back gives the number |
| Decimal.ToDecimalInjective | src/pdf_generator.py:45 | different numbers are written differently |
| PdfGenerator.QuizLabel | src/pdf_generator.py:45 | the `Q{i+1}: ` label is Latin-1 |
| PdfGenerator.QuizLabelReadsBack | src/pdf_generator.py:45 | a label is `Q`, the digits of `i + 1`, then `: ` |
| PdfGenerator.QuizLabelInjective | src/pdf_generator.py:41-60 | quiz items, and the answers that share their numbering, carry equal labels only when they have the same index |
| PdfGenerator.TitlesAreLatin1 | src/pdf_generator.py:6 | the page header and the four section titles need no sanitising |
| PdfGenerator.PrefixesAreLatin1 | src/pdf_generator.py:34-35 | the `[CORE] `, `- ` and option-indent prefixes need no sanitising |
| PdfGenerator.ConceptLine | src/pdf_generator.py:32-35 | a node line goes through `chapter_body` and reads `[CORE] ` plus the sanitised label for a core node, `- ` plus it otherwise |
| PdfGenerator.ConceptLines | src/pdf_generator.py:32-35 | one node line per node, in node order |
| PdfGenerator.ChoiceText | src/pdf_generator.py:50-51 | an option line is Latin-1 |
| PdfGenerator.ChoiceLines | src/pdf_generator.py:48-51 | one option line per option, in option order |
| PdfGenerator.QuestionText | src/pdf_generator.py:44-45 | a question line is Latin-1 |
| PdfGenerator.AnswerText | src/pdf_generator.py:59-60 | an answer line is Latin-1 |
| PdfGenerator.QuizLines | src/pdf_generator.py:41-52 | the quiz loop writes only question and option lines, starting with the first item's question, and nothing for an empty quiz |
| PdfGenerator.AnswerLines | src/pdf_generator.py:58-60 | one answer line per item, numbered from the same start as the quiz |
| PdfGenerator.QuizLinesLatin1 | src/pdf_generator.py:41-51 | every quiz line is Latin-1 |
| PdfGenerator.CreatePdf | src/pdf_generator.py:22-62 | the lines the study guide is made of; its contract is carried by `PdfGenerator.KeepDocument` and the section lemmas below: headers, titles, summary, node lines, quiz and answer key, each in source order, all Latin-1 |
| PdfGenerator.DocumentIsLatin1 | src/pdf_generator.py:22-62 | every text in the document is Latin-1, so the final `encode('latin-1')` cannot fail on it |
| PdfGenerator.KeepDocument | src/pdf_generator.py:22-62 | the lines of each kind in the document, section by section, in document order |
| PdfGenerator.KeptHeadings | src/pdf_generator.py:27-57 | the title lines are the three chapter titles and then the answer-key heading |
| PdfGenerator.KeptPageHeaders | src/pdf_generator.py:24-38 | the page header appears exactly twice, once for each `add_page` call, on the first page and on the page where the quiz starts |
| PdfGenerator.SectionOrder | src/pdf_generator.py:27-57 | the section titles read `1. Executive Summary`, `2. Key Concepts (Knowledge Graph)`, `3. Practice Quiz`, `--- Answer Key ---`, whatever the input |
| PdfGenerator.KeptBodies | src/pdf_generator.py:28-35 | the body lines are the sanitised summary and then the node lines |
| PdfGenerator.ConceptSection | src/pdf_generator.py:31-35 | after the summary there is exactly one body line per node, in node order, with the `[CORE] ` or `- ` prefix, also for a node without `type` |
| PdfGenerator.KeptAnswers | src/pdf_generator.py:57-60 | the answer lines are exactly the answer-key loop's lines |
| PdfGenerator.AnswerKeySection | src/pdf_generator.py:58-60 | the answer key has one line per item, `Q{i+1}: ` plus the sanitised answer, numbered like the quiz |
| PdfGenerator.ItemView | src/pdf_generator.py:44-51 | item `i` reads as `Q{i+1}: ` plus the sanitised question, with each sanitised option behind the indent, in order |
| PdfGenerator.ItemViews | src/pdf_generator.py:41-51 | one view per quiz item, numbered from the given start |
| PdfGenerator.LeadingChoicesOf | src/pdf_generator.py:48-51 | the option lines that follow a question are exactly that item's options |
| PdfGenerator.ReadQuizStep | src/pdf_generator.py:41-52 | reading the quiz lines yields the first item and then reads on from the next question |
| PdfGenerator.ReadQuizLines | src/pdf_generator.py:41-52 | grouping the quiz loop's lines gives back every item, in order |
| PdfGenerator.KeptQuiz | src/pdf_generator.py:41-51 | the question and option lines of the document are exactly the quiz loop's lines |
| PdfGenerator.QuizSection | src/pdf_generator.py:41-52 | read back from the document, the quiz has one entry per item, in order, each with exactly its own options |
| GraphBuilder.StyleNode | src/graph_builder.py:10-28 | a node is gold and size 25 if and only if its type is `core`, and blue and size 15 otherwise; it is always a dot, keeps its id and label, and is titled with its id |
| GraphBuilder.StyleEdge | src/graph_builder.py:31 | an edge keeps its endpoints, is titled with its label and is grey |
| GraphBuilder.StyleNodes | src/graph_builder.py:10-28 | one styled node per input node, in input order |
| GraphBuilder.StyleEdges | src/graph_builder.py:30-31 | one styled edge per input edge, in input order, with no endpoint check |
| GraphBuilder.BuildNetwork | src/graph_builder.py:10-31 | the network holds exactly the styled nodes and the styled edges, in input order |
| GraphBuilder.StyleNodeKeepsExactly | src/graph_builder.py:12-28 | two nodes get the same record if and only if they agree on id, label and being core |
| GraphBuilder.MissingTypeIsPlain | src/graph_builder.py:12-19 | a node without `type` is styled like a node of any non-core type, blue and size 15 |
| GraphBuilder.InjectFullscreen | src/graph_builder.py:89 | the page grows by the block's length once per `</body>`, and is returned unchanged when there is none |
| GraphBuilder.InjectionSize | src/graph_builder.py:89 | the page grows by exactly one block per replaced `</body>`, and nothing is replaced exactly when the page holds no `</body>` |
| GraphBuilder.InjectionOnlyInserts | src/graph_builder.py:89 | the result is the page's pieces between `</body>` tags, unchanged and in order, joined by the block plus `</body>`; no piece still contains `</body>`, so every tag is replaced; joining the same pieces with `</body>` gives the page back |
| GraphBuilder.VisualizeKnowledgeGraph | src/graph_builder.py:36-94 | a successful rendering gets the fullscreen block injected; a raised exception becomes `<div>Error generating graph: ` plus its message plus `</div>` |
| Replace.ReplaceIsSplitJoin | src/graph_builder.py:89 | replacing is cutting the text at the occurrences and joining with the replacement |
| Replace.ReplaceBySelf | src/graph_builder.py:89 | replacing a pattern by itself changes nothing |
| Replace.SplitJoinRoundTrip | src/graph_builder.py:89 | joining the cut pieces with the pattern gives the text back |
| Replace.SplitCount | src/graph_builder.py:89 | there is one more piece than replaced occurrences |
| Replace.ReplaceLength | src/graph_builder.py:89 | each replaced occurrence changes the length by the replacement's length minus the pattern's |
| Replace.CountZeroIffAbsent | src/graph_builder.py:89 | the scan replaces nothing exactly when the pattern does not occur |
| Replace.ReplaceAbsent | src/graph_builder.py:89 | without an occurrence, replacing returns the text unchanged |
| Replace.ReplaceAll | src/graph_builder.py:89 | `str.replace` as a left-to-right scan; its contract is carried by `Replace.ReplaceIsSplitJoin` with `Replace.SplitPiecesFree`, `Replace.SplitJoinRoundTrip` and `Replace.ReplaceLength`: every occurrence is replaced and the text between occurrences is kept |
| Replace.SplitFirstIsPrefix | src/graph_builder.py:89 | the text before the first replaced occurrence is a prefix of the text |
| Replace.SplitPiecesFree | src/graph_builder.py:89 | no piece between replaced occurrences still contains the pattern: the scan leaves no occurrence unreplaced |

## Left out

- Replace.ReplaceAll: only a non-empty pattern is modelled. Python's empty-pattern behaviour, which inserts at every position, is not modelled, because the only call uses `"</body>"`.
- The YouTube transcript fetch is the parameter `fetch` of `Extractor.GetTranscript`: the entry list it returns, or the message of the exception it raises. The `print` calls are output only.
- `Extractor.GetTranscript` assumes every present `text` is a string. A non-string text makes `" ".join` raise `TypeError`, and that case is not modelled.
- `src/llm_engine.py` is not part of this model. It is a call to an external language-model service, and its only local steps are a truncation and a JSON parse of the service's reply.
- `app.py` is not part of this model: it is Streamlit page layout and session state.
- `fix_conflict.py` and `test_yt.py` are not part of this model: they are diagnostic scripts that touch the filesystem and the network.
- FPDF layout is not modelled: fonts, cell sizes, fill colours, spacing, line wrapping, automatic page breaks and the byte output. FPDF also calls `header` at every automatic page break. The model has header lines only at the two explicit `add_page` calls.
- The pyvis widget is the parameter `render` of `GraphBuilder.VisualizeKnowledgeGraph`. This covers its storage of nodes and edges, including how it treats a repeated node id, its physics settings (`repulsion`, the canvas size and colours) and `generate_html`.
- The `assert` inside pyvis `add_edge`, which fails for an endpoint that is not a node, is not modelled. It belongs to the widget, and it fires outside the `try` block.
- The text of the fullscreen style, button and script is the parameter `code`. Only where it is inserted matters to the model.
- Missing top-level `nodes` or `edges` keys of the graph (read at src/graph_builder.py:10 and src/graph_builder.py:30, before the `try`, and at src/pdf_generator.py:32), and missing `id`, `label`, `source`, `target`, `question`, `options` or `answer` keys are not modelled. In the source they raise `KeyError` outside any handler. In the model all of these fields are always present (`Knowledge.Graph` always has its node and edge lists). Only `type`, which the code reads with `.get`, is optional.
- Labels, questions, options and answers are modelled as strings. Python's `str()` of non-string JSON values in the f-strings is not modelled.
- Lone surrogate code points are not modelled. A Python string can hold one, and the sanitiser would turn it into `?`, but a Dafny `char` cannot hold one.
