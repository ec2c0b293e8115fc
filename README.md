# A Dafny model of Rezu.me's markup conversions

Rezu.me is a résumé builder. Three pieces of it turn text into markup. This project models
each of them and proves properties of the model.

- `latexToHtml` (the PDF route) turns the application's LaTeX-like résumé markup into HTML.
  It does this with a fixed sequence of regular-expression substitutions (module `PdfRoute`,
  file `pdf.dfy`).
- `manualParseToLatex` (the edit route) is the fallback used when the language model's answer
  still holds template placeholders. It reads a plain-text résumé line by line and writes
  LaTeX markup (module `ManualParser`, file `manual.dfy`).
- The chat panel's local helpers are `handleSend`, `convertToLatex`, `extractSkills` and
  `handleCopy`. They route a message, convert simple text to LaTeX, pick skill keywords and
  choose the text to copy (module `Chatbot`, file `chat.dfy`).

Two support modules carry what these pieces use from JavaScript:

- `Text` (`text.dfy`) has `\s` whitespace, `includes` and `startsWith`, `trim`, `split` on
  one character, ASCII `toLowerCase` and `.length` counted in UTF-16 code units.
- `JsReplace` (`replace.dfy`) models `String.prototype.replace` for the regular expressions
  that occur in the program.
  - A `Pattern` datatype has one shape per kind of expression the program writes. For example,
    `Between(open, close)` is `open([\s\S]*?)close`, `BetweenOnLine` is the same with `.*?`,
    and `Subheading` is the four lazy argument groups with the engine's backtracking through
    later `}`.
  - `Match(p, t)` gives the match at the front of `t` with its groups.
  - A `Replacement` is a `$n` template, or a choice between two templates (the centre block's
    callback).
  - `Apply` runs one rule in one of three modes: `/g` (every match, left to right,
    non-overlapping), the first match only, or anchored with `^`. `Pipeline` runs a list of
    rules in order.

`LatexToHtml` is the `Pipeline` of the 37 rules of the PDF route, in source order, each with
its own pattern, replacement and flag. `ConvertToLatex` replays the chat helper's branches and
its substitutions in order. Both are pure in the source (each step only builds a new string)
and stay functions here.

`manualParseToLatex` is a loop that updates local variables, followed by markup written one
piece after another. It is modelled two ways:

- a method `ManualParseToLatex` with that loop and those writes;
- the function `ManualParse`, a fold of one-line `Step`s followed by `Render`.

The method is proved equal to the function. The properties are proved about the function.

The model follows the code's substitution passes, including the cases where the order of the
passes matters:

- The header name rule runs before bold (`HeaderToTitle`, `TitleNotBold`, `HeaderWouldBeBold`).
- Bold runs before italics in the chat helper (`BoldBeforeItalic`, `ItalicFirstWouldSplit`).
- `\end{itemize}` becomes `</ul>` before the item rule runs. The item rule's lookahead wants
  `\item`, `\end` or `\resumeItemListEnd` to follow, and its group is lazy but may cross
  lines. So the last item of an `itemize` list has no marker right after it.
  - When nothing follows, the item stays unwrapped as `\item x</ul>` (`LastItemUnwrapped`).
  - When another list follows, the item's text runs on past `</ul>` and the next opener up to
    the next `\item`, so `</li>` lands inside the next list (`ItemRunsIntoNextList`).
  The model keeps this as written.
- In the experience section, the job-line test comes before the dates rule. A bracketed date
  line longer than three characters, such as `[2020]`, passes that test, so it starts a new job
  with the line as its company (`DateLineStartsJob`). The dates rule only sees bracketed lines
  of at most three UTF-16 units, or lines that mention "website". The model keeps this as
  written.

## Model

| member | source | states |
|---|---|---|
| PdfRoute.LatexToHtml | src/app/api/pdf/route.ts:7-134 | the HTML holds no `%` and no backslash followed by a letter, whatever the input (proved by `NoPercent` and `NoCommandLeft`) |
| PdfRoute.NoPercent | src/app/api/pdf/route.ts:7-134 | the passes, run in order, never leave a `%`: comments go first, and no later replacement writes one |
| PdfRoute.NoCommandLeft | src/app/api/pdf/route.ts:131-132 | no backslash followed by a letter survives the passes: the last one deletes every such command |
| PdfRoute.PlainKept | src/app/api/pdf/route.ts:7-134 | text with no backslash, `%`, `$` or `--` comes out unchanged: no pass can match in it |
| PdfRoute.CommentsRemoved | src/app/api/pdf/route.ts:11 | after the comment pass no `%` is left |
| PdfRoute.CommentLine | src/app/api/pdf/route.ts:11 | a comment is removed up to its line end, the line terminator (`\n`, `\r`, U+2028 or U+2029) is kept, and the scan goes on after it |
| PdfRoute.CommentLast | src/app/api/pdf/route.ts:11 | a comment that runs to the end of the text is removed entirely |
| PdfRoute.PreambleDropped | src/app/api/pdf/route.ts:12 | everything from `\documentclass` to the first `\begin{document}` is removed, and the body is untouched |
| PdfRoute.EmDashRewrite | src/app/api/pdf/route.ts:130 | each `--` becomes `&mdash;` |
| PdfRoute.HeaderToTitle | src/app/api/pdf/route.ts:19-22 | `\textbf{\Huge \scshape n}` becomes the `h1` name heading holding `n` |
| PdfRoute.TitleNotBold | src/app/api/pdf/route.ts:66 | the bold pass leaves a name heading alone once it is written, for any name that does not itself hold `\textbf{` |
| PdfRoute.PipeRewrite | src/app/api/pdf/route.ts:26 | the math-mode pipe (dollar, bar, dollar), with optional whitespace and an optional backslash on each side, becomes the pipe span, and the scan goes on after it |
| PdfRoute.BreakRewrite | src/app/api/pdf/route.ts:30 | `\\` and the whitespace after it become `<br/>`, and the scan goes on after them |
| PdfRoute.BreakSpacingRewrite | src/app/api/pdf/route.ts:30 | `\\` with a spacing option `[-o]` becomes `<br/>`, and the option is dropped |
| PdfRoute.HeaderWouldBeBold | src/app/api/pdf/route.ts:17-22 | bold alone would have captured the header as `<strong>\Huge \scshape n</strong>`, so the header rule must come first |
| PdfRoute.BoldRewrite | src/app/api/pdf/route.ts:66 | `\textbf{x}` with `x` free of `}` becomes `<strong>x</strong>`, and the rest is rewritten the same way |
| PdfRoute.ItalicRewrite | src/app/api/pdf/route.ts:67 | `\textit{x}` becomes `<em>x</em>` |
| PdfRoute.UnderlineRewrite | src/app/api/pdf/route.ts:68 | `\underline{x}` becomes `<u>x</u>` |
| PdfRoute.CenterNeedlesMean | src/app/api/pdf/route.ts:38-41 | the two-part test of the centre callback holds exactly when the content mentions `minipage` |
| PdfRoute.CenterExpand | src/app/api/pdf/route.ts:37-47 | the callback gives the grid div when the content mentions `minipage`, else the text div with a paragraph |
| PdfRoute.CenterBlockLayout | src/app/api/pdf/route.ts:35-48 | a centre block with no inner `\end{center}` becomes a grid or a text block by that test |
| PdfRoute.MinipageColumn | src/app/api/pdf/route.ts:52-55 | `\begin{minipage}{w}` becomes a column div |
| PdfRoute.MinipageColumnWidth | src/app/api/pdf/route.ts:52-55 | with the optional `[o]` as well, the whole opener becomes a column div |
| PdfRoute.HrefRewrite | src/app/api/pdf/route.ts:73 | `\href{u}{l}` becomes a link to `u` showing `l` |
| PdfRoute.UrlRewrite | src/app/api/pdf/route.ts:74 | `\url{u}` becomes a link to `u` showing `u` |
| PdfRoute.SectionRewrite | src/app/api/pdf/route.ts:77-80 | `\section{x}` and `\section*{x}` become a section heading |
| PdfRoute.ItemizeRewrite | src/app/api/pdf/route.ts:84-92 | `\begin{itemize}[o]`, for any one-line options `o` without `]`, opens a no-bullet list exactly when `o` holds `label={}`, else a plain list; the options are dropped and the passes go on after them |
| PdfRoute.NoBulletRewrite | src/app/api/pdf/route.ts:84-87 | options holding `label={}` open a no-bullet list, even when they hold a backslash |
| PdfRoute.NoBulletFirst | src/app/api/pdf/route.ts:84-87 | the no-bullet pass on its own rewrites such an opener |
| PdfRoute.OptionsRewrite | src/app/api/pdf/route.ts:84-92 | options without `label={}` open a plain list, and the options are dropped |
| PdfRoute.NoBulletSkipsOptions | src/app/api/pdf/route.ts:84-87 | the no-bullet pass leaves an opener whose options lack `label={}` as it is, and goes on after them |
| PdfRoute.NoBulletNeedsOptions | src/app/api/pdf/route.ts:84-87 | without `[` after the opener the no-bullet rule does not match |
| PdfRoute.NoBulletKeepsFront | src/app/api/pdf/route.ts:84-87 | the no-bullet pass never puts a `[` at the front of text that did not start with one |
| PdfRoute.ItemizePlainRewrite | src/app/api/pdf/route.ts:84-92 | a `\begin{itemize}` not followed by `[` opens a plain list, whatever follows it |
| PdfRoute.EndSkipped | src/app/api/pdf/route.ts:84-93 | the three opener passes leave `\end{itemize}` as it is and go on after it |
| PdfRoute.EndClosed | src/app/api/pdf/route.ts:94 | `\end{itemize}` becomes `</ul>`, and the scan goes on after it |
| PdfRoute.ItemRewrite | src/app/api/pdf/route.ts:98-101 | `\item` then whitespace then `x`, followed by a list marker, becomes `<li>x</li>`, and the marker stays |
| PdfRoute.ItemUnclosedKept | src/app/api/pdf/route.ts:98-101 | an item with no list marker (`\item`, `\end`, `\resumeItemListEnd`) anywhere after it is left as it is |
| PdfRoute.ListsInOrder | src/app/api/pdf/route.ts:82-102 | the list group is exactly its seven rules in source order |
| PdfRoute.LastItemUnwrapped | src/app/api/pdf/route.ts:89-101 | an item followed only by `\end{itemize}` comes out as `\item x</ul>`, not as a list element |
| PdfRoute.ItemRunsIntoNextList | src/app/api/pdf/route.ts:89-101 | when a second list follows, the first list's last item becomes a list element that holds the first `</ul>` and the next opener |
| PdfRoute.ResumeItemRewrite | src/app/api/pdf/route.ts:102 | `\resumeItem{x}` becomes `<li>x</li>` |
| PdfRoute.EntryRewrite | src/app/api/pdf/route.ts:111-126 | a subheading with four groups (whitespace allowed before each) becomes the entry block, with the first group bold and the third in italics |
| Chatbot.Send | src/components/ChatbotOverlay.tsx:120-155 | blank input does nothing; input mentioning "convert" or "to latex" is answered locally with its conversion, wrapped in the reply; anything else goes unchanged to the model |
| Chatbot.CopyConverted | src/components/ChatbotOverlay.tsx:140-148 | copying a local reply gives back exactly the markup it carries, unless the markup closes the fence itself |
| Chatbot.CopyReply | src/components/ChatbotOverlay.tsx:228-230 | the copy of a reply built around markup `l` is `l` |
| Chatbot.CopyText | src/components/ChatbotOverlay.tsx:228-230 | when no position of the message starts a fenced LaTeX block, the whole message is copied; otherwise the captured body of the block at the first position that starts one is copied; content with no backtick is copied whole |
| Chatbot.FenceFromFirst | src/components/ChatbotOverlay.tsx:229 | the block search finds nothing exactly when no position from `i` on starts a block, and otherwise yields the body of the block at the first such position |
| Chatbot.NoFenceFound | src/components/ChatbotOverlay.tsx:229 | content with no backtick holds no LaTeX block |
| Chatbot.FenceSkips | src/components/ChatbotOverlay.tsx:229 | the fence search passes over text with no backtick |
| Chatbot.Found | src/components/ChatbotOverlay.tsx:219-221 | the skills kept are the keywords the text mentions, ignoring case, and no others |
| Chatbot.FoundSplits | src/components/ChatbotOverlay.tsx:219-221 | filtering keeps the keyword list's order: filtering a concatenation concatenates the results |
| Chatbot.PlaceholderNotKeyword | src/components/ChatbotOverlay.tsx:223-225 | no placeholder skill is a keyword |
| Chatbot.ExtractSkills | src/components/ChatbotOverlay.tsx:196-226 | the result is never empty; it is the placeholders exactly when no keyword is mentioned; otherwise it is the mentioned keywords |
| Chatbot.ConvertToLatex | src/components/ChatbotOverlay.tsx:157-194 | no `•` is left in the markup, whichever branch answers; the branch taken is stated by `SkillsRequest`, `ExperienceRequest`, `EducationRequest`, `RulesOtherwise`, `BulletListWrapped` and `PlainTextKept` |
| Chatbot.TemplateNoBullet | src/components/ChatbotOverlay.tsx:160-174 | no section template holds a `•` |
| Chatbot.SkillsListNoBullet | src/components/ChatbotOverlay.tsx:166 | a skills section built from bullet-free skills holds no `•` |
| Chatbot.RewriteNoBullet | src/components/ChatbotOverlay.tsx:177-191 | the simple rules leave no `•`: the bullet rule replaces each one and the later rules write none |
| Chatbot.SkillsRequest | src/components/ChatbotOverlay.tsx:161-166 | a request to add or create that mentions skills gets the skills section, whatever else it mentions |
| Chatbot.ExperienceRequest | src/components/ChatbotOverlay.tsx:167-171 | otherwise, a request mentioning experience or work gets the experience template |
| Chatbot.EducationRequest | src/components/ChatbotOverlay.tsx:172-173 | otherwise, a request mentioning education gets the education template |
| Chatbot.RulesOtherwise | src/components/ChatbotOverlay.tsx:177-193 | any other text goes through the simple rewriting rules |
| Chatbot.JoinedItems | src/components/ChatbotOverlay.tsx:166 | joining the skills with a newline and `\item ` gives one `\item` line per skill |
| Chatbot.SkillsListItems | src/components/ChatbotOverlay.tsx:166 | the skills section is an itemize list with one item per skill, in order |
| Chatbot.BulletsMakeItems | src/components/ChatbotOverlay.tsx:178 | text with a `•` holds `\item` after the bullet rule |
| Chatbot.BulletsGone | src/components/ChatbotOverlay.tsx:178 | no `•` is left after the bullet rule |
| Chatbot.BulletRewrite | src/components/ChatbotOverlay.tsx:178 | a `•` and all the whitespace after it become `\item `, and the scan goes on after them |
| Chatbot.BulletKept | src/components/ChatbotOverlay.tsx:178 | every other character is kept as it is |
| Chatbot.ItemKept | src/components/ChatbotOverlay.tsx:178-187 | an `\item` in the text survives the bullet, bold and italic rules |
| Chatbot.HeadingsKeepItem | src/components/ChatbotOverlay.tsx:180-184 | an `\item` in the text survives the heading rules |
| Chatbot.RulesWriteNoBullet | src/components/ChatbotOverlay.tsx:180-187 | the rules after the bullet rule write no `•` |
| Chatbot.RewriteBullets | src/components/ChatbotOverlay.tsx:177-191 | text holding a `•` or an `\item` is rewritten by all the rules and wrapped in an itemize list, whatever else it holds, and no `•` is left |
| Chatbot.BulletListWrapped | src/components/ChatbotOverlay.tsx:157-191 | the same holds for a whole conversion that is not a template request |
| Chatbot.BulletsOnly | src/components/ChatbotOverlay.tsx:177-187 | star-free text that does not open with `#` is changed by the bullet rule only |
| Chatbot.PlainTextKept | src/components/ChatbotOverlay.tsx:157-193 | text with nothing to rewrite comes back trimmed and otherwise unchanged |
| Chatbot.SectionTitle | src/components/ChatbotOverlay.tsx:180-181 | a leading `# x` line becomes `\section{x}`, and the following lines are kept |
| Chatbot.SubsectionTitle | src/components/ChatbotOverlay.tsx:182-183 | a leading `## x` line becomes `\subsection{x}` |
| Chatbot.BoldStarsRewrite | src/components/ChatbotOverlay.tsx:186 | `**x**` becomes `\textbf{x}` whenever `x` is on one line and `x*` holds no `**`, so the lazy group ends at the closing stars |
| Chatbot.ItalicStarsRewrite | src/components/ChatbotOverlay.tsx:187 | `*x*`, with `x` on one line and free of stars, becomes `\textit{x}`, and the scan goes on after it |
| Chatbot.BoldBeforeItalic | src/components/ChatbotOverlay.tsx:186-187 | bold then italics turns `**x**` into `\textbf{x}` and nothing more |
| Chatbot.ItalicFirstWouldSplit | src/components/ChatbotOverlay.tsx:186-187 | italics alone would turn `**x**` into two empty `\textit{}`, so bold must come first |
| Text.TrimBlank | src/components/ChatbotOverlay.tsx:121 | a trimmed message is empty exactly when it is all whitespace |
| Text.SplitJoin | src/app/api/edit/route.ts:137-138 | splitting on newlines loses nothing: joining the pieces gives the text back |
| Text.Utf16Length | src/app/api/edit/route.ts:228 | the length is counted in UTF-16 code units, between one and two per character |
| ManualParser.Lines | src/app/api/edit/route.ts:137-140 | every line kept is non-empty and has no whitespace at either end; every non-blank line of the text is kept, trimmed, and every kept line is a trimmed line of the text |
| ManualParser.NonBlankKeepsEach | src/app/api/edit/route.ts:139-140 | every non-blank piece is kept, trimmed |
| ManualParser.NonBlankFromParts | src/app/api/edit/route.ts:139-140 | every kept line is a trimmed piece |
| ManualParser.NonBlankSplits | src/app/api/edit/route.ts:139-140 | reading two runs of pieces one after the other gives the lines of each in turn, so the order is kept |
| ManualParser.NonBlankKeeps | src/app/api/edit/route.ts:139-140 | lines that are already trimmed and non-empty are all kept, unchanged |
| ManualParser.LinesOfCleanText | src/app/api/edit/route.ts:137-140 | text whose lines are all trimmed and non-empty is split into exactly those lines |
| ManualParser.FirstCandidate | src/app/api/edit/route.ts:165-175 | a line not mentioning "professional", "experience" or "summary" with no such line before it; none exactly when no line qualifies |
| ManualParser.NameIsFirstCandidate | src/app/api/edit/route.ts:165-175 | the name is that first candidate line, or empty when there is none |
| ManualParser.ContactLine | src/app/api/edit/route.ts:177-199 | after the name and before any section, a line changes only the contact list: a contact line (`@`, `+`, github, linkedin) is added at the end, a location in front, and any other line is dropped |
| ManualParser.ContactBlock | src/app/api/edit/route.ts:177-199 | reading a block of such lines changes only the contact list, which becomes the block's locations with the last first, then the earlier contact lines, then the block's contact lines in order |
| ManualParser.EducationInert | src/app/api/edit/route.ts:208-210 | education is recognised as a section, but its lines change nothing |
| ManualParser.Step | src/app/api/edit/route.ts:163-283 | one line sets the name only while it is empty and only to a line that can be a name; a set name never changes |
| ManualParser.StepExtendsWork | src/app/api/edit/route.ts:221-250 | one line keeps every finished job and adds at most one; a job is added only by a job line in the experience section that replaces a job with a company |
| ManualParser.SummaryGrows | src/app/api/edit/route.ts:217-220 | only a summary line that is not a heading changes the summary, by appending the line and a space; once the name is set, a non-empty such line changes nothing else |
| ManualParser.SummaryRun | src/app/api/edit/route.ts:217-220 | a run of non-empty, non-heading lines in the summary section appends each line and a space, in order, and changes nothing else |
| ManualParser.WideGap | src/app/api/edit/route.ts:235 | a position found is a run of two whitespace characters |
| ManualParser.WideGapFirst | src/app/api/edit/route.ts:235 | no two whitespace characters meet before that position |
| ManualParser.CompanyBeforeGap | src/app/api/edit/route.ts:234-250 | the company runs from the start of the line to its first wide gap, or to the end of the line when there is none |
| ManualParser.PositionAfterGap | src/app/api/edit/route.ts:234-250 | with no wide gap the position is empty; otherwise it starts after the whole whitespace run that follows the company and runs to the next wide gap or the end of the line |
| ManualParser.Bullet | src/app/api/edit/route.ts:252 | the bullet is its line without the one-character marker and all the whitespace after it |
| ManualParser.BulletLineRead | src/app/api/edit/route.ts:251-255 | a bullet line in the experience section adds its text to the current job, or does nothing when there is no job |
| ManualParser.BulletRun | src/app/api/edit/route.ts:251-255 | a run of bullet lines adds their texts, markers removed, to the current job in order, and changes nothing else |
| ManualParser.JobLineRead | src/app/api/edit/route.ts:223-250 | a job line in the experience section finishes the current job, keeping it when it has a company, and starts a new job read from the line |
| ManualParser.DateLineStartsJob | src/app/api/edit/route.ts:223-259 | in the experience section the date line `[2020]` starts a new job whose company is the line and whose dates are empty, and the current job is closed without those dates |
| ManualParser.DateLineIsJobLine | src/app/api/edit/route.ts:223-248 | a bracketed line of four to six characters with no space and no letter opens no section, passes the job-line test and becomes a job whose company is the whole line |
| ManualParser.Pushed | src/app/api/edit/route.ts:230-232 | a finished job is kept exactly when it has a company, at the end of the kept jobs |
| ManualParser.AddSkillsMembers | src/app/api/edit/route.ts:275-282 | after a skills line, the skills are the old ones plus the keywords the line mentions, ignoring case |
| ManualParser.AddSkillsExtends | src/app/api/edit/route.ts:275-282 | skills are only appended, and none is added twice |
| ManualParser.ParseFromInput | src/app/api/edit/route.ts:162-289 | every contact line comes from the input; every kept job has a company, takes its company and position from one job line, its dates from a bracketed line and its bullets from bullet lines; skills are distinct keywords |
| ManualParser.WorkAppendOnly | src/app/api/edit/route.ts:230-231 | reading more lines only appends to the finished jobs |
| ManualParser.ReadExperienceLine | src/app/api/edit/route.ts:221-259 | the loop body for an experience line does what one experience `Step` does |
| ManualParser.ReadSkillsLine | src/app/api/edit/route.ts:260-282 | the keyword loop over one skills line gives `AddSkills` |
| ManualParser.ReadLine | src/app/api/edit/route.ts:163-283 | one pass of the loop body is one `Step` |
| ManualParser.ReadLines | src/app/api/edit/route.ts:162-284 | the loop over the lines gives the fold of `Step` over them |
| ManualParser.WriteHeader | src/app/api/edit/route.ts:294-300 | the header written is `Header`: the centred name, or "Your Name", then the contact lines |
| ManualParser.SummaryBlock | src/app/api/edit/route.ts:302-306 | the summary section is empty exactly when there is no summary |
| ManualParser.WriteSummary | src/app/api/edit/route.ts:302-306 | the summary written is `SummaryBlock` |
| ManualParser.WriteJob | src/app/api/edit/route.ts:313-323 | one job is written as its subheading, then its items, if any |
| ManualParser.WriteJobs | src/app/api/edit/route.ts:313-323 | the jobs are written in order |
| ManualParser.WorkBlock | src/app/api/edit/route.ts:308-326 | the work section is empty exactly when no job was kept |
| ManualParser.WriteWork | src/app/api/edit/route.ts:308-326 | the work section written is `WorkBlock` |
| ManualParser.SkillsBlock | src/app/api/edit/route.ts:328-334 | the skills section is empty exactly when no skill was found |
| ManualParser.WriteSkills | src/app/api/edit/route.ts:328-334 | the skills section written is `SkillsBlock` |
| ManualParser.ManualParseToLatex | src/app/api/edit/route.ts:136-337 | the method's markup is `ManualParse(text)`, so what is proved about that function holds for the method |
| ManualParser.HeaderOpensWithName | src/app/api/edit/route.ts:294-300 | the header starts with the centred name line, or "Your Name" when there is no name |
| ManualParser.Render | src/app/api/edit/route.ts:291-336 | the markup starts with the centred name line |
| ManualParser.ManualParse | src/app/api/edit/route.ts:136-337 | the parser's markup starts with the first candidate name line, or "Your Name" when there is none |
| ManualParser.JobEntryConverted | src/app/api/edit/route.ts:314 | the subheading the parser writes for a job becomes the PDF route's entry block, with company, empty second field, position and dates |
| ManualParser.EditLatex | src/app/api/edit/route.ts:109-113 | the route returns either the model's answer or the parser's markup, and never an answer that still holds "Company Name" or "Accomplishment" |

## Left out

- HTTP handlers, JSON bodies, the generative-model calls, the database, and PDF and Word export
  are I/O, so they are left out. The edit route's result is modelled from the model's cleaned
  answer (`EditLatex` takes that answer as a parameter).
- Cleaning the model's answer (edit route, code-fence and `language-` removal with `trim`) is
  left out: it happens before the fallback test that is modelled.
- The static HTML page the PDF route wraps around the conversion is a constant page template
  with no logic, so it is left out.
- The React state, message objects, timers (`setTimeout`), `Date.now()` ids and the clipboard
  are part of the UI runtime. `Send` returns what the handler would show or send; `CopyText`
  returns what would be written to the clipboard.
- `toLowerCase` is modelled for ASCII letters only. JavaScript's other Unicode case mappings
  are not modelled. Some of them fold a non-ASCII character to an ASCII letter (U+212A KELVIN
  SIGN lowercases to `k`), so a line such as `S\u212AILL` mentions "skill" in the program but
  not in the model.
- The education fields are declared in the edit route's parser but never filled, so they are
  not part of the parsed state.
- Regular expressions are modelled only in the shapes the program uses. There is no general
  regex engine.
- PdfRoute.BoldRewrite, PdfRoute.ItalicRewrite, PdfRoute.UnderlineRewrite,
  PdfRoute.ResumeItemRewrite, PdfRoute.HrefRewrite, PdfRoute.UrlRewrite,
  PdfRoute.SectionRewrite, PdfRoute.HeaderToTitle and PdfRoute.EntryRewrite require that the
  arguments hold no `}`. With a `}` inside, the lazy or `[^}]` pattern stops at that brace. The
  matcher models that case, but these lemmas do not state it.
- PdfRoute.CenterBlockLayout requires that the content holds no `\end{center}`, the case in
  which the lazy group ends early.
- PdfRoute.ItemRewrite requires item text without a backslash, so that no marker occurs inside
  it.
- ManualParser.JobEntryConverted requires no `}` in the company, position or dates, for the
  same reason as the PDF rewrite lemmas.
- Chatbot.CopyReply and Chatbot.CopyConverted require that the markup does not hold a newline
  followed by three backticks. Such markup would end the fenced block early, and the copy would
  be cut short.
- Chatbot.SectionTitle and Chatbot.SubsectionTitle cover a heading line whose text starts with
  a non-space character, the common case. The heading match's backtracking over whitespace is
  modelled but not stated.
- RewriteBullets and BulletListWrapped state one direction: text holding a `•` or an `\item` is
  wrapped. That other text is not wrapped is stated only for text with nothing to rewrite
  (`PlainTextKept`). The general converse needs a proof that the heading, bold and italic
  rules never spell `\item`, which the model does not carry.
- EditLatex: the contract says the result is the answer or the parser's markup and never an
  answer with a placeholder. It does not add that a placeholder-free answer is always kept,
  which the function's two-way test does by construction.
- PdfRoute.ItemizeRewrite and PdfRoute.OptionsRewrite take options `o` on one line, up to the
  first `]`. Options that span a line break are not stated: there the lazy `.*?` fails, and only
  the opener is replaced.
- PdfRoute.BreakRewrite and PdfRoute.BreakSpacingRewrite do not cover `\\` followed by `[-` with
  no `]` later on the line, the case in which the optional spacing group fails.
