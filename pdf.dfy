/**
 * The LaTeX-to-HTML converter of the PDF route: a fixed sequence of rewrites applied to the
 * résumé markup, each to the result of the one before, grouped as the converter groups them.
 */
module PdfRoute {
  import opened Text
  import opened Wrappers
  import opened JsReplace

  /* Markup the rewrites produce. Long strings are written as concatenations of short pieces,
     which keeps the proofs about their characters small. */
  const DivClass := "<div class="
  const SpanClass := "<span class="
  const ListOpen := "<ul class=" + "\"resume-list\">"
  const NameOpen := "<h1 class=" + "\"name small-caps\">"
  const PipeSpan := SpanClass + "\"pipe\">|</span>"
  const GridOpen := DivClass + "\"center-grid\">"
  const TextOpen := DivClass + "\"center-text\">" + "<p>"
  const ColumnOpen := DivClass + "\"minipage-col\">"
  const SmallCapsOpen := SpanClass + "\"small-caps\">"
  const BlueOpen := SpanClass + "\"text-blue\">"
  const SectionOpen := "<h2 class=" + "\"section-title\">"
  const NoBulletOpen := "<ul class=" + "\"resume-list" + " no-bullet\">"
  const GroupOpen := DivClass + "\"resume-group\">"
  const EntryOpen := "\n      " + DivClass + "\"resume-entry\">"
    + "\n        " + DivClass + "\"entry-header\">"
    + "\n          " + SpanClass + "\"entry-arg1\">" + "<strong>"
  const EntryAfterFirst := "</strong></span>" + "\n          " + SpanClass + "\"entry-arg2\">"
  const EntryAfterSecond := "</span>" + "\n        </div>"
    + "\n        " + DivClass + "\"entry-details\">"
    + "\n          " + SpanClass + "\"entry-arg3\">" + "<em>"
  const EntryAfterThird := "</em></span>" + "\n          " + SpanClass + "\"entry-arg4\">"
  const EntryClose := "</span>" + "\n        </div>" + "\n      </div>" + "\n    "

  /* 1. Cleanup and preamble. */
  const Comments := Rule(RestOfLine("%"), Erase, Global)
  const Preamble := Rule(Between("\\documentclass", "\\begin{document}"), Erase, FirstOnly)
  const DocumentEnd := Rule(Literal("\\end{document}"), Erase, FirstOnly)
  const Packages := Rule(BetweenOnLine("\\usepackage{", "}"), Erase, Global)
  const ColorDefinitions := Rule(BetweenOnLine("\\definecolor{", "}"), Erase, Global)
  const Cleanup := [Comments, Preamble, DocumentEnd, Packages, ColorDefinitions]

  /* 2. The name in the header. */
  const HeaderStyle := "\\Huge \\scshape "
  const HeaderOpen := "\\textbf{" + HeaderStyle
  const HeaderName := Rule(BetweenOnLine(HeaderOpen, "}"), Wrap(NameOpen, "</h1>"), Global)

  /* 3. Separators and spacing. */
  const PipeSeparator := Rule(Pipe, Verbatim(PipeSpan), Global)
  const LineBreaks := Rule(LineBreak, Verbatim("<br/>"), Global)
  const Separators := [PipeSeparator, LineBreaks]

  /* 4. Center blocks: a grid when the content mentions minipages, a paragraph otherwise. */
  const CenterOpen := "\\begin{center}"
  const CenterClose := "\\end{center}"
  const CenterNeedles := ["\\begin{minipage}", "minipage"]
  const CenterBlock := Rule(Between(CenterOpen, CenterClose),
    Choose(CenterNeedles, [Chunk(GridOpen), Group(1), Chunk("</div>")],
      [Chunk(TextOpen), Group(1), Chunk("</p></div>")]), Global)

  /* 5. Minipage columns. */
  const MinipageStart := Rule(MinipageBegin, Verbatim(ColumnOpen), Global)
  const MinipageEnd := Rule(Literal("\\end{minipage}"), Verbatim("</div>"), Global)
  const Hfill := Rule(Literal("\\hfill"), Erase, Global)
  const Columns := [MinipageStart, MinipageEnd, Hfill]

  /* 6. Formatting, colours and links. */
  const SmallCaps := Rule(Spaced("\\scshape", true), Verbatim(SmallCapsOpen), Global)
  const LinkColor := Rule(Literal("\\color{linkblue}"), Verbatim(BlueOpen), Global)
  const OtherColors := Rule(BetweenOnLine("\\color{", "}"), Erase, Global)
  const Bold := Rule(Between("\\textbf{", "}"), Wrap("<strong>", "</strong>"), Global)
  const Italic := Rule(Between("\\textit{", "}"), Wrap("<em>", "</em>"), Global)
  const Underline := Rule(Between("\\underline{", "}"), Wrap("<u>", "</u>"), Global)
  const HugeSize := Rule(Literal("\\Huge"), Erase, Global)
  const LargeSize := Rule(Literal("\\Large"), Erase, Global)
  const Formatting := [SmallCaps, LinkColor, OtherColors, Bold, Italic, Underline, HugeSize, LargeSize]
  const HrefLink := Rule(Href, Fill([Chunk("<a href=\""), Group(1), Chunk("\">"), Group(2), Chunk("</a>")]), Global)
  const UrlLink := Rule(Between("\\url{", "}"), Fill([Chunk("<a href=\""), Group(1), Chunk("\">"), Group(1), Chunk("</a>")]), Global)
  const Links := [HrefLink, UrlLink]

  /* 7. Sections. */
  const Sections := Rule(SectionTitle, Wrap(SectionOpen, "</h2>"), Global)

  /* 8. Lists. */
  const NoBulletStart := Rule(NoBulletList, Verbatim(NoBulletOpen), Global)
  const ItemizeStart := Rule(ItemizeBegin, Verbatim(ListOpen), Global)
  const ItemListStart := Rule(Literal("\\resumeItemListStart"), Verbatim(ListOpen), Global)
  const ItemizeEnd := Rule(Literal("\\end{itemize}"), Verbatim("</ul>"), Global)
  const ItemListEnd := Rule(Literal("\\resumeItemListEnd"), Verbatim("</ul>"), Global)
  const ListItem := Rule(Item, Wrap("<li>", "</li>"), Global)
  const ResumeItem := Rule(Between("\\resumeItem{", "}"), Wrap("<li>", "</li>"), Global)
  const Lists := [NoBulletStart, ItemizeStart, ItemListStart, ItemizeEnd, ItemListEnd, ListItem, ResumeItem]

  /* 9. Résumé entries. */
  const GroupStart := Rule(Literal("\\resumeSubHeadingListStart"), Verbatim(GroupOpen), Global)
  const GroupEnd := Rule(Literal("\\resumeSubHeadingListEnd"), Verbatim("</div>"), Global)
  const EntryTemplate := [Chunk(EntryOpen), Group(1), Chunk(EntryAfterFirst), Group(2),
    Chunk(EntryAfterSecond), Group(3), Chunk(EntryAfterThird), Group(4), Chunk(EntryClose)]
  const Entries := Rule(Subheading, Fill(EntryTemplate), Global)
  const ResumeEntries := [GroupStart, GroupEnd, Entries]

  /* Final cleanup. */
  const EscapedPipe := Rule(Literal("\\|"), Verbatim("|"), Global)
  const EmDash := Rule(Literal("--"), Verbatim("&mdash;"), Global)
  const CommandsWithArgument := Rule(CommandWithArg, Erase, Global)
  const Commands := Rule(Command, Erase, Global)
  const FinalCleanup := [EscapedPipe, EmDash, CommandsWithArgument, Commands]

  /** Every rewrite after the cleanup, in order. */
  const Later := [HeaderName] + Separators + [CenterBlock] + Columns + Formatting + Links
    + [Sections] + Lists + ResumeEntries + FinalCleanup

  /** Every rewrite, in the order the converter applies them. */
  const Passes := Cleanup + Later

  /** `latexToHtml`: the HTML holds no `%` and no LaTeX command. */
  function LatexToHtml(latex: string): (r: string)
    ensures '%' !in r
    ensures NoCommand(r)
  {
    NoPercent(latex);
    NoCommandLeft(latex);
    Pipeline(Passes, latex)
  }

  /** A `%` always starts a comment. */
  lemma CommentAt(s: string)
    requires s != [] && s[0] == '%'
    ensures Match(RestOfLine("%"), s).Some?
  {
    assert s[..1] == "%";
  }

  /** The first rewrite leaves no `%`: each one starts a comment, which runs to the end of its line. */
  lemma {:induction false} CommentsRemoved(s: string)
    ensures '%' !in Apply(Comments, s)
    decreases |s|
  {
    if s != [] {
      if s[0] == '%' {
        CommentAt(s);
      }
      match Match(RestOfLine("%"), s)
      case Some(m) =>
        CommentsRemoved(s[m.len..]);
      case None =>
        CommentsRemoved(s[1..]);
    }
  }

  /* No replacement text of any group holds `%`. */
  lemma CleanupLacksPercent() ensures NoneWrites(Cleanup, '%') {}
  lemma SeparatorsLackPercent() ensures NoneWrites([HeaderName] + Separators, '%') {}
  lemma CenterLacksPercent() ensures NoneWrites([CenterBlock], '%') {
    assert '%' !in GridOpen && '%' !in TextOpen;
  }
  lemma ColumnsLackPercent() ensures NoneWrites(Columns, '%') {}
  lemma FormattingLacksPercent() ensures NoneWrites(Formatting, '%') {}
  lemma LinksLackPercent() ensures NoneWrites(Links + [Sections], '%') {}
  lemma ListsLackPercent() ensures NoneWrites(Lists, '%') {}
  lemma EntryOpenLacksPercent() ensures '%' !in EntryOpen {}
  lemma EntryMiddleLacksPercent() ensures '%' !in EntryAfterFirst && '%' !in EntryAfterSecond {}
  lemma EntryEndLacksPercent() ensures '%' !in EntryAfterThird && '%' !in EntryClose {}
  lemma EntryLacksPercent() ensures ChunksLack(EntryTemplate, '%') {
    EntryOpenLacksPercent();
    EntryMiddleLacksPercent();
    EntryEndLacksPercent();
  }
  lemma EntriesLackPercent() ensures NoneWrites(ResumeEntries, '%') {
    EntryLacksPercent();
  }
  lemma FinalLacksPercent() ensures NoneWrites(FinalCleanup, '%') {}

  lemma LaterLacksPercent()
    ensures NoneWrites(Later, '%')
  {
    SeparatorsLackPercent();
    CenterLacksPercent();
    NoneWritesJoin([HeaderName] + Separators, [CenterBlock], '%');
    ColumnsLackPercent();
    FormattingLacksPercent();
    LinksLackPercent();
    ListsLackPercent();
    EntriesLackPercent();
    FinalLacksPercent();
    var a := [HeaderName] + Separators + [CenterBlock];
    NoneWritesJoin(a, Columns, '%');
    NoneWritesJoin(a + Columns, Formatting, '%');
    NoneWritesJoin(a + Columns + Formatting, Links + [Sections], '%');
    NoneWritesJoin(a + Columns + Formatting + (Links + [Sections]), Lists, '%');
    NoneWritesJoin(a + Columns + Formatting + (Links + [Sections]) + Lists, ResumeEntries, '%');
    NoneWritesJoin(a + Columns + Formatting + (Links + [Sections]) + Lists + ResumeEntries, FinalCleanup, '%');
    assert a + Columns + Formatting + (Links + [Sections]) + Lists + ResumeEntries + FinalCleanup == Later;
  }

  /** The converter's output holds no `%`: comments go first, and no later rewrite writes one. */
  lemma NoPercent(latex: string)
    ensures '%' !in Pipeline(Passes, latex)
  {
    PipelineJoin(Cleanup, Later, latex);
    CommentsRemoved(latex);
    CleanupLacksPercent();
    assert Pipeline(Cleanup, latex) == Pipeline(Cleanup[1..], Apply(Comments, latex));
    PipelineAvoids(Cleanup[1..], Apply(Comments, latex), '%');
    LaterLacksPercent();
    PipelineAvoids(Later, Pipeline(Cleanup, latex), '%');
  }

  /** The converter's output holds no command: the last rewrite deletes every backslash that is
      followed by letters, together with the letters. */
  lemma NoCommandLeft(latex: string)
    ensures NoCommand(Pipeline(Passes, latex))
  {
    PipelineLast(Passes, latex);
    assert Passes[|Passes| - 1] == Commands;
    CommandsRemoved(Pipeline(Passes[..|Passes| - 1], latex));
  }

  /** Prose: no backslash, no comment sign, no dollar sign (the pipe separator needs `$|$`)
      and no double hyphen. */
  predicate Plain(s: string) {
    '\\' !in s && '%' !in s && '$' !in s && !Includes(s, "--")
  }

  /** A pattern that can only match where a backslash, a `%`, a `$` or `--` is. */
  predicate Inert(p: Pattern) {
    p == Pipe || p == Literal("--") || Lead(p) == Some('\\') || Lead(p) == Some('%')
  }

  predicate AllInert(rules: seq<Rule>) {
    forall i :: 0 <= i < |rules| ==> Inert(rules[i].pattern)
  }

  lemma AllInertJoin(a: seq<Rule>, b: seq<Rule>)
    requires AllInert(a) && AllInert(b)
    ensures AllInert(a + b)
  {
    forall i | 0 <= i < |a + b| ensures Inert((a + b)[i].pattern) {
      if i >= |a| {
        assert (a + b)[i] == b[i - |a|];
      }
    }
  }

  lemma InertSkipsPlain(p: Pattern, s: string)
    requires Inert(p) && Plain(s)
    ensures forall k :: 0 <= k < |s| ==> Match(p, s[k..]).None?
  {
    if p == Pipe {
      PipeAbsent(s);
    } else if p == Literal("--") {
      IncludesAt(s, "--");
      forall k | 0 <= k < |s| ensures Match(p, s[k..]).None? {
        assert !StartsWith(s[k..], "--");
      }
    } else {
      LeadAbsent(p, s);
    }
  }

  /* Every pattern of the converter is inert on prose. */
  lemma EarlyPassesInert() ensures AllInert(Cleanup) && AllInert([HeaderName] + Separators + [CenterBlock]) {}
  lemma ColumnsInert() ensures AllInert(Columns) && AllInert(Links) && AllInert([Sections]) {}
  lemma FormattingInert() ensures AllInert(Formatting) {}
  lemma ListsInert() ensures AllInert(Lists) {}
  lemma LatePassesInert() ensures AllInert(ResumeEntries) && AllInert(FinalCleanup) {}

  lemma PassesInert()
    ensures AllInert(Passes)
  {
    EarlyPassesInert();
    ColumnsInert();
    FormattingInert();
    ListsInert();
    LatePassesInert();
    var a := [HeaderName] + Separators + [CenterBlock];
    AllInertJoin(a, Columns);
    AllInertJoin(a + Columns, Formatting);
    AllInertJoin(a + Columns + Formatting, Links);
    AllInertJoin(a + Columns + Formatting + Links, [Sections]);
    AllInertJoin(a + Columns + Formatting + Links + [Sections], Lists);
    AllInertJoin(a + Columns + Formatting + Links + [Sections] + Lists, ResumeEntries);
    AllInertJoin(a + Columns + Formatting + Links + [Sections] + Lists + ResumeEntries, FinalCleanup);
    AllInertJoin(Cleanup, Later);
  }

  /** Prose passes through the converter unchanged: every rewrite needs markup to act on. */
  lemma PlainKept(latex: string)
    requires Plain(latex)
    ensures LatexToHtml(latex) == latex
  {
    PassesInert();
    forall i | 0 <= i < |Passes| ensures Apply(Passes[i], latex) == latex {
      InertSkipsPlain(Passes[i].pattern, latex);
      ApplyNoMatch(Passes[i], latex);
    }
    PipelineFixed(Passes, latex);
  }

  /* One rewrite at a time. Each lemma below takes a construct at the front of the text, says
     what it becomes, and that the scan goes on with the text after it. */

  /** A comment runs to the end of its line; the line terminator itself stays. */
  lemma CommentLine(c: string, e: char, rest: string)
    requires OnOneLine(c) && IsLineTerminator(e)
    ensures Apply(Comments, "%" + c + [e] + rest) == [e] + Apply(Comments, rest)
  {
    CommentMatch(c, e, rest);
    assert "%" + c + [e] + rest == ("%" + c) + ([e] + rest);
    ReplaceAllHit("%" + c, [e] + rest, Comments.pattern, Comments.replacement, []);
    assert Expand(Erase, []) == [];
    ReplaceAllSkips([e], rest, Comments.pattern, Comments.replacement);
  }

  /** The comment pattern stops at the line terminator. */
  lemma CommentMatch(c: string, e: char, rest: string)
    requires OnOneLine(c) && IsLineTerminator(e)
    ensures Match(Comments.pattern, ("%" + c) + ([e] + rest)) == Some(Capture(1 + |c|, []))
  {
    var t := "%" + c + [e] + rest;
    Front("%" + c + [e], rest);
    Halves(t, 0, "%" + c, [e]);
    Halves(t, 0, "%", c);
    HasAtStart(t, "%");
    LineEndBeyond(t, 1, c);
    LineEndStops(t, 1);
    CharAt(t, 1 + |c|, e);
    assert ("%" + c) + ([e] + rest) == t;
  }

  /** A comment on the last line takes the rest of the text. */
  lemma CommentLast(c: string)
    requires OnOneLine(c)
    ensures Apply(Comments, "%" + c) == ""
  {
    var t := "%" + c;
    Front(t, []);
    Halves(t, 0, "%", c);
    HasAtStart(t, "%");
    LineEndBeyond(t, 1, c);
    assert t + [] == t;
    ReplaceAllHit(t, [], Comments.pattern, Comments.replacement, []);
    assert Expand(Erase, []) == [];
  }

  /** A pipe separator `$|$`, with the whitespace around it and a backslash on either
      side, becomes one pipe span; the scan goes on after it. */
  lemma PipeRewrite(b1: string, w1: string, w2: string, b2: string, rest: string)
    requires b1 == "" || b1 == "\\"
    requires b2 == "" || b2 == "\\"
    requires AllSpace(w1) && AllSpace(w2)
    requires b2 == "\\" || rest == [] || (!IsSpace(rest[0]) && rest[0] != '\\')
    ensures Apply(PipeSeparator, b1 + w1 + "$|$" + w2 + b2 + rest) == PipeSpan + Apply(PipeSeparator, rest)
  {
    PipeFront(b1, w1, w2, b2, rest);
    ReplaceAllHit(b1 + w1 + "$|$" + w2 + b2, rest, Pipe, PipeSeparator.replacement, []);
    VerbatimExpand(PipeSpan, []);
  }

  /** A line break `\\` takes the whitespace after it and becomes `<br/>`. */
  lemma BreakRewrite(w: string, rest: string)
    requires AllSpace(w) && (rest == [] || !IsSpace(rest[0])) && !StartsWith(rest, "[-")
    ensures Apply(LineBreaks, "\\\\" + w + rest) == "<br/>" + Apply(LineBreaks, rest)
  {
    BreakFront(w, rest);
    ReplaceAllHit("\\\\" + w, rest, LineBreak, LineBreaks.replacement, [""]);
    VerbatimExpand("<br/>", [""]);
  }

  /** A line break with a spacing option `[-o]` on its line: the option goes too. */
  lemma BreakSpacingRewrite(w: string, o: string, rest: string)
    requires AllSpace(w) && ']' !in o && OnOneLine(o)
    ensures Apply(LineBreaks, "\\\\" + w + "[-" + o + "]" + rest) == "<br/>" + Apply(LineBreaks, rest)
  {
    BreakSpacingFront(w, o, rest);
    ReplaceAllHit("\\\\" + w + "[-" + o + "]", rest, LineBreak, LineBreaks.replacement, ["[-" + o + "]"]);
    VerbatimExpand("<br/>", ["[-" + o + "]"]);
  }

  /** Everything from `\documentclass` to the first `\begin{document}` goes, the two
      commands included. */
  lemma PreambleDropped(p: string, body: string)
    requires !Includes(p, "\\begin{document}")
    ensures Apply(Preamble, "\\documentclass" + p + "\\begin{document}" + body) == body
  {
    var x := "\\documentclass" + p + "\\begin{document}";
    PreambleMatch(p, body);
    assert (x + body)[|x|..] == body;
  }

  lemma PreambleMatch(p: string, body: string)
    requires !Includes(p, "\\begin{document}")
    ensures Match(Preamble.pattern, "\\documentclass" + p + "\\begin{document}" + body)
      == Some(Capture(|"\\documentclass" + p + "\\begin{document}"|, [p]))
  {
    DocumentStartUnique();
    BetweenFirst("\\documentclass", p, "\\begin{document}", body);
  }

  lemma DocumentStartUnique()
    ensures "\\begin{document}"[0] !in "\\begin{document}"[1..]
  {
  }

  lemma EmDashRewrite(rest: string)
    ensures Apply(EmDash, "--" + rest) == "&mdash;" + Apply(EmDash, rest)
  {
    Front("--", rest);
    HasAtStart("--" + rest, "--");
    ReplaceAllHit("--", rest, EmDash.pattern, EmDash.replacement, []);
    VerbatimExpand("&mdash;", []);
  }

  /** The name line of the header becomes the page title. */
  lemma HeaderToTitle(n: string, rest: string)
    requires '}' !in n && OnOneLine(n)
    ensures Apply(HeaderName, HeaderOpen + n + "}" + rest) == NameOpen + n + "</h1>" + Apply(HeaderName, rest)
  {
    NoChar(n, '}');
    BetweenOnLineFirst(HeaderOpen, n, "}", rest);
    ReplaceAllHit(HeaderOpen + n + "}", rest, HeaderName.pattern, HeaderName.replacement, [n]);
    WrapExpand(NameOpen, "</h1>", [n]);
  }

  /** Once it is a title, the bold rule that runs later leaves the name alone. */
  lemma TitleNotBold(n: string, rest: string)
    requires !Includes(n, "\\textbf{")
    ensures Apply(Bold, NameOpen + n + "</h1>" + rest) == NameOpen + n + "</h1>" + Apply(Bold, rest)
  {
    assert '\\' !in NameOpen;
    BoldSkipsWrapped(NameOpen, n, "</h1>", rest);
  }

  /** Text `h n c` whose outer parts hold no backslash, with `c` opening with `<`, is passed
      over by the bold rule unless `n` itself holds a bold opener. */
  lemma BoldSkipsWrapped(h: string, n: string, c: string, rest: string)
    requires '\\' !in h && '\\' !in c && c != [] && c[0] == '<' && !Includes(n, "\\textbf{")
    ensures ReplaceAll(h + n + c + rest, Bold.pattern, Bold.replacement)
      == h + n + c + ReplaceAll(rest, Bold.pattern, Bold.replacement)
  {
    var p, r := Bold.pattern, Bold.replacement;
    Regroup(h, n, c, rest);
    Regroup(h, n, c, ReplaceAll(rest, p, r));
    ReplaceAllSkips(h, n + (c + rest), p, r);
    forall k | 0 <= k < |n| ensures Match(p, (n + (c + rest))[k..]).None? {
      BoldNotInName(n, c + rest, k);
    }
    ReplaceAllKeepsText(n, c + rest, p, r);
    ReplaceAllSkips(c, rest, p, r);
  }

  lemma BoldNotInName(n: string, tail: string, k: nat)
    requires k <= |n| && tail != [] && tail[0] == '<' && !Includes(n, "\\textbf{")
    ensures Match(Bold.pattern, (n + tail)[k..]).None?
  {
    NoStartAcross(n, tail, "\\textbf{", k);
    IsBetween("\\textbf{", "}", (n + tail)[k..]);
  }

  /** `open x }` with no `}` in `x` becomes `before x after`. */
  lemma BetweenRewrite(rule: Rule, open: string, before: string, after: string, x: string, rest: string)
    requires rule == Rule(Between(open, "}"), Wrap(before, after), Global)
    requires open != [] && '}' !in x
    ensures Apply(rule, open + x + "}" + rest) == before + x + after + Apply(rule, rest)
  {
    NoChar(x, '}');
    BetweenFirst(open, x, "}", rest);
    ReplaceAllHit(open + x + "}", rest, rule.pattern, rule.replacement, [x]);
    WrapExpand(before, after, [x]);
  }

  /** Were the header left to the bold rule, the name would become bold text with the size and
      small-caps commands still inside it; the header rule runs first for that reason. */
  lemma HeaderWouldBeBold(n: string, rest: string)
    requires '}' !in n
    ensures Apply(Bold, HeaderOpen + n + "}" + rest)
      == "<strong>" + (HeaderStyle + n) + "</strong>" + Apply(Bold, rest)
  {
    assert HeaderOpen + n == "\\textbf{" + (HeaderStyle + n);
    BetweenRewrite(Bold, "\\textbf{", "<strong>", "</strong>", HeaderStyle + n, rest);
  }

  lemma BoldRewrite(x: string, rest: string)
    requires '}' !in x
    ensures Apply(Bold, "\\textbf{" + x + "}" + rest) == "<strong>" + x + "</strong>" + Apply(Bold, rest)
  {
    BetweenRewrite(Bold, "\\textbf{", "<strong>", "</strong>", x, rest);
  }

  lemma ItalicRewrite(x: string, rest: string)
    requires '}' !in x
    ensures Apply(Italic, "\\textit{" + x + "}" + rest) == "<em>" + x + "</em>" + Apply(Italic, rest)
  {
    BetweenRewrite(Italic, "\\textit{", "<em>", "</em>", x, rest);
  }

  lemma UnderlineRewrite(x: string, rest: string)
    requires '}' !in x
    ensures Apply(Underline, "\\underline{" + x + "}" + rest) == "<u>" + x + "</u>" + Apply(Underline, rest)
  {
    BetweenRewrite(Underline, "\\underline{", "<u>", "</u>", x, rest);
  }

  /** `\resumeItem{x}` becomes a list entry. */
  lemma ResumeItemRewrite(x: string, rest: string)
    requires '}' !in x
    ensures Apply(ResumeItem, "\\resumeItem{" + x + "}" + rest) == "<li>" + x + "</li>" + Apply(ResumeItem, rest)
  {
    BetweenRewrite(ResumeItem, "\\resumeItem{", "<li>", "</li>", x, rest);
  }

  /** The center callback picks the grid exactly when the content mentions `minipage`: the
      first of its two needles contains the second. */
  lemma CenterNeedlesMean(c: string)
    ensures AnyIncluded(c, CenterNeedles) <==> Includes(c, "minipage")
  {
    if Includes(c, "\\begin{minipage}") {
      IncludesAt(c, "\\begin{minipage}");
      var k :| 0 <= k <= |c| && StartsWith(c[k..], "\\begin{minipage}");
      assert c[k + 7..][..8] == c[k..][..16][7..15];
      IncludesAt(c, "minipage");
      assert StartsWith(c[k + 7..], "minipage");
    }
    if Includes(c, "minipage") {
      assert Includes(c, CenterNeedles[1]);
    }
  }

  /** A center block becomes a grid with its content as it is when the content mentions
      `minipage`, and a paragraph otherwise; the content runs to the first `\end{center}`. */
  lemma CenterBlockLayout(c: string, rest: string)
    requires !Includes(c, CenterClose)
    ensures Apply(CenterBlock, CenterOpen + c + CenterClose + rest)
      == (if Includes(c, "minipage") then GridOpen + c + "</div>" else TextOpen + c + "</p></div>")
        + Apply(CenterBlock, rest)
  {
    CenterMatch(c, rest);
    ReplaceAllHit(CenterOpen + c + CenterClose, rest, CenterBlock.pattern, CenterBlock.replacement, [c]);
    CenterExpand(c);
  }

  lemma CenterMatch(c: string, rest: string)
    requires !Includes(c, CenterClose)
    ensures Match(CenterBlock.pattern, CenterOpen + c + CenterClose + rest)
      == Some(Capture(|CenterOpen + c + CenterClose|, [c]))
  {
    assert CenterClose[0] !in CenterClose[1..];
    BetweenFirst(CenterOpen, c, CenterClose, rest);
  }

  lemma CenterExpand(c: string)
    ensures Expand(CenterBlock.replacement, [c])
      == if Includes(c, "minipage") then GridOpen + c + "</div>" else TextOpen + c + "</p></div>"
  {
    CenterNeedlesMean(c);
    WrapExpand(GridOpen, "</div>", [c]);
    WrapExpand(TextOpen, "</p></div>", [c]);
  }

  /** A column opener, with or without its width option, becomes a column. */
  lemma MinipageColumn(w: string, rest: string)
    requires '}' !in w && OnOneLine(w)
    ensures Apply(MinipageStart, MinipageOpen + "{" + w + "}" + rest) == ColumnOpen + Apply(MinipageStart, rest)
  {
    MinipagePlain(w, rest);
    ReplaceAllHit(MinipageOpen + "{" + w + "}", rest, MinipageBegin, MinipageStart.replacement, [""]);
    VerbatimExpand(ColumnOpen, [""]);
  }

  lemma MinipageColumnWidth(o: string, w: string, rest: string)
    requires ']' !in o && OnOneLine(o) && '}' !in w && OnOneLine(w)
    ensures Apply(MinipageStart, MinipageOpen + "[" + o + "]" + "{" + w + "}" + rest)
      == ColumnOpen + Apply(MinipageStart, rest)
  {
    MinipageWidth(o, w, rest);
    ReplaceAllHit(MinipageOpen + "[" + o + "]" + "{" + w + "}", rest, MinipageBegin, MinipageStart.replacement,
      ["[" + o + "]"]);
    VerbatimExpand(ColumnOpen, ["[" + o + "]"]);
  }

  /** `<a href="$i">$j</a>` */
  lemma LinkExpand(pieces: seq<Piece>, groups: seq<string>, i: nat, j: nat)
    requires pieces == [Chunk("<a href=\""), Group(i), Chunk("\">"), Group(j), Chunk("</a>")]
    requires 1 <= i <= |groups| && 1 <= j <= |groups|
    ensures Render(pieces, groups) == "<a href=\"" + groups[i - 1] + "\">" + groups[j - 1] + "</a>"
  {
    assert Render(pieces[4..], groups) == "</a>";
    assert Render(pieces[3..], groups) == groups[j - 1] + "</a>";
    assert Render(pieces[2..], groups) == "\">" + groups[j - 1] + "</a>";
  }

  lemma HrefRewrite(u: string, l: string, rest: string)
    requires '}' !in u && '}' !in l
    ensures Apply(HrefLink, "\\href{" + u + "}" + "{" + l + "}" + rest)
      == "<a href=\"" + u + "\">" + l + "</a>" + Apply(HrefLink, rest)
  {
    HrefArgs(u, l, rest);
    ReplaceAllHit("\\href{" + u + "}" + "{" + l + "}", rest, Href, HrefLink.replacement, [u, l]);
    LinkExpand(HrefLink.replacement.pieces, [u, l], 1, 2);
  }

  /** A bare URL is both the target and the label of its link. */
  lemma UrlRewrite(u: string, rest: string)
    requires '}' !in u
    ensures Apply(UrlLink, "\\url{" + u + "}" + rest) == "<a href=\"" + u + "\">" + u + "</a>" + Apply(UrlLink, rest)
  {
    NoChar(u, '}');
    BetweenFirst("\\url{", u, "}", rest);
    ReplaceAllHit("\\url{" + u + "}", rest, UrlLink.pattern, UrlLink.replacement, [u]);
    LinkExpand(UrlLink.replacement.pieces, [u], 1, 1);
  }

  /** Numbered and unnumbered sections both become section titles. */
  lemma SectionRewrite(star: string, x: string, rest: string)
    requires star == "" || star == "*"
    requires '}' !in x
    ensures Apply(Sections, "\\section" + star + "{" + x + "}" + rest) == SectionOpen + x + "</h2>" + Apply(Sections, rest)
  {
    SectionArg(star, x, rest);
    ReplaceAllHit("\\section" + star + "{" + x + "}", rest, SectionTitle, Sections.replacement, [x]);
    WrapExpand(SectionOpen, "</h2>", [x]);
  }

  /** An itemize with options: it loses its bullets exactly when the options mention
      `label={}`; the bullet-less rule comes first, and the general rule then takes any other
      option list with the opener. */
  lemma ItemizeRewrite(o: string, rest: string)
    requires ']' !in o && OnOneLine(o)
    ensures Apply(ItemizeStart, Apply(NoBulletStart, ItemizeOpen + "[" + o + "]" + rest))
      == (if Includes(o, "label={}") then NoBulletOpen else ListOpen)
        + Apply(ItemizeStart, Apply(NoBulletStart, rest))
  {
    if Includes(o, "label={}") {
      NoBulletRewrite(o, rest);
    } else {
      OptionsRewrite(o, rest);
    }
  }

  lemma NoBulletRewrite(o: string, rest: string)
    requires ']' !in o && Includes(o, "label={}")
    ensures Apply(ItemizeStart, Apply(NoBulletStart, ItemizeOpen + "[" + o + "]" + rest))
      == NoBulletOpen + Apply(ItemizeStart, Apply(NoBulletStart, rest))
  {
    NoBulletFirst(o, rest);
    NoBulletLacksBackslash();
    ReplaceAllSkips(NoBulletOpen, Apply(NoBulletStart, rest), ItemizeBegin, ItemizeStart.replacement);
  }

  lemma NoBulletLacksBackslash() ensures '\\' !in NoBulletOpen {}

  lemma NoBulletFirst(o: string, rest: string)
    requires ']' !in o && Includes(o, "label={}")
    ensures Apply(NoBulletStart, ItemizeOpen + "[" + o + "]" + rest) == NoBulletOpen + Apply(NoBulletStart, rest)
  {
    NoBulletOptions(o, rest);
    ReplaceAllHit(ItemizeOpen + "[" + o + "]", rest, NoBulletList, NoBulletStart.replacement, []);
    VerbatimExpand(NoBulletOpen, []);
  }

  lemma OptionsRewrite(o: string, rest: string)
    requires ']' !in o && OnOneLine(o) && !Includes(o, "label={}")
    ensures Apply(ItemizeStart, Apply(NoBulletStart, ItemizeOpen + "[" + o + "]" + rest))
      == ListOpen + Apply(ItemizeStart, Apply(NoBulletStart, rest))
  {
    var x := ItemizeOpen + "[" + o + "]";
    var r := Apply(NoBulletStart, rest);
    NoBulletSkipsOptions(o, rest);
    ItemizeOptions(o, r);
    ReplaceAllHit(x, r, ItemizeBegin, ItemizeStart.replacement, ["[" + o + "]"]);
    VerbatimExpand(ListOpen, ["[" + o + "]"]);
  }

  /** An opener whose options do not mention `label={}` is passed over by the bullet-less
      rule, whatever the options hold: no bullet-less opener starts inside it either. */
  lemma NoBulletSkipsOptions(o: string, rest: string)
    requires ']' !in o && !Includes(o, "label={}")
    ensures Apply(NoBulletStart, ItemizeOpen + "[" + o + "]" + rest)
      == ItemizeOpen + "[" + o + "]" + Apply(NoBulletStart, rest)
  {
    var x := ItemizeOpen + "[" + o + "]";
    forall k | 0 <= k < |x| ensures Match(NoBulletList, (x + rest)[k..]).None? {
      NoBulletAtOption(o, rest, k);
    }
    ReplaceAllKeepsText(x, rest, NoBulletList, NoBulletStart.replacement);
  }

  lemma NoBulletAtOption(o: string, rest: string, k: nat)
    requires ']' !in o && !Includes(o, "label={}") && k < 17 + |o|
    ensures Match(NoBulletList, (ItemizeOpen + "[" + o + "]" + rest)[k..]).None?
  {
    if k == 0 {
      var t := ItemizeOpen + "[" + o + "]" + rest;
      assert t[0..] == t;
      NoBulletOptions(o, rest);
    } else if k < 16 {
      NoBulletInOpenerAt(o, rest, k);
    } else {
      NoBulletInOptionsAt(o, rest, k);
    }
  }

  lemma NoBulletInOpenerAt(o: string, rest: string, k: nat)
    requires 1 <= k < 16
    ensures Match(NoBulletList, (ItemizeOpen + "[" + o + "]" + rest)[k..]).None?
  {
    CharInFront(ItemizeOpen + "[", o, "]", rest, k);
    NoBulletInOpener(ItemizeOpen + "[" + o + "]" + rest, k);
  }

  lemma NoBulletInOptionsAt(o: string, rest: string, k: nat)
    requires ']' !in o && !Includes(o, "label={}") && 16 <= k < 17 + |o|
    ensures Match(NoBulletList, (ItemizeOpen + "[" + o + "]" + rest)[k..]).None?
  {
    var x := ItemizeOpen + "[";
    assert |x| == 16;
    SuffixInside(x, o, "]", rest, k);
    NoBulletInOptions(o, rest, k - 16);
  }

  lemma NoBulletInOpener(t: string, k: nat)
    requires 1 <= k < 16 && k < |t| && t[k] == (ItemizeOpen + "[")[k]
    ensures Match(NoBulletList, t[k..]).None?
  {
    assert '\\' !in (ItemizeOpen + "[")[1..];
    assert t[k..][0] == t[k];
    if Match(NoBulletList, t[k..]).Some? {
      MatchLead(NoBulletList, t[k..]);
    }
  }

  lemma NoBulletInOptions(o: string, rest: string, j: nat)
    requires ']' !in o && !Includes(o, "label={}") && j <= |o|
    ensures Match(NoBulletList, o[j..] + "]" + rest).None?
  {
    assert ']' !in o[j..];
    ExcludedFromSuffix(o, j, "label={}");
    NoBulletInside(o[j..], rest);
  }

  /** The bullet-less rule never writes a `[` at the front. */
  lemma NoBulletKeepsFront(s: string)
    requires s != [] && s[0] != '['
    ensures Apply(NoBulletStart, s) != [] && Apply(NoBulletStart, s)[0] != '['
  {
    match Match(NoBulletList, s)
    case Some(m) =>
      VerbatimExpand(NoBulletOpen, m.groups);
      assert Apply(NoBulletStart, s) == NoBulletOpen + Apply(NoBulletStart, s[m.len..]);
    case None =>
      ReplaceAllMiss(s, NoBulletList, NoBulletStart.replacement);
  }

  lemma NoBulletNeedsOptions(rest: string)
    requires rest == [] || rest[0] != '['
    ensures Match(NoBulletList, ItemizeOpen + rest).None?
  {
    var t := ItemizeOpen + rest;
    IsNoBulletList(t);
    if |t| > 15 {
      assert t[15] == rest[0];
      DiffersAt(t, ItemizeOpen + "[", 15);
    }
  }

  /** An itemize without options is a bulleted list. */
  lemma ItemizePlainRewrite(rest: string)
    requires rest == [] || rest[0] != '['
    ensures Apply(ItemizeStart, Apply(NoBulletStart, ItemizeOpen + rest))
      == ListOpen + Apply(ItemizeStart, Apply(NoBulletStart, rest))
  {
    var r := Apply(NoBulletStart, rest);
    NoBulletNeedsOptions(rest);
    assert '\\' !in ItemizeOpen[1..];
    ReplaceAllPasses(ItemizeOpen, rest, NoBulletList, NoBulletStart.replacement);
    if rest != [] {
      NoBulletKeepsFront(rest);
    }
    ItemizePlain(r);
    Front(ItemizeOpen, r);
    ReplaceAllHit(ItemizeOpen, r, ItemizeBegin, ItemizeStart.replacement, [""]);
    VerbatimExpand(ListOpen, [""]);
  }

  /** An item runs from the whitespace after `\item` to the next marker, which is left for
      the next match. */
  lemma ItemRewrite(w: string, x: string, rest: string)
    requires w != [] && AllSpace(w) && (x == [] || !IsSpace(x[0])) && '\\' !in x
    requires AtListMarker(rest)
    ensures Apply(ListItem, "\\item" + w + x + rest) == "<li>" + x + "</li>" + Apply(ListItem, rest)
  {
    ItemToMarker(w, x, rest);
    ReplaceAllHit("\\item" + w + x, rest, Item, ListItem.replacement, [x, MarkerText(rest)]);
    WrapExpand("<li>", "</li>", [x, MarkerText(rest)]);
  }

  /** An item with no marker after it is left as it is. */
  lemma ItemUnclosedKept(w: string, x: string)
    requires w != [] && AllSpace(w) && MarkerFree(x)
    ensures Apply(ListItem, "\\item" + w + x) == "\\item" + w + x
  {
    var a := "\\item" + w + x;
    forall j | 0 <= j < |a| ensures Match(Item, a[j..]).None? {
      ItemUnclosedNowhere(w, x, j);
    }
    ReplaceAllNoMatch(a, Item, ListItem.replacement);
  }

  /** Whitespace holds no backslash. */
  lemma SpaceNotBackslash(w: string)
    requires AllSpace(w)
    ensures '\\' !in w
  {
    forall k | 0 <= k < |w| ensures w[k] != '\\' {
      assert IsSpace(w[k]);
    }
  }

  /** The rules of the list group other than the item rule do nothing at an `\item`: each needs
      another word after the backslash. */
  lemma ItemSkipped(rule: Rule, w: string, x: string, b: string)
    requires rule in [NoBulletStart, ItemizeStart, ItemListStart, ItemizeEnd, ItemListEnd, ResumeItem]
    requires AllSpace(w) && '\\' !in x
    ensures Apply(rule, "\\item" + w + x + b) == "\\item" + w + x + Apply(rule, b)
  {
    var a := "\\item" + w + x;
    assert (a + b)[1] == 'i';
    NoMatchAtI(rule, a + b);
    SpaceNotBackslash(w);
    assert a[1..] == "item" + w + x;
    ReplaceAllPasses(a, b, rule.pattern, rule.replacement);
  }

  /** None of these rules matches where the second character is an `i`; each is global and
      leads with a backslash. */
  lemma NoMatchAtI(rule: Rule, t: string)
    requires rule in [NoBulletStart, ItemizeStart, ItemListStart, ItemizeEnd, ItemListEnd, ResumeItem]
    requires |t| > 1 && t[1] == 'i'
    ensures rule.mode == Global && Lead(rule.pattern) == Some('\\') && Match(rule.pattern, t).None?
  {
    if rule == NoBulletStart {
      IsNoBulletList(t);
      DiffersAt(t, ItemizeOpen + "[", 1);
    } else if rule == ItemizeStart {
      IsItemizeBegin(t);
      DiffersAt(t, ItemizeOpen, 1);
    } else if rule == ResumeItem {
      IsBetween("\\resumeItem{", "}", t);
      DiffersAt(t, "\\resumeItem{", 1);
    } else {
      DiffersAt(t, rule.pattern.text, 1);
    }
  }

  /** The openers leave a list end alone, and go on after it. */
  lemma EndSkipped(rule: Rule, rest: string)
    requires rule in [NoBulletStart, ItemizeStart, ItemListStart]
    ensures Apply(rule, "\\end{itemize}" + rest) == "\\end{itemize}" + Apply(rule, rest)
  {
    var t := "\\end{itemize}" + rest;
    assert t[1] == 'e';
    if rule == NoBulletStart {
      IsNoBulletList(t);
      DiffersAt(t, ItemizeOpen + "[", 1);
    } else if rule == ItemizeStart {
      IsItemizeBegin(t);
      DiffersAt(t, ItemizeOpen, 1);
    } else {
      DiffersAt(t, rule.pattern.text, 1);
    }
    ReplaceAllPasses("\\end{itemize}", rest, rule.pattern, rule.replacement);
  }

  /** A list end becomes `</ul>`, and the scan goes on after it. */
  lemma EndClosed(rest: string)
    ensures Apply(ItemizeEnd, "\\end{itemize}" + rest) == "</ul>" + Apply(ItemizeEnd, rest)
  {
    var e := "\\end{itemize}";
    assert StartsWith(e, e);
    StartsWithAppend(e, rest, e);
    ReplaceAllHit(e, rest, ItemizeEnd.pattern, ItemizeEnd.replacement, []);
    VerbatimExpand("</ul>", []);
  }

  /** The list end is rewritten before the item rule runs, so the item rule cannot see it: the
      last item of a list, whose text runs up to the list end, is left unwrapped. */
  lemma LastItemUnwrapped(w: string, x: string)
    requires w != [] && AllSpace(w) && '\\' !in x
    ensures Pipeline(Lists, "\\item" + w + x + "\\end{itemize}") == "\\item" + w + x + "</ul>"
  {
    var a := "\\item" + w + x;
    ListsInOrder(a + "\\end{itemize}");
    ItemOpenersSkipped(w, x);
    ItemAfterEnd(w, x);
  }

  lemma ItemOpenersSkipped(w: string, x: string)
    requires AllSpace(w) && '\\' !in x
    ensures var t := "\\item" + w + x + "\\end{itemize}";
      Apply(ItemizeEnd, Apply(ItemListStart, Apply(ItemizeStart, Apply(NoBulletStart, t))))
        == "\\item" + w + x + "</ul>"
  {
    var e := "\\end{itemize}";
    assert e + [] == e && "</ul>" + [] == "</ul>";
    ItemSkipped(NoBulletStart, w, x, e);
    EndSkipped(NoBulletStart, []);
    ItemSkipped(ItemizeStart, w, x, e);
    EndSkipped(ItemizeStart, []);
    ItemSkipped(ItemListStart, w, x, e);
    EndSkipped(ItemListStart, []);
    ItemSkipped(ItemizeEnd, w, x, e);
    EndClosed([]);
  }

  lemma ItemAfterEnd(w: string, x: string)
    requires w != [] && AllSpace(w) && '\\' !in x
    ensures var t := "\\item" + w + x + "</ul>";
      Apply(ResumeItem, Apply(ListItem, Apply(ItemListEnd, t))) == t
  {
    var t := "\\item" + w + x + "</ul>";
    ItemBeforeEndKept(ItemListEnd, w, x);
    assert Apply(ItemListEnd, t) == t;
    BackslashFreeMarkerFree(x + "</ul>");
    ItemUnclosedKept(w, x + "</ul>");
    assert t == "\\item" + w + (x + "</ul>");
    assert Apply(ListItem, t) == t;
    ItemBeforeEndKept(ResumeItem, w, x);
  }

  lemma ItemBeforeEndKept(rule: Rule, w: string, x: string)
    requires rule in [ItemListEnd, ResumeItem]
    requires AllSpace(w) && '\\' !in x
    ensures Apply(rule, "\\item" + w + x + "</ul>") == "\\item" + w + x + "</ul>"
  {
    ItemSkipped(rule, w, x, "</ul>");
    ReplaceAllSkips("</ul>", [], rule.pattern, rule.replacement);
    assert "</ul>" + [] == "</ul>";
  }

  /** An opener on a line of its own, as it follows the end of a previous list. */
  const NextOpener := "\n" + ItemizeOpen + "\n"
  const NextList := "\n" + ListOpen + "\n"

  /** Two lists in a row, one item each. The first list's end is rewritten before the item
      rule runs, so the lazy text of its item does not stop there: it runs on over `</ul>` and
      the next opener, up to the `\item` of the second list, which is left unwrapped. */
  lemma ItemRunsIntoNextList(w: string, x: string, v: string, y: string)
    requires w != [] && AllSpace(w) && (x == [] || !IsSpace(x[0])) && '\\' !in x
    requires v != [] && AllSpace(v) && '\\' !in y
    ensures Pipeline(Lists, "\\item" + w + x + ("\\end{itemize}" + (NextOpener + ("\\item" + v + y + "\\end{itemize}"))))
      == "<li>" + (x + ("</ul>" + NextList)) + "</li>" + ("\\item" + v + y + "</ul>")
  {
    var b := "\\item" + v + y + "\\end{itemize}";
    var s := "\\item" + w + x + ("\\end{itemize}" + (NextOpener + b));
    ListsInOrder(s);
    OpenersOverTwoLists(w, x, v, y);
    EndsOverTwoLists(w, x, v, y);
    ItemsOverTwoLists(w, x, v, y);
  }

  lemma OpenersOverTwoLists(w: string, x: string, v: string, y: string)
    requires AllSpace(w) && '\\' !in x && AllSpace(v) && '\\' !in y
    ensures var b := "\\item" + v + y + "\\end{itemize}";
      Apply(ItemListStart, Apply(ItemizeStart, Apply(NoBulletStart,
        "\\item" + w + x + ("\\end{itemize}" + (NextOpener + b)))))
      == "\\item" + w + x + ("\\end{itemize}" + (NextList + b))
  {
    var b := "\\item" + v + y + "\\end{itemize}";
    FirstListKept(NoBulletStart, w, x, NextOpener + b);
    NextOpenerKept(NoBulletStart, b);
    BodyKept(NoBulletStart, v, y);
    FirstListKept(ItemizeStart, w, x, NextOpener + b);
    NextOpenerOpened(b);
    BodyKept(ItemizeStart, v, y);
    FirstListKept(ItemListStart, w, x, NextList + b);
    NextListSkipped(ItemListStart, b);
    BodyKept(ItemListStart, v, y);
  }

  lemma EndsOverTwoLists(w: string, x: string, v: string, y: string)
    requires AllSpace(w) && '\\' !in x && AllSpace(v) && '\\' !in y
    ensures var b := "\\item" + v + y + "\\end{itemize}";
      Apply(ItemListEnd, Apply(ItemizeEnd, "\\item" + w + x + ("\\end{itemize}" + (NextList + b))))
      == "\\item" + w + x + ("</ul>" + (NextList + ("\\item" + v + y + "</ul>")))
  {
    var e := "\\end{itemize}";
    var b := "\\item" + v + y + e;
    var c := "\\item" + v + y + "</ul>";
    ItemSkipped(ItemizeEnd, w, x, e + (NextList + b));
    EndClosed(NextList + b);
    NextListSkipped(ItemizeEnd, b);
    ItemSkipped(ItemizeEnd, v, y, e);
    EndClosed([]);
    assert e + [] == e && "</ul>" + [] == "</ul>";
    ItemSkipped(ItemListEnd, w, x, "</ul>" + (NextList + c));
    ReplaceAllSkips("</ul>", NextList + c, ItemListEnd.pattern, ItemListEnd.replacement);
    NextListSkipped(ItemListEnd, c);
    ItemBeforeEndKept(ItemListEnd, v, y);
  }

  lemma ItemsOverTwoLists(w: string, x: string, v: string, y: string)
    requires w != [] && AllSpace(w) && (x == [] || !IsSpace(x[0])) && '\\' !in x
    requires v != [] && AllSpace(v) && '\\' !in y
    ensures var c := "\\item" + v + y + "</ul>";
      Apply(ResumeItem, Apply(ListItem, "\\item" + w + x + ("</ul>" + (NextList + c))))
      == "<li>" + (x + ("</ul>" + NextList)) + "</li>" + c
  {
    var c := "\\item" + v + y + "</ul>";
    var x' := x + ("</ul>" + NextList);
    FirstItemRunsOn(w, x, v, y);
    var a := "<li>" + x' + "</li>";
    MarkupLacksBackslash();
    ReplaceAllSkips(a, c, ResumeItem.pattern, ResumeItem.replacement);
    ItemBeforeEndKept(ResumeItem, v, y);
  }

  lemma FirstItemRunsOn(w: string, x: string, v: string, y: string)
    requires w != [] && AllSpace(w) && (x == [] || !IsSpace(x[0])) && '\\' !in x
    requires v != [] && AllSpace(v) && '\\' !in y
    ensures var c := "\\item" + v + y + "</ul>";
      Apply(ListItem, "\\item" + w + x + ("</ul>" + (NextList + c)))
      == "<li>" + (x + ("</ul>" + NextList)) + "</li>" + c
  {
    var c := "\\item" + v + y + "</ul>";
    var x' := x + ("</ul>" + NextList);
    RunOnText(w, x, c);
    assert StartsWith(c, "\\item");
    ItemRewrite(w, x', c);
    BackslashFreeMarkerFree(y + "</ul>");
    ItemUnclosedKept(v, y + "</ul>");
    assert "\\item" + v + (y + "</ul>") == c;
  }

  /** The first item's text, taken on over the first list's end and the next opener. */
  lemma RunOnText(w: string, x: string, c: string)
    requires (x == [] || !IsSpace(x[0])) && '\\' !in x
    ensures var x' := x + ("</ul>" + NextList);
      && "\\item" + w + x + ("</ul>" + (NextList + c)) == "\\item" + w + x' + c
      && (x' == [] || !IsSpace(x'[0])) && '\\' !in x'
  {
    var x' := x + ("</ul>" + NextList);
    if x == [] {
      assert x' == "</ul>" + NextList;
    } else {
      assert x'[0] == x[0];
    }
    MarkupLacksBackslash();
  }

  lemma MarkupLacksBackslash()
    ensures '\\' !in "<li>" && '\\' !in "</li>" && '\\' !in "</ul>" && '\\' !in NextList
  {
  }

  /** The openers pass over an item and the end of its list. */
  lemma FirstListKept(rule: Rule, w: string, x: string, b: string)
    requires rule in [NoBulletStart, ItemizeStart, ItemListStart]
    requires AllSpace(w) && '\\' !in x
    ensures Apply(rule, "\\item" + w + x + ("\\end{itemize}" + b))
      == "\\item" + w + x + ("\\end{itemize}" + Apply(rule, b))
  {
    ItemSkipped(rule, w, x, "\\end{itemize}" + b);
    EndSkipped(rule, b);
  }

  /** The openers leave a list of one item alone. */
  lemma BodyKept(rule: Rule, v: string, y: string)
    requires rule in [NoBulletStart, ItemizeStart, ItemListStart]
    requires AllSpace(v) && '\\' !in y
    ensures Apply(rule, "\\item" + v + y + "\\end{itemize}") == "\\item" + v + y + "\\end{itemize}"
  {
    ItemSkipped(rule, v, y, "\\end{itemize}");
    EndSkipped(rule, []);
    assert "\\end{itemize}" + [] == "\\end{itemize}";
  }

  /** An opener without options is not one of a bullet-less list, nor an item list start. */
  lemma NextOpenerKept(rule: Rule, b: string)
    requires rule in [NoBulletStart, ItemListStart]
    ensures Apply(rule, NextOpener + b) == NextOpener + Apply(rule, b)
  {
    var u := NextOpener[1..] + b;
    assert u == ItemizeOpen + ("\n" + b);
    if rule == NoBulletStart {
      NoBulletNeedsOptions("\n" + b);
    } else {
      assert u[1] == 'b';
      DiffersAt(u, rule.pattern.text, 1);
    }
    OpenerLinePasses(rule.pattern, rule.replacement, b);
  }

  /** A pattern that starts with a backslash and does not match at the opener skips the whole
      opener line. */
  lemma OpenerLinePasses(p: Pattern, r: Replacement, b: string)
    requires Lead(p) == Some('\\') && Match(p, NextOpener[1..] + b).None?
    ensures ReplaceAll(NextOpener + b, p, r) == NextOpener + ReplaceAll(b, p, r)
  {
    var t := NextOpener + b;
    assert t[0] == '\n';
    if Match(p, t).Some? {
      MatchLead(p, t);
    }
    ReplaceAllMissJoin(NextOpener, b, p, r);
    assert '\\' !in NextOpener[1..][1..];
    ReplaceAllPasses(NextOpener[1..], b, p, r);
    PrependAssoc(NextOpener, ReplaceAll(b, p, r));
  }

  /** The plain opener of the second list is rewritten. */
  lemma NextOpenerOpened(b: string)
    ensures Apply(ItemizeStart, NextOpener + b) == NextList + Apply(ItemizeStart, b)
  {
    Regroup("\n", ItemizeOpen, "\n", b);
    ReplaceAllSkips("\n", ItemizeOpen + ("\n" + b), ItemizeBegin, ItemizeStart.replacement);
    OpenerOnItsLine(b);
    Regroup("\n", ListOpen, "\n", Apply(ItemizeStart, b));
  }

  lemma OpenerOnItsLine(b: string)
    ensures Apply(ItemizeStart, ItemizeOpen + ("\n" + b)) == ListOpen + ("\n" + Apply(ItemizeStart, b))
  {
    ItemizePlain("\n" + b);
    ReplaceAllHit(ItemizeOpen, "\n" + b, ItemizeBegin, ItemizeStart.replacement, [""]);
    VerbatimExpand(ListOpen, [""]);
    ReplaceAllSkips("\n", b, ItemizeBegin, ItemizeStart.replacement);
  }

  /** Written markup holds no backslash, so the rules that lead with one pass over it. */
  lemma NextListSkipped(rule: Rule, b: string)
    requires rule in [ItemListStart, ItemizeEnd, ItemListEnd]
    ensures Apply(rule, NextList + b) == NextList + Apply(rule, b)
  {
    assert '\\' !in NextList;
    ReplaceAllSkips(NextList, b, rule.pattern, rule.replacement);
  }

  /** The list group, one rule at a time. */
  lemma ListsInOrder(s: string)
    ensures Pipeline(Lists, s) == Apply(ResumeItem, Apply(ListItem, Apply(ItemListEnd, Apply(ItemizeEnd,
      Apply(ItemListStart, Apply(ItemizeStart, Apply(NoBulletStart, s)))))))
  {
    var s1 := Apply(NoBulletStart, s);
    var s2 := Apply(ItemizeStart, s1);
    var s3 := Apply(ItemListStart, s2);
    var s4 := Apply(ItemizeEnd, s3);
    var s5 := Apply(ItemListEnd, s4);
    var s6 := Apply(ListItem, s5);
    assert Lists[0..] == Lists;
    PipelineFrom(Lists, 0, s);
    PipelineFrom(Lists, 1, s1);
    PipelineFrom(Lists, 2, s2);
    PipelineFrom(Lists, 3, s3);
    PipelineFrom(Lists, 4, s4);
    PipelineFrom(Lists, 5, s5);
    PipelineFrom(Lists, 6, s6);
    assert Lists[7..] == [];
  }

  /** A `\resumeSubheading` with four arguments becomes an entry: the first two in the header
      row, the first of them bold, the last two in the details row, the third in italics. */
  lemma EntryRewrite(ws: seq<string>, args: seq<string>, rest: string)
    requires |ws| == |args| == 4
    requires forall i :: 0 <= i < 4 ==> AllSpace(ws[i]) && '}' !in args[i]
    ensures Apply(Entries, SubheadingOpen + ArgText(ws, args) + rest)
      == Entry(args[0], args[1], args[2], args[3]) + Apply(Entries, rest)
  {
    var head := SubheadingOpen + ArgText(ws, args);
    SubheadingArgs(ws, args, rest);
    ReplaceAllHit(head, rest, Subheading, Entries.replacement, args);
    FourFields(EntryTemplate, args, EntryOpen, EntryAfterFirst, EntryAfterSecond, EntryAfterThird, EntryClose);
    assert Expand(Entries.replacement, args) == Entry(args[0], args[1], args[2], args[3]);
  }

  /** The markup of one entry: header row (first field bold, then the second), details row
      (third field in italics, then the fourth). */
  function Entry(a: string, b: string, c: string, d: string): string {
    EntryOpen + (a + (EntryAfterFirst + (b + (EntryAfterSecond + (c + (EntryAfterThird + (d + EntryClose)))))))
  }

  /** A template with four groups in order between five texts. */
  lemma FourFields(e: seq<Piece>, args: seq<string>, a: string, b: string, c: string, d: string, f: string)
    requires |args| == 4
    requires e == [Chunk(a), Group(1), Chunk(b), Group(2), Chunk(c), Group(3), Chunk(d), Group(4), Chunk(f)]
    ensures Render(e, args) == a + (args[0] + (b + (args[1] + (c + (args[2] + (d + (args[3] + f)))))))
  {
    var t4 := [Chunk(f)];
    var t3 := [Chunk(d), Group(4)] + t4;
    var t2 := [Chunk(c), Group(3)] + t3;
    var t1 := [Chunk(b), Group(2)] + t2;
    assert e == [Chunk(a), Group(1)] + t1;
    assert Render(t4, args) == f by {
      assert Render(t4[1..], args) == "";
    }
    ChunkGroup(d, 4, t4, args);
    ChunkGroup(c, 3, t3, args);
    ChunkGroup(b, 2, t2, args);
    ChunkGroup(a, 1, t1, args);
  }

  /** A text followed by a group, in front of the rest of a template. */
  lemma ChunkGroup(a: string, i: nat, tail: seq<Piece>, args: seq<string>)
    requires 1 <= i <= |args|
    ensures Render([Chunk(a), Group(i)] + tail, args) == a + (args[i - 1] + Render(tail, args))
  {
    var e := [Chunk(a), Group(i)] + tail;
    assert e[1..] == [Group(i)] + tail;
    assert e[1..][1..] == tail;
  }
}
