/**
 * The chat panel's local helpers: the quick text-to-LaTeX converter, the skill finder it uses,
 * the choice between converting locally and asking the model, and the text a copy takes from
 * a reply.
 */
module Chatbot {
  import opened Text
  import opened Wrappers
  import opened JsReplace

  /* Finding skills. */

  const SkillKeywords := ["JavaScript", "TypeScript", "Python", "React", "Node.js", "Next.js",
    "Express", "MongoDB", "PostgreSQL", "Docker", "AWS", "Git", "Tailwind", "Prisma", "GraphQL",
    "REST", "API", "HTML", "CSS"]

  const SkillPlaceholders := ["Your skill 1", "Your skill 2", "Your skill 3"]

  /** The keywords the text mentions, whatever the case, kept in the order of `keywords`. */
  function Found(text: string, keywords: seq<string>): (r: seq<string>)
    ensures |r| <= |keywords|
    ensures forall s :: s in r <==> s in keywords && Mentions(text, s)
  {
    if keywords == [] then []
    else (if Mentions(text, keywords[0]) then [keywords[0]] else []) + Found(text, keywords[1..])
  }

  /** The filter keeps order: the keywords found in a concatenation are those found in the
      first part followed by those found in the second. */
  lemma {:induction false} FoundSplits(text: string, a: seq<string>, b: seq<string>)
    ensures Found(text, a + b) == Found(text, a) + Found(text, b)
    decreases |a|
  {
    if a == [] {
      assert a + b == b;
    } else {
      assert (a + b)[0] == a[0] && (a + b)[1..] == a[1..] + b;
      FoundSplits(text, a[1..], b);
    }
  }

  /** `extractSkills`: never empty; the placeholders exactly when the text mentions no keyword,
      and otherwise exactly the keywords it mentions. */
  function ExtractSkills(text: string): (r: seq<string>)
    ensures r != []
    ensures r == SkillPlaceholders <==> forall s :: s in SkillKeywords ==> !Mentions(text, s)
    ensures r != SkillPlaceholders ==> forall s :: s in r <==> s in SkillKeywords && Mentions(text, s)
  {
    var found := Found(text, SkillKeywords);
    if |found| > 0 then
      PlaceholderNotKeyword();
      assert found[0] in SkillKeywords;
      assert found[0] != SkillPlaceholders[0];
      found
    else SkillPlaceholders
  }

  lemma PlaceholderNotKeyword()
    ensures forall p :: p in SkillPlaceholders ==> p !in SkillKeywords
  {
    forall p | p in SkillPlaceholders ensures p !in SkillKeywords {
      assert p[0] == 'Y';
      forall k | 0 <= k < |SkillKeywords| ensures SkillKeywords[k][0] != 'Y' {
      }
    }
  }

  /* The quick converter. */

  const SkillsOpen := "\\section{Skills}\n" + "\\begin{itemize}\n"

  /** The skills joined into `\item` lines. */
  function SkillsList(skills: seq<string>): string {
    SkillsOpen + ("\\item " + Join(skills, "\n\\item ") + "\n") + "\\end{itemize}"
  }

  const ExperienceTemplate := "\\section{Experience}\n" + "\\resumeSubHeadingListStart\n"
    + "\\resumeSubheading{Company Name}" + "{Location}{Position}{Date}\n"
    + "\\resumeItemListStart\n" + "\\resumeItem{Accomplishment 1}\n"
    + "\\resumeItem{Accomplishment 2}\n" + "\\resumeItemListEnd\n" + "\\resumeSubHeadingListEnd"

  const EducationTemplate := "\\section{Education}\n" + "\\resumeSubHeadingListStart\n"
    + "\\resumeSubheading{University Name}" + "{Location}{Degree}{Date}\n"
    + "\\resumeSubHeadingListEnd"

  /** A request to add or create a section. */
  predicate IsRequest(t: string) {
    Mentions(t, "add") || Mentions(t, "create")
  }

  /** The section a request names, if any: skills first, then experience or work, then
      education. */
  function Template(t: string): Option<string> {
    if !IsRequest(t) then None
    else if Mentions(t, "skill") then Some(SkillsList(ExtractSkills(t)))
    else if Mentions(t, "experience") || Mentions(t, "work") then Some(ExperienceTemplate)
    else if Mentions(t, "education") then Some(EducationTemplate)
    else None
  }

  const BulletItems := Rule(Spaced("•", false), Verbatim("\\item "), Global)
  const SectionHeading := Rule(Heading("#"), Wrap("\\section{", "}"), AtStart)
  const SubsectionHeading := Rule(Heading("##"), Wrap("\\subsection{", "}"), AtStart)
  const BoldStars := Rule(BetweenOnLine("**", "**"), Wrap("\\textbf{", "}"), Global)
  const ItalicStars := Rule(BetweenOnLine("*", "*"), Wrap("\\textit{", "}"), Global)

  /** `/^#[^#]/` */
  predicate OpensSection(s: string) {
    |s| >= 2 && s[0] == '#' && s[1] != '#'
  }

  /** `/^##[^#]/` */
  predicate OpensSubsection(s: string) {
    |s| >= 3 && s[0] == '#' && s[1] == '#' && s[2] != '#'
  }

  /** A heading at the very start of the text: one `#` for a section, two for a subsection. */
  function Headings(s: string): string {
    if OpensSection(s) then Apply(SectionHeading, s)
    else if OpensSubsection(s) then Apply(SubsectionHeading, s)
    else s
  }

  const ListOpen := "\\begin{itemize}\n"
  const ListClose := "\n\\end{itemize}"

  /** The simple rules, in order: bullets, a leading heading, bold, italics. */
  function Rewritten(t: string): string {
    Apply(ItalicStars, Apply(BoldStars, Headings(Apply(BulletItems, t))))
  }

  /** The simple rules, and a list around the whole text when it holds an item. */
  function Rewrite(t: string): string {
    var r := Rewritten(t);
    if Includes(r, "\\item") then ListOpen + r + ListClose else r
  }

  /** `convertToLatex`: whatever the branch, no `•` is left in the markup. */
  function ConvertToLatex(text: string): (r: string)
    ensures '•' !in r
  {
    var t := Trim(text);
    TemplateNoBullet(t);
    RewriteNoBullet(t);
    match Template(t)
    case Some(section) => section
    case None => Rewrite(t)
  }

  /** A request that mentions skills is answered with the skills list, whatever else it
      mentions. */
  lemma SkillsRequest(text: string)
    requires var t := Trim(text); IsRequest(t) && Mentions(t, "skill")
    ensures ConvertToLatex(text) == SkillsList(ExtractSkills(Trim(text)))
  {
  }

  /** Otherwise a request that mentions experience or work gets the experience section. */
  lemma ExperienceRequest(text: string)
    requires var t := Trim(text);
      IsRequest(t) && !Mentions(t, "skill") && (Mentions(t, "experience") || Mentions(t, "work"))
    ensures ConvertToLatex(text) == ExperienceTemplate
  {
  }

  /** Education comes last among the templates. */
  lemma EducationRequest(text: string)
    requires var t := Trim(text);
      && IsRequest(t) && !Mentions(t, "skill") && !Mentions(t, "experience") && !Mentions(t, "work")
      && Mentions(t, "education")
    ensures ConvertToLatex(text) == EducationTemplate
  {
  }

  /** Anything that is not a request naming one of those sections goes through the rules. */
  lemma RulesOtherwise(text: string)
    requires var t := Trim(text);
      !IsRequest(t) || !(Mentions(t, "skill") || Mentions(t, "experience") || Mentions(t, "work")
        || Mentions(t, "education"))
    ensures ConvertToLatex(text) == Rewrite(Trim(text))
  {
  }

  /** Each skill on its own `\item` line. */
  function ItemLines(skills: seq<string>): string {
    if skills == [] then "" else "\\item " + skills[0] + "\n" + ItemLines(skills[1..])
  }

  lemma {:induction false} JoinedItems(skills: seq<string>)
    requires skills != []
    ensures "\\item " + Join(skills, "\n\\item ") + "\n" == ItemLines(skills)
    decreases |skills|
  {
    if |skills| > 1 {
      JoinedItems(skills[1..]);
      var j := Join(skills[1..], "\n\\item ");
      calc {
        "\\item " + Join(skills, "\n\\item ") + "\n";
        "\\item " + (skills[0] + "\n\\item " + j) + "\n";
        "\\item " + skills[0] + "\n" + ("\\item " + j + "\n");
      }
    }
  }

  /** No template writes a `•`. */
  lemma TemplateNoBullet(t: string)
    ensures Template(t).Some? ==> '•' !in Template(t).value
  {
    if IsRequest(t) && Mentions(t, "skill") {
      var skills := ExtractSkills(t);
      ExtractedNoBullet(t);
      SkillsListNoBullet(skills);
      assert Template(t) == Some(SkillsList(skills));
    } else if IsRequest(t) && (Mentions(t, "experience") || Mentions(t, "work")) {
      ExperienceNoBullet();
      assert Template(t) == Some(ExperienceTemplate);
    } else if IsRequest(t) && Mentions(t, "education") {
      EducationNoBullet();
      assert Template(t) == Some(EducationTemplate);
    }
  }

  lemma ExtractedNoBullet(text: string)
    ensures forall s :: s in ExtractSkills(text) ==> '•' !in s
  {
    SkillNamesNoBullet();
  }

  lemma SkillsListNoBullet(skills: seq<string>)
    requires skills != [] && forall s :: s in skills ==> '•' !in s
    ensures '•' !in SkillsList(skills)
  {
    SkillsListItems(skills);
    ItemLinesNoBullet(skills);
    assert '•' !in SkillsOpen;
  }

  /* The templates are checked a few literals at a time: searching many literals in one proof
     costs far more than searching each on its own. */

  lemma ExperienceNoBullet()
    ensures '•' !in ExperienceTemplate
  {
    ListEndsNoBullet();
    ExperienceEntryNoBullet();
    AccomplishmentsNoBullet();
  }

  lemma EducationNoBullet()
    ensures '•' !in EducationTemplate
  {
    ListEndsNoBullet();
    EducationEntryNoBullet();
  }

  lemma ListEndsNoBullet()
    ensures '•' !in "\\resumeSubHeadingListStart\n" && '•' !in "\\resumeSubHeadingListEnd"
  {
  }

  lemma ExperienceEntryNoBullet()
    ensures '•' !in "\\section{Experience}\n" && '•' !in "\\resumeSubheading{Company Name}"
    ensures '•' !in "{Location}{Position}{Date}\n"
  {
    FieldsNoBullet("{Location}{Position}{Date}\n");
  }

  lemma AccomplishmentsNoBullet()
    ensures '•' !in "\\resumeItemListStart\n" && '•' !in "\\resumeItemListEnd\n"
    ensures '•' !in "\\resumeItem{Accomplishment 1}\n" && '•' !in "\\resumeItem{Accomplishment 2}\n"
  {
  }

  lemma EducationEntryNoBullet()
    ensures '•' !in "\\section{Education}\n" && '•' !in "\\resumeSubheading{University Name}"
    ensures '•' !in "{Location}{Degree}{Date}\n"
  {
    FieldsNoBullet("{Location}{Degree}{Date}\n");
  }

  /** The field line of a template entry. */
  lemma FieldsNoBullet(fields: string)
    requires fields == "{Location}{Position}{Date}\n" || fields == "{Location}{Degree}{Date}\n"
    ensures '•' !in fields
  {
  }

  lemma SkillNamesNoBullet()
    ensures forall s :: s in SkillKeywords ==> '•' !in s
    ensures forall s :: s in SkillPlaceholders ==> '•' !in s
  {
    forall k | 0 <= k < |SkillKeywords| ensures '•' !in SkillKeywords[k] {
    }
    forall k | 0 <= k < |SkillPlaceholders| ensures '•' !in SkillPlaceholders[k] {
    }
  }

  lemma {:induction false} ItemLinesNoBullet(skills: seq<string>)
    requires forall s :: s in skills ==> '•' !in s
    ensures '•' !in ItemLines(skills)
    decreases |skills|
  {
    if skills != [] {
      ItemLinesNoBullet(skills[1..]);
    }
  }

  /** The rules write no `•` and leave none: the bullet rule replaces every one. */
  lemma RewriteNoBullet(t: string)
    ensures '•' !in Rewrite(t)
  {
    BulletsGone(t);
    RulesWriteNoBullet(Apply(BulletItems, t));
    ListNoBullet();
  }

  /** The skills list has one item line per skill, between the section heading and the end of
      the list. */
  lemma SkillsListItems(skills: seq<string>)
    requires skills != []
    ensures SkillsList(skills) == SkillsOpen + ItemLines(skills) + "\\end{itemize}"
  {
    JoinedItems(skills);
  }

  /* What the simple rules do. */

  /** Any `•` in the text yields an `\item` in the result. */
  lemma {:induction false} BulletsMakeItems(s: string)
    requires '•' in s
    ensures Includes(Apply(BulletItems, s), "\\item")
    decreases |s|
  {
    var r := Verbatim("\\item ");
    if s[0] == '•' {
      var e := SpaceEnd(s, 1);
      assert StartsWith(s, "•");
      VerbatimExpand("\\item ", []);
      assert Apply(BulletItems, s) == "\\item " + ReplaceAll(s[e..], Spaced("•", false), r);
      assert StartsWith(Apply(BulletItems, s), "\\item");
    } else {
      BulletsMakeItems(s[1..]);
      assert Match(Spaced("•", false), s).None? by {
        if Match(Spaced("•", false), s).Some? {
          MatchLead(Spaced("•", false), s);
          assert false;
        }
      }
      var out := Apply(BulletItems, s);
      assert out == [s[0]] + Apply(BulletItems, s[1..]);
      assert out[1..] == Apply(BulletItems, s[1..]);
    }
  }

  /** No `•` is left once the bullets are rewritten. */
  lemma {:induction false} BulletsGone(s: string)
    ensures '•' !in Apply(BulletItems, s)
    decreases |s|
  {
    var r := Verbatim("\\item ");
    if s != [] {
      if s[0] == '•' {
        var e := SpaceEnd(s, 1);
        assert StartsWith(s, "•");
        VerbatimExpand("\\item ", []);
        BulletsGone(s[e..]);
        assert Apply(BulletItems, s) == "\\item " + Apply(BulletItems, s[e..]);
      } else {
        BulletsGone(s[1..]);
        assert Match(Spaced("•", false), s).None? by {
          if Match(Spaced("•", false), s).Some? {
            MatchLead(Spaced("•", false), s);
            assert false;
          }
        }
        assert Apply(BulletItems, s) == [s[0]] + Apply(BulletItems, s[1..]);
      }
    }
  }

  /** A `•` and the whitespace after it become `\item `, and the scan goes on after them. */
  lemma BulletRewrite(w: string, rest: string)
    requires AllSpace(w) && (rest == [] || !IsSpace(rest[0]))
    ensures Apply(BulletItems, "•" + w + rest) == "\\item " + Apply(BulletItems, rest)
  {
    var t := "•" + w + rest;
    Front("•" + w, rest);
    Halves(t, 0, "•", w);
    HasAtStart(t, "•");
    if rest != [] {
      assert t[1 + |w|] == rest[0];
    }
    SpaceEndIs(t, 1, w);
    assert Match(BulletItems.pattern, t) == Some(Capture(1 + |w|, []));
    ReplaceAllHit("•" + w, rest, BulletItems.pattern, BulletItems.replacement, []);
    VerbatimExpand("\\item ", []);
  }

  /** Every other character is kept as it is. */
  lemma BulletKept(c: char, rest: string)
    requires c != '•'
    ensures Apply(BulletItems, [c] + rest) == [c] + Apply(BulletItems, rest)
  {
    ReplaceAllSkips([c], rest, BulletItems.pattern, BulletItems.replacement);
  }

  /** The bullet rule writes no star, and keeps a first character other than `•`. */
  lemma BulletsKeepFront(t: string)
    requires t != [] && t[0] != '#' && '*' !in t
    ensures var a := Apply(BulletItems, t); a != [] && a[0] != '#' && '*' !in a
  {
    var a := Apply(BulletItems, t);
    ApplyConfined(BulletItems, t);
    assert Literals(BulletItems.replacement) == "\\item ";
    if t[0] == '•' {
      var e := SpaceEnd(t, 1);
      assert StartsWith(t, "•");
      VerbatimExpand("\\item ", []);
      assert a == "\\item " + Apply(BulletItems, t[e..]);
    } else {
      ReplaceAllKeepsFirst(t, Spaced("•", false), Verbatim("\\item "));
    }
  }

  /** Text without a star is left alone by the bold and italic rules. */
  lemma NoStars(s: string)
    requires '*' !in s
    ensures Apply(BoldStars, s) == s && Apply(ItalicStars, s) == s
  {
    LeadAbsent(BoldStars.pattern, s);
    ApplyNoMatch(BoldStars, s);
    LeadAbsent(ItalicStars.pattern, s);
    ApplyNoMatch(ItalicStars, s);
  }

  /** Text that holds a `•` or an `\item` is put in an itemize environment, whatever else it
      holds, and no `•` is left. */
  lemma RewriteBullets(t: string)
    requires '•' in t || Includes(t, "\\item")
    ensures Rewrite(t) == ListOpen + Rewritten(t) + ListClose
    ensures '•' !in Rewrite(t)
  {
    var a := Apply(BulletItems, t);
    if '•' in t {
      BulletsMakeItems(t);
    } else {
      ItemKept(BulletItems, t);
    }
    HeadingsKeepItem(a);
    ItemKept(BoldStars, Headings(a));
    ItemKept(ItalicStars, Apply(BoldStars, Headings(a)));
    BulletsGone(t);
    RulesWriteNoBullet(a);
    ListNoBullet();
  }

  /** Star-free text that does not open with `#` goes through the bullet rule only. */
  lemma BulletsOnly(t: string)
    requires t != [] && '*' !in t && t[0] != '#'
    ensures Rewritten(t) == Apply(BulletItems, t)
  {
    var a := Apply(BulletItems, t);
    BulletsKeepFront(t);
    NoStars(a);
    assert Headings(a) == a;
  }

  /** An item already in the text survives each rule. */
  lemma ItemKept(rule: Rule, s: string)
    requires rule in [BulletItems, BoldStars, ItalicStars] && Includes(s, "\\item")
    ensures Includes(Apply(rule, s), "\\item")
  {
    var u := "\\item";
    IncludesAt(s, u);
    var k :| 0 <= k <= |s| && StartsWith(s[k..], u);
    if rule == BulletItems {
      SpacedKeeps("•", false, rule.replacement, u);
    } else if rule == BoldStars {
      BetweenOnLineKeeps("**", "**", "\\textbf{", "}", u);
    } else {
      BetweenOnLineKeeps("*", "*", "\\textit{", "}", u);
    }
    ReplaceAllKeepsWord(s, rule.pattern, rule.replacement, u, k);
  }

  lemma HeadingsKeepItem(s: string)
    requires Includes(s, "\\item")
    ensures Includes(Headings(s), "\\item")
  {
    var u := "\\item";
    IncludesAt(s, u);
    var k :| 0 <= k <= |s| && StartsWith(s[k..], u);
    if OpensSection(s) {
      HeadingKeeps("#", "\\section{", "}", u);
      ReplaceAtStartKeepsWord(s, SectionHeading.pattern, SectionHeading.replacement, u, k);
    } else if OpensSubsection(s) {
      HeadingKeeps("##", "\\subsection{", "}", u);
      ReplaceAtStartKeepsWord(s, SubsectionHeading.pattern, SubsectionHeading.replacement, u, k);
    }
  }

  /** The rules after the bullet rule write no `•`. */
  lemma RulesWriteNoBullet(a: string)
    requires '•' !in a
    ensures '•' !in Apply(ItalicStars, Apply(BoldStars, Headings(a)))
  {
    HeadingsLackBullet();
    StarsLackBullet();
    var h := Headings(a);
    if OpensSection(a) {
      RuleWritesNoBullet(SectionHeading, a);
    } else if OpensSubsection(a) {
      RuleWritesNoBullet(SubsectionHeading, a);
    }
    RuleWritesNoBullet(BoldStars, h);
    RuleWritesNoBullet(ItalicStars, Apply(BoldStars, h));
  }

  lemma RuleWritesNoBullet(rule: Rule, s: string)
    requires '•' !in s && '•' !in Literals(rule.replacement)
    ensures '•' !in Apply(rule, s)
  {
    ApplyConfined(rule, s);
  }

  lemma HeadingsLackBullet()
    ensures '•' !in Literals(SectionHeading.replacement) && '•' !in Literals(SubsectionHeading.replacement)
  {
    assert Literals(SectionHeading.replacement) == "\\section{}";
    assert Literals(SubsectionHeading.replacement) == "\\subsection{}";
  }

  lemma StarsLackBullet()
    ensures '•' !in Literals(BoldStars.replacement) && '•' !in Literals(ItalicStars.replacement)
  {
    assert Literals(BoldStars.replacement) == "\\textbf{}";
    assert Literals(ItalicStars.replacement) == "\\textit{}";
  }

  lemma ListNoBullet()
    ensures '•' !in ListOpen && '•' !in ListClose
  {
  }

  /** Text that holds a `•` or an `\item` is turned into a list: the simple rules run, and the
      whole is put in an itemize environment. */
  lemma BulletListWrapped(text: string)
    requires var t := Trim(text); Template(t).None? && ('•' in t || Includes(t, "\\item"))
    ensures ConvertToLatex(text) == ListOpen + Rewritten(Trim(text)) + ListClose
    ensures '•' !in ConvertToLatex(text)
  {
    RewriteBullets(Trim(text));
  }

  /** Text with no bullet, no star, no item and no leading `#` comes back trimmed and otherwise
      as it was. */
  lemma PlainTextKept(text: string)
    requires var t := Trim(text);
      Template(t).None? && '•' !in t && '*' !in t && !Includes(t, "\\item") && (t == [] || t[0] != '#')
    ensures ConvertToLatex(text) == Trim(text)
  {
    PlainRewrite(Trim(text));
  }

  lemma PlainRewrite(t: string)
    requires '•' !in t && '*' !in t && !Includes(t, "\\item") && (t == [] || t[0] != '#')
    ensures Rewrite(t) == t
  {
    NoBullets(t);
    NoStars(t);
  }

  lemma NoBullets(s: string)
    requires '•' !in s
    ensures Apply(BulletItems, s) == s
  {
    LeadAbsent(BulletItems.pattern, s);
    ApplyNoMatch(BulletItems, s);
  }

  /** A leading `#` line becomes a section title: the whitespace after the `#` is dropped and the
      rest of the line is the title. */
  lemma SectionTitle(w: string, x: string, rest: string)
    requires AllSpace(w) && x != [] && !IsSpace(x[0]) && (w != [] || x[0] != '#') && OnOneLine(x)
    requires rest == [] || IsLineTerminator(rest[0])
    ensures Headings("#" + w + x + rest) == "\\section{" + x + "}" + rest
  {
    var t := "#" + w + x + rest;
    HeadingRewrite("#", "\\section{", w, x, rest);
    assert OpensSection(t) by {
      if w != [] {
        assert t[1] == w[0];
      } else {
        assert t[1] == x[0];
      }
    }
  }

  /** A leading `##` line becomes a subsection title. */
  lemma SubsectionTitle(w: string, x: string, rest: string)
    requires AllSpace(w) && x != [] && !IsSpace(x[0]) && (w != [] || x[0] != '#') && OnOneLine(x)
    requires rest == [] || IsLineTerminator(rest[0])
    ensures Headings("##" + w + x + rest) == "\\subsection{" + x + "}" + rest
  {
    var t := "##" + w + x + rest;
    HeadingRewrite("##", "\\subsection{", w, x, rest);
    assert OpensSubsection(t) && !OpensSection(t) by {
      assert t[0] == '#' && t[1] == '#';
      if w != [] {
        assert t[2] == w[0];
      } else {
        assert t[2] == x[0];
      }
    }
  }

  /** `lead\s*(.+)` at the start of `lead + w + x + rest` captures the line `x`. */
  lemma HeadingLine(t: string, lead: string, w: string, x: string, rest: string)
    requires t == lead + w + x + rest && lead != []
    requires AllSpace(w) && x != [] && !IsSpace(x[0]) && OnOneLine(x)
    requires rest == [] || IsLineTerminator(rest[0])
    ensures Match(Heading(lead), t) == Some(Capture(|lead| + |w| + |x|, [x]))
  {
    var i := |lead| + |w|;
    assert HasAt(t, 0, lead + w) && HasAt(t, i, x) by {
      Front(lead + w + x, rest);
      Halves(t, 0, lead + w, x);
    }
    Halves(t, 0, lead, w);
    HasAtStart(t, lead);
    assert t[i] == x[0];
    SpaceEndAt(t, |lead|, w);
    assert !IsLineTerminator(t[i]);
    LineEndBeyond(t, i, x);
    LineEndStops(t, i);
    if i + |x| < |t| {
      assert t[i + |x|] == rest[0];
    }
    assert t[i..i + |x|] == x;
  }

  lemma HeadingRewrite(lead: string, before: string, w: string, x: string, rest: string)
    requires lead != [] && AllSpace(w) && x != [] && !IsSpace(x[0]) && OnOneLine(x)
    requires rest == [] || IsLineTerminator(rest[0])
    ensures Apply(Rule(Heading(lead), Wrap(before, "}"), AtStart), lead + w + x + rest) == before + x + "}" + rest
  {
    var t := lead + w + x + rest;
    HeadingLine(t, lead, w, x, rest);
    WrapExpand(before, "}", [x]);
    assert t[|lead| + |w| + |x|..] == rest;
  }

  /** Where a `**` pair is opened, the first `**` after the opening one closes it. */
  lemma {:induction false} StarsClose(t: string, i: nat, j: nat)
    requires i <= j && j + 2 <= |t| && StartsWith(t[j..], "**")
    requires forall k :: i <= k < j ==> !StartsWith(t[k..], "**")
    ensures IndexFrom(t, "**", i) == Some(j)
    decreases j - i
  {
    if i < j {
      StarsClose(t, i + 1, j);
    }
  }

  /** No `**` starts inside `x` when `x` followed by one star holds none. */
  lemma StarsNotInside(x: string, rest: string, k: nat)
    requires !Includes(x + "*", "**") && 2 <= k < 2 + |x|
    ensures !StartsWith(("**" + x + "**" + rest)[k..], "**")
  {
    var t := "**" + x + "**" + rest;
    if StartsWith(t[k..], "**") {
      var u := x + "*";
      StarsAround(x, rest, k);
      StarsAround(x, rest, k + 1);
      assert u[k - 2..][..2] == "**";
      IncludesAt(u, "**");
    }
  }

  /** Past the opening stars, `**x**` reads as `x*` up to its first closing star. */
  lemma StarsAround(x: string, rest: string, i: nat)
    requires 2 <= i <= 2 + |x|
    ensures ("**" + x + "**" + rest)[i] == (x + "*")[i - 2]
  {
    assert "**" + x + "**" + rest == "**" + (x + "*") + ("*" + rest);
  }

  /** A star-free `x` followed by one star holds no `**`. */
  lemma StarFreeNoPair(x: string)
    requires '*' !in x
    ensures !Includes(x + "*", "**")
  {
    var u := x + "*";
    IncludesAt(u, "**");
    forall k | 0 <= k <= |u| ensures !StartsWith(u[k..], "**") {
      if k < |x| {
        assert u[k] == x[k];
      }
    }
  }

  /** `**x**` becomes bold text, and the scan goes on after it. The lazy group stops at the
      first `**`, so `x` may hold single stars, but no `**` may start inside `x` and its last
      star. */
  lemma BoldStarsRewrite(x: string, rest: string)
    requires !Includes(x + "*", "**") && OnOneLine(x)
    ensures Apply(BoldStars, "**" + x + "**" + rest) == "\\textbf{" + x + "}" + Apply(BoldStars, rest)
  {
    var t := "**" + x + "**" + rest;
    var j := 2 + |x|;
    forall k | 2 <= k < j ensures !StartsWith(t[k..], "**") {
      StarsNotInside(x, rest, k);
    }
    assert t[j..][..2] == "**";
    StarsClose(t, 2, j);
    assert StartsWith(t, "**");
    Front("**" + x, "**" + rest);
    LineEndBeyond(t, 2, x);
    assert MatchBetweenOnLine(t, "**", "**") == Some(Capture(j + 2, [x])) by {
      assert t[2..j] == x;
    }
    ReplaceAllHit("**" + x + "**", rest, BoldStars.pattern, BoldStars.replacement, [x]);
    WrapExpand("\\textbf{", "}", [x]);
  }

  /** `*x*` becomes italic text, and the scan goes on after it. */
  lemma ItalicStarsRewrite(x: string, rest: string)
    requires '*' !in x && OnOneLine(x)
    ensures Apply(ItalicStars, "*" + x + "*" + rest) == "\\textit{" + x + "}" + Apply(ItalicStars, rest)
  {
    var t := "*" + x + "*" + rest;
    Front("*" + x + "*", rest);
    Halves(t, 0, "*" + x, "*");
    Halves(t, 0, "*", x);
    HasAtStart(t, "*");
    NoChar(x, '*');
    FirstOnLine(t, 1, x, "*");
    assert t[1..1 + |x|] == x;
    IsBetweenOnLine("*", "*", t);
    ReplaceAllHit("*" + x + "*", rest, ItalicStars.pattern, ItalicStars.replacement, [x]);
    WrapExpand("\\textit{", "}", [x]);
  }

  /** Bold runs first, so `**x**` is bold text and the italic rule finds nothing left to do. */
  lemma BoldBeforeItalic(x: string)
    requires '*' !in x && OnOneLine(x)
    ensures Apply(ItalicStars, Apply(BoldStars, "**" + x + "**")) == "\\textbf{" + x + "}"
  {
    StarFreeNoPair(x);
    BoldStarsRewrite(x, "");
    assert "**" + x + "**" + "" == "**" + x + "**";
    assert "\\textbf{" + x + "}" + "" == "\\textbf{" + x + "}";
    IncludesCharOnly(x, '*');
    IncludesCharOnly("\\textbf{" + x + "}", '*');
    NoStars("\\textbf{" + x + "}");
  }

  /** Were the italic rule to run first, `**x**` would become two empty italic groups around
      `x`. */
  lemma ItalicFirstWouldSplit(x: string)
    requires '*' !in x && OnOneLine(x)
    ensures Apply(ItalicStars, "**" + x + "**") == "\\textit{}" + x + "\\textit{}"
  {
    var p := ItalicStars.pattern;
    var r := ItalicStars.replacement;
    assert "**" + x + "**" == "**" + (x + "**");
    ItalicAtFront(x + "**");
    ReplaceAllSkips(x, "**", p, r);
    ItalicPair();
  }

  /** `**` at the front is an empty italic group, and the scan goes on after it. */
  lemma ItalicAtFront(rest: string)
    ensures ReplaceAll("**" + rest, ItalicStars.pattern, ItalicStars.replacement)
      == "\\textit{}" + ReplaceAll(rest, ItalicStars.pattern, ItalicStars.replacement)
  {
    WrapExpand("\\textit{", "}", [""]);
    EmptyItalic(rest);
    ReplaceAllHit("**", rest, ItalicStars.pattern, ItalicStars.replacement, [""]);
  }

  lemma ItalicPair()
    ensures ReplaceAll("**", ItalicStars.pattern, ItalicStars.replacement) == "\\textit{}"
  {
    ItalicAtFront([]);
    assert "**" + [] == "**";
  }

  /** `*` directly followed by `*` is an empty italic group. */
  lemma EmptyItalic(rest: string)
    ensures Match(ItalicStars.pattern, "**" + rest) == Some(Capture(2, [""]))
  {
    var t := "**" + rest;
    assert StartsWith(t, "*");
    assert StartsWith(t[1..], "*");
    assert IndexFrom(t, "*", 1) == Some(1);
    LineEndStops(t, 1);
    assert t[1..1] == "";
  }

  /* Copying a reply. */

  const FenceOpen := "```latex\n"
  const FenceClose := "\n```"

  /** What a copy keeps of a matched block: its captured body. */
  function FenceBody(c: Capture): string {
    if c.groups != [] then c.groups[0] else ""
  }

  /** The body of the first fenced LaTeX block at or after position `i`, found the way the
      lazy `[\s\S]*?` finds it. */
  function FenceFrom(content: string, i: nat): Option<string>
    requires i <= |content|
    decreases |content| - i
  {
    match Match(Between(FenceOpen, FenceClose), content[i..])
    case Some(c) => Some(FenceBody(c))
    case None => if i == |content| then None else FenceFrom(content, i + 1)
  }

  /** A fenced block starts at `k`, and none starts in `[i, k)`. */
  ghost predicate FirstFenceAt(content: string, i: nat, k: nat) {
    i <= k <= |content| && Match(Between(FenceOpen, FenceClose), content[k..]).Some? &&
    forall j :: i <= j < k ==> Match(Between(FenceOpen, FenceClose), content[j..]).None?
  }

  /** The search finds nothing exactly when no position from `i` on starts a block, and
      otherwise yields the body of the block at the first position that does. */
  lemma {:induction false} FenceFromFirst(content: string, i: nat)
    requires i <= |content|
    ensures FenceFrom(content, i).None? <==>
      forall j :: i <= j <= |content| ==> Match(Between(FenceOpen, FenceClose), content[j..]).None?
    ensures forall k: nat :: FirstFenceAt(content, i, k) ==>
      FenceFrom(content, i) == Some(FenceBody(Match(Between(FenceOpen, FenceClose), content[k..]).value))
    decreases |content| - i
  {
    if Match(Between(FenceOpen, FenceClose), content[i..]).None? && i < |content| {
      FenceFromFirst(content, i + 1);
      forall k: nat | FirstFenceAt(content, i, k)
        ensures FirstFenceAt(content, i + 1, k)
      {
      }
    }
  }

  /** The text a copy takes: the body of the first LaTeX block, or the whole message when
      it holds none. */
  function CopyText(content: string): (r: string)
    ensures (forall k :: 0 <= k <= |content| ==>
      Match(Between(FenceOpen, FenceClose), content[k..]).None?) ==> r == content
    ensures forall k: nat :: FirstFenceAt(content, 0, k) ==>
      r == FenceBody(Match(Between(FenceOpen, FenceClose), content[k..]).value)
    ensures '`' !in content ==> r == content
  {
    NoFenceFound(content);
    FenceFromFirst(content, 0);
    match FenceFrom(content, 0)
    case Some(body) => body
    case None => content
  }

  /** A message without a backtick holds no LaTeX block. */
  lemma NoFenceFound(content: string)
    ensures '`' !in content ==> FenceFrom(content, 0).None?
  {
    if '`' !in content {
      FenceSkips(content, 0, |content|);
      assert Match(Between(FenceOpen, FenceClose), content[|content|..]).None? by {
        assert content[|content|..] == [];
      }
    }
  }

  lemma {:induction false} FenceSkips(content: string, i: nat, j: nat)
    requires i <= j <= |content|
    requires forall k :: i <= k < j ==> content[k] != '`'
    ensures FenceFrom(content, i) == FenceFrom(content, j)
    decreases j - i
  {
    if i < j {
      assert content[i..][0] == content[i];
      if Match(Between(FenceOpen, FenceClose), content[i..]).Some? {
        MatchLead(Between(FenceOpen, FenceClose), content[i..]);
      }
      FenceSkips(content, i + 1, j);
    }
  }

  /* Sending a message. */

  const ReplyIntro := "Here's your text converted" + " to LaTeX:\n\n"
  const ReplyTail := "\n\n" + "You can copy this or apply" + " it directly to your resume."

  /** The reply that carries a local conversion, the markup in a fenced block. */
  function Reply(latex: string): string {
    ReplyIntro + (FenceOpen + latex + FenceClose + ReplyTail)
  }

  /** A copy of a local reply takes exactly the converted markup, provided the markup does not
      itself close the fence. */
  lemma CopyReply(latex: string)
    requires !Includes(latex, FenceClose)
    ensures CopyText(Reply(latex)) == latex
  {
    var content := Reply(latex);
    var body := FenceOpen + latex + FenceClose + ReplyTail;
    var n := |ReplyIntro|;
    assert content[n..] == body;
    assert forall k :: 0 <= k < n ==> content[k] == ReplyIntro[k];
    assert '`' !in ReplyIntro;
    FenceSkips(content, 0, n);
    assert FenceClose[0] !in FenceClose[1..];
    BetweenFirst(FenceOpen, latex, FenceClose, ReplyTail);
  }

  predicate AsksToConvert(input: string) {
    Mentions(input, "convert") || Mentions(input, "to latex")
  }

  datatype Outcome = Ignored | Converted(reply: string, latex: string) | SentToModel(message: string)

  /** `handleSend`: blank input does nothing; a request to convert is answered locally; the rest
      goes to the model. */
  function Send(input: string): (r: Outcome)
    ensures r.Ignored? <==> AllSpace(input)
    ensures r.Converted? <==> !AllSpace(input) && AsksToConvert(input)
    ensures r.SentToModel? <==> !AllSpace(input) && !AsksToConvert(input)
    ensures r.SentToModel? ==> r.message == input
    ensures r.Converted? ==> r.latex == ConvertToLatex(input) && r.reply == Reply(r.latex)
  {
    TrimBlank(input);
    if Trim(input) == "" then Ignored
    else if AsksToConvert(input) then Converted(Reply(ConvertToLatex(input)), ConvertToLatex(input))
    else SentToModel(input)
  }

  /** Copying the reply to a local conversion yields the converted markup. */
  lemma CopyConverted(input: string)
    requires Send(input).Converted? && !Includes(Send(input).latex, FenceClose)
    ensures CopyText(Send(input).reply) == Send(input).latex
  {
    CopyReply(ConvertToLatex(input));
  }
}
