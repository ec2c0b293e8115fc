/**
 * The fallback résumé parser of the edit route: plain résumé text, read line by line, becomes
 * the LaTeX markup the PDF route understands. The loop keeps a small state (the name, the
 * contact lines, the current section, the job being read) and the markup is written from the
 * final state.
 */
module ManualParser {
  import opened Text
  import opened Wrappers
  import opened JsReplace
  import PdfRoute

  datatype Section = NoSection | Summary | Experience | Education | Skills

  datatype Job = Job(company: string, position: string, dates: string, bullets: seq<string>)

  /** What the loop keeps between lines. */
  datatype Parsed = Parsed(name: string, contact: seq<string>, summary: string, work: seq<Job>,
    skills: seq<string>, section: Section, job: Option<Job>)

  const Start := Parsed("", [], "", [], [], NoSection, None)

  /* Reading the text into lines. */

  /** A line with something in it and no whitespace at either end. */
  predicate Clean(line: string) {
    line != [] && !IsSpace(line[0]) && !IsSpace(line[|line| - 1])
  }

  /** Each piece trimmed, the blank ones dropped. */
  function NonBlank(parts: seq<string>): (lines: seq<string>)
    ensures |lines| <= |parts|
    ensures forall k :: 0 <= k < |lines| ==> Clean(lines[k])
  {
    if parts == [] then []
    else (if Trim(parts[0]) == [] then [] else [Trim(parts[0])]) + NonBlank(parts[1..])
  }

  /** The lines of the text, trimmed, without the blank ones. */
  function Lines(text: string): (lines: seq<string>)
    ensures forall k :: 0 <= k < |lines| ==> Clean(lines[k])
    ensures forall p :: p in Split(text, '\n') && Trim(p) != [] ==> Trim(p) in lines
    ensures forall l :: l in lines ==> exists p :: p in Split(text, '\n') && l == Trim(p)
  {
    NonBlankKeepsEach(Split(text, '\n'));
    NonBlankFromParts(Split(text, '\n'));
    NonBlank(Split(text, '\n'))
  }

  /** Every piece that is not blank is kept, trimmed. */
  lemma {:induction false} NonBlankKeepsEach(parts: seq<string>)
    ensures forall p :: p in parts && Trim(p) != [] ==> Trim(p) in NonBlank(parts)
  {
    if parts != [] {
      NonBlankKeepsEach(parts[1..]);
      NonBlankCons(parts);
      forall p | p in parts && Trim(p) != [] ensures Trim(p) in NonBlank(parts) {
        if p != parts[0] {
          assert p in parts[1..];
        }
      }
    }
  }

  /** Every kept line is a trimmed piece. */
  lemma {:induction false} NonBlankFromParts(parts: seq<string>)
    ensures forall l :: l in NonBlank(parts) ==> exists p :: p in parts && l == Trim(p)
  {
    if parts != [] {
      NonBlankFromParts(parts[1..]);
      NonBlankCons(parts);
      forall l | l in NonBlank(parts) ensures exists p :: p in parts && l == Trim(p) {
        if l in NonBlank(parts[1..]) {
          var p :| p in parts[1..] && l == Trim(p);
          assert p in parts;
        } else {
          assert parts[0] in parts;
        }
      }
    }
  }

  lemma NonBlankCons(parts: seq<string>)
    requires parts != []
    ensures NonBlank(parts) == (if Trim(parts[0]) == [] then [] else [Trim(parts[0])]) + NonBlank(parts[1..])
  {
  }

  /** The lines are kept in order: reading two runs of pieces one after the other is reading
      them together. */
  lemma {:induction false} NonBlankSplits(a: seq<string>, b: seq<string>)
    ensures NonBlank(a + b) == NonBlank(a) + NonBlank(b)
    decreases |a|
  {
    if a != [] {
      assert (a + b)[1..] == a[1..] + b;
      NonBlankSplits(a[1..], b);
    } else {
      assert a + b == b;
    }
  }

  /** A text with no blank line and no line that starts or ends with whitespace is split into
      exactly its lines. */
  lemma {:induction false} NonBlankKeeps(parts: seq<string>)
    requires forall k :: 0 <= k < |parts| ==> Clean(parts[k])
    ensures NonBlank(parts) == parts
  {
    if parts != [] {
      TrimKeeps(parts[0]);
      NonBlankKeeps(parts[1..]);
      NonBlankCons(parts);
      assert [parts[0]] + parts[1..] == parts;
    }
  }

  lemma TrimKeeps(s: string)
    requires Clean(s)
    ensures Trim(s) == s
  {
    assert LeadingSpaces(s) == 0;
    assert s[0..] == s;
    assert TrailingSpaces(s) == 0;
  }

  lemma LinesOfCleanText(text: string)
    requires forall k :: 0 <= k < |Split(text, '\n')| ==> Clean(Split(text, '\n')[k])
    ensures Lines(text) == Split(text, '\n')
  {
    NonBlankKeeps(Split(text, '\n'));
  }

  /* Classifying one line. Case-insensitive tests compare the lower-cased line. */

  /** A line that can be the name: it mentions none of "professional", "experience" and
      "summary". */
  predicate NameLike(line: string) {
    var low := Lower(line);
    line != [] && !Includes(low, "professional") && !Includes(low, "experience") && !Includes(low, "summary")
  }

  /** A line that ends the contact lines. */
  predicate EndsContact(line: string) {
    var low := Lower(line);
    Includes(low, "professional summary") || Includes(low, "work experience")
  }

  /** An e-mail address, a phone number or a profile link: added at the end. */
  predicate IsContact(line: string) {
    Includes(line, "@") || Includes(line, "+") || Includes(line, "github") || Includes(line, "linkedin")
  }

  /** A location: put in front. */
  predicate IsLocation(line: string) {
    Includes(line, ",") || Includes(line, "UAE") || Includes(line, "Sri Lanka")
  }

  function AddContact(contact: seq<string>, line: string): seq<string> {
    if IsContact(line) then contact + [line]
    else if IsLocation(line) then [line] + contact
    else contact
  }

  /** The section a heading line opens, recognised in this order. */
  function Heading(line: string): Option<Section> {
    var low := Lower(line);
    if Includes(low, "professional summary") then Some(Summary)
    else if Includes(low, "work experience") then Some(Experience)
    else if Includes(low, "education") then Some(Education)
    else if Includes(low, "skill") then Some(Skills)
    else None
  }

  predicate IsBulletLine(line: string) {
    StartsWith(line, "•") || StartsWith(line, "-")
  }

  /** A line of the experience section that starts a new job. */
  predicate IsJobLine(line: string) {
    line != [] && !IsBulletLine(line) && !Includes(Lower(line), "website") && Utf16Length(line) > 3
  }

  /** A bullet line without its marker and the whitespace after it. */
  function Bullet(line: string): (b: string)
    requires line != []
    ensures b == [] || !IsSpace(b[0])
    ensures |b| < |line| && b == line[|line| - |b|..]
    ensures AllSpace(line[1..|line| - |b|])
  {
    var n := LeadingSpaces(line[1..]);
    assert line[1..|line| - |line[1..][n..]|] == line[1..][..n];
    line[1..][n..]
  }

  /** The first position at or after `i` where two whitespace characters meet: where `\s{2,}`
      matches. */
  function WideGap(s: string, i: nat): (r: Option<nat>)
    requires i <= |s|
    ensures r.Some? ==> i <= r.value && r.value + 1 < |s| && IsSpace(s[r.value]) && IsSpace(s[r.value + 1])
    decreases |s| - i
  {
    if i + 1 >= |s| then None
    else if IsSpace(s[i]) && IsSpace(s[i + 1]) then Some(i)
    else WideGap(s, i + 1)
  }

  lemma {:induction false} WideGapFirst(s: string, i: nat)
    requires i <= |s|
    ensures var r := WideGap(s, i);
      forall k :: i <= k && k + 1 < |s| && (r.None? || k < r.value) ==> !(IsSpace(s[k]) && IsSpace(s[k + 1]))
    decreases |s| - i
  {
    if i + 1 < |s| && !(IsSpace(s[i]) && IsSpace(s[i + 1])) {
      WideGapFirst(s, i + 1);
    }
  }

  /** The job a job line starts: split at runs of two or more whitespace characters, the first
      piece is the company and the second the position; a line with no such run is all company. */
  function JobFromLine(line: string): Job {
    JobAtGap(line, WideGap(line, 0))
  }

  /** The job of a line whose first wide gap is `gap`. */
  function JobAtGap(line: string, gap: Option<nat>): Job
    requires gap.Some? ==> gap.value <= |line|
  {
    match gap
    case None => Job(line, "", "", [])
    case Some(k) => Job(line[..k], PieceFrom(line, k + LeadingSpaces(line[k..])), "", [])
  }

  /** The piece of `line` from `e` up to the next wide gap, or to the end. */
  function PieceFrom(line: string, e: nat): (r: string)
    requires e <= |line|
    ensures StartsWith(line[e..], r)
  {
    match WideGap(line, e)
    case None => line[e..]
    case Some(m) => assert line[e..][..m - e] == line[e..m]; line[e..m]
  }

  /** `r` is the text of `line` from `e` that `split(/\s{2,}/)` yields as one piece: it holds
      no wide gap, and a wide gap or the end of the line comes right after it. */
  ghost predicate PieceAt(line: string, e: nat, r: string) {
    && e + |r| <= |line| && line[e..e + |r|] == r
    && (forall k :: e <= k < e + |r| && k + 1 < |line| ==> !(IsSpace(line[k]) && IsSpace(line[k + 1])))
    && (e + |r| == |line| || (e + |r| + 1 < |line| && IsSpace(line[e + |r|]) && IsSpace(line[e + |r| + 1])))
  }

  /** `r` is the piece after the wide gap that starts at `k`: the gap's whitespace run is taken
      whole, and the piece starts right after it. */
  ghost predicate SecondPiece(line: string, k: nat, r: string) {
    exists e :: k + 2 <= e <= |line| && AllSpace(line[k..e]) && (e < |line| ==> !IsSpace(line[e])) && PieceAt(line, e, r)
  }

  /** `PieceFrom` runs exactly to the next wide gap. */
  lemma PieceFromAt(line: string, e: nat)
    requires e <= |line|
    ensures PieceAt(line, e, PieceFrom(line, e))
  {
    WideGapFirst(line, e);
  }

  /** A wide gap is a run of at least two whitespace characters. */
  lemma GapRun(line: string, k: nat)
    requires k + 1 < |line| && IsSpace(line[k]) && IsSpace(line[k + 1])
    ensures k + 2 <= k + LeadingSpaces(line[k..]) <= |line| && AllSpace(line[k..k + LeadingSpaces(line[k..])])
    ensures var e := k + LeadingSpaces(line[k..]); e < |line| ==> !IsSpace(line[e])
  {
    var t := line[k..];
    assert t[0] == line[k] && t[1..][0] == line[k + 1];
    var n := LeadingSpaces(t);
    assert line[k..k + n] == t[..n];
  }

  /** The company is the first piece: the text before the first wide gap, or the whole line. */
  lemma CompanyBeforeGap(line: string)
    ensures PieceAt(line, 0, JobFromLine(line).company)
  {
    var j := JobFromLine(line);
    PieceFromAt(line, 0);
    assert j.company == PieceFrom(line, 0) by {
      if WideGap(line, 0).None? {
        assert line[0..] == line;
      }
    }
  }

  /** With no wide gap there is no position. Otherwise the position is the second piece: it
      starts where the whitespace run after the company ends, and runs to the next wide gap. */
  lemma PositionAfterGap(line: string)
    ensures var j := JobFromLine(line); j.company == line ==> j.position == ""
    ensures var j := JobFromLine(line); j.company != line ==> SecondPiece(line, |j.company|, j.position)
  {
    PositionAtGap(line, WideGap(line, 0));
  }

  lemma PositionAtGap(line: string, gap: Option<nat>)
    requires gap.Some? ==> gap.value + 1 < |line| && IsSpace(line[gap.value]) && IsSpace(line[gap.value + 1])
    ensures var j := JobAtGap(line, gap); j.company == line ==> j.position == ""
    ensures var j := JobAtGap(line, gap); j.company != line ==> SecondPiece(line, |j.company|, j.position)
  {
    if gap.None? {
      assert JobAtGap(line, gap) == Job(line, "", "", []);
    } else {
      var k := gap.value;
      var r := PieceFrom(line, k + LeadingSpaces(line[k..]));
      assert JobAtGap(line, gap) == Job(line[..k], r, "", []);
      assert |line[..k]| == k < |line|;
      PieceAfterGap(line, k);
    }
  }

  /** The piece `JobAtGap` takes after the wide gap at `k` is the second piece of the line. */
  lemma PieceAfterGap(line: string, k: nat)
    requires k + 1 < |line| && IsSpace(line[k]) && IsSpace(line[k + 1])
    ensures SecondPiece(line, k, PieceFrom(line, k + LeadingSpaces(line[k..])))
  {
    var e := k + LeadingSpaces(line[k..]);
    GapRun(line, k);
    PieceFromAt(line, e);
    SecondPieceAt(line, k, e, PieceFrom(line, e));
  }

  lemma SecondPieceAt(line: string, k: nat, e: nat, r: string)
    requires k + 2 <= e <= |line| && AllSpace(line[k..e])
    requires (e < |line| ==> !IsSpace(line[e])) && PieceAt(line, e, r)
    ensures SecondPiece(line, k, r)
  { }

  /** A finished job is kept only if it has a company. */
  function Pushed(work: seq<Job>, job: Option<Job>): (r: seq<Job>)
    ensures r == work || (job.Some? && job.value.company != "" && r == work + [job.value])
    ensures job.Some? && job.value.company != "" ==> r == work + [job.value]
  {
    if job.Some? && job.value.company != "" then work + [job.value] else work
  }

  function ExperienceLine(st: Parsed, line: string): Parsed {
    if IsJobLine(line) then
      st.(work := Pushed(st.work, st.job), job := Some(JobFromLine(line)))
    else if IsBulletLine(line) then
      if st.job.Some? then st.(job := Some(st.job.value.(bullets := st.job.value.bullets + [Bullet(line)])))
      else st
    else if Includes(line, "[") && Includes(line, "]") && st.job.Some? then
      st.(job := Some(st.job.value.(dates := line)))
    else st
  }

  /** The technologies the skills section looks for, in this order. */
  const Keywords := ["Next.js", "React", "TypeScript", "Tailwind", "Prisma", "MongoDB", "Node.js",
    "Python", "JavaScript", "AWS", "Docker"]

  /** The skills once each of `techs`, in order, has been checked against the line. */
  function AddSkills(skills: seq<string>, line: string, techs: seq<string>): seq<string>
    decreases |techs|
  {
    if techs == [] then skills
    else
      var s := AddSkills(skills, line, techs[..|techs| - 1]);
      var tech := techs[|techs| - 1];
      if Mentions(line, tech) && tech !in s then s + [tech] else s
  }

  predicate Distinct(s: seq<string>) {
    forall i, j :: 0 <= i < j < |s| ==> s[i] != s[j]
  }

  /** A skills line adds exactly the keywords it mentions that are not there yet. */
  lemma {:induction false} AddSkillsMembers(skills: seq<string>, line: string, techs: seq<string>)
    ensures forall x :: x in AddSkills(skills, line, techs) <==>
      x in skills || (x in techs && Mentions(line, x))
    decreases |techs|
  {
    if techs != [] {
      var front := techs[..|techs| - 1];
      AddSkillsMembers(skills, line, front);
      assert techs == front + [techs[|techs| - 1]];
    }
  }

  /** The skills already found stay in front, and none is added twice. */
  lemma {:induction false} AddSkillsExtends(skills: seq<string>, line: string, techs: seq<string>)
    ensures var r := AddSkills(skills, line, techs);
      |skills| <= |r| && r[..|skills|] == skills && (Distinct(skills) ==> Distinct(r))
    decreases |techs|
  {
    if techs != [] {
      var front := techs[..|techs| - 1];
      AddSkillsExtends(skills, line, front);
      var s := AddSkills(skills, line, front);
      assert (s + [techs[|techs| - 1]])[..|skills|] == s[..|skills|];
    }
  }

  /** One line of the loop. */
  function Step(st: Parsed, line: string): (r: Parsed)
    ensures st.name != "" ==> r.name == st.name
    ensures r.name != st.name ==> r.name == line && NameLike(line)
  {
    if st.name == "" && NameLike(line) then st.(name := line)
    else if st.name != "" && st.section == NoSection && !EndsContact(line) then
      st.(contact := AddContact(st.contact, line))
    else if Heading(line).Some? then st.(section := Heading(line).value)
    else match st.section
      case Summary =>
        if line != [] && !Includes(Lower(line), "work experience") then st.(summary := st.summary + line + " ")
        else st
      case Experience => ExperienceLine(st, line)
      case Skills => st.(skills := AddSkills(st.skills, line, Keywords))
      case _ => st
  }

  /** The state after the loop has read `lines`. */
  function Parse(lines: seq<string>): Parsed
    decreases |lines|
  {
    if lines == [] then Start else Step(Parse(lines[..|lines| - 1]), lines[|lines| - 1])
  }

  /** The jobs written out: the ones kept so far and, if it has a company, the last one. */
  function FinalWork(st: Parsed): seq<Job> {
    Pushed(st.work, st.job)
  }

  /* Writing the markup. */

  /** The centred name line, then the contact lines joined with line breaks, if any. */
  function Header(name: string, contact: seq<string>): string {
    var top := "\\begin{center}\n" + "\\textbf{\\Huge \\scshape " + (if name == "" then "Your Name" else name) + "} \\\\\n";
    (if contact != [] then top + Join(contact, " \\\\\n") + "\n" else top) + "\\end{center}\n\n"
  }

  function SummaryBlock(summary: string): (r: string)
    ensures r == "" <==> summary == ""
  {
    if summary == "" then "" else "\\section{Professional Summary}\n" + Trim(summary) + "\n\n"
  }

  /** The entry line of a job; its second argument is always empty. */
  function SubheadingLine(job: Job): string {
    "\\resumeSubheading" + Braced(job.company) + Braced("") + Braced(job.position) + Braced(job.dates)
  }

  /** A group `{a}` in braces. */
  function Braced(a: string): string {
    "{" + a + "}"
  }

  function Items(bullets: seq<string>): string
    decreases |bullets|
  {
    if bullets == [] then ""
    else Items(bullets[..|bullets| - 1]) + "  \\resumeItem{" + bullets[|bullets| - 1] + "}\n"
  }

  /** A job's entry, with an item list only when it has bullets. */
  function JobBlock(job: Job): string {
    var head := SubheadingLine(job) + "\n";
    (if job.bullets == [] then head else head + "\\resumeItemListStart\n" + Items(job.bullets) + "\\resumeItemListEnd\n")
    + "\n"
  }

  function Jobs(jobs: seq<Job>): string
    decreases |jobs|
  {
    if jobs == [] then "" else Jobs(jobs[..|jobs| - 1]) + JobBlock(jobs[|jobs| - 1])
  }

  const WorkOpen := "\\section{Work Experience}\n" + "\\resumeSubHeadingListStart\n\n"
  const WorkClose := "\\resumeSubHeadingListEnd\n\n"

  function WorkBlock(jobs: seq<Job>): (r: string)
    ensures r == "" <==> jobs == []
  {
    if jobs == [] then "" else WorkOpen + Jobs(jobs) + WorkClose
  }

  const SkillsOpen := "\\section{Skills}\n" + "\\begin{itemize}" + "[leftmargin=0.15in, " + "label={}]\n"

  function SkillsBlock(skills: seq<string>): (r: string)
    ensures r == "" <==> skills == []
  {
    if skills == [] then "" else SkillsOpen + "  \\item " + Join(skills, ", ") + "\n" + "\\end{itemize}\n"
  }

  function Render(st: Parsed): (r: string)
    ensures StartsWith(r, NameLine(if st.name == "" then "Your Name" else st.name))
  {
    var h := Header(st.name, st.contact);
    HeaderOpensWithName(st.name, st.contact);
    StartsWithAppend(h, SummaryBlock(st.summary), NameLine(if st.name == "" then "Your Name" else st.name));
    StartsWithAppend(h + SummaryBlock(st.summary), WorkBlock(FinalWork(st)),
      NameLine(if st.name == "" then "Your Name" else st.name));
    StartsWithAppend(h + SummaryBlock(st.summary) + WorkBlock(FinalWork(st)), SkillsBlock(st.skills),
      NameLine(if st.name == "" then "Your Name" else st.name));
    h + SummaryBlock(st.summary) + WorkBlock(FinalWork(st)) + SkillsBlock(st.skills)
  }

  /** `manualParseToLatex`: the markup opens with the centred name, the first line that can be a
      name, or "Your Name" when there is none. */
  function ManualParse(text: string): (r: string)
    ensures StartsWith(r, NameLine(match FirstCandidate(Lines(text)) case None => "Your Name" case Some(n) => n))
  {
    NameIsFirstCandidate(Lines(text));
    Render(Parse(Lines(text)))
  }

  /* The imperative form: the loop over the lines, then the markup written piece by piece. */

  /** The body of the loop for one line of the experience section. */
  method ReadExperienceLine(st: Parsed, line: string) returns (next: Parsed)
    ensures next == ExperienceLine(st, line)
  {
    next := st;
    if IsJobLine(line) {
      if next.job.Some? && next.job.value.company != "" {
        next := next.(work := next.work + [next.job.value]);
      }
      next := next.(job := Some(JobFromLine(line)));
    } else if IsBulletLine(line) {
      if next.job.Some? {
        next := next.(job := Some(next.job.value.(bullets := next.job.value.bullets + [Bullet(line)])));
      }
    } else if Includes(line, "[") && Includes(line, "]") && next.job.Some? {
      next := next.(job := Some(next.job.value.(dates := line)));
    }
  }

  /** The keyword loop of the skills section. */
  method ReadSkillsLine(skills: seq<string>, line: string) returns (found: seq<string>)
    ensures found == AddSkills(skills, line, Keywords)
  {
    found := skills;
    for k := 0 to |Keywords|
      invariant found == AddSkills(skills, line, Keywords[..k])
    {
      assert Keywords[..k + 1][..k] == Keywords[..k];
      var tech := Keywords[k];
      if Mentions(line, tech) && tech !in found {
        found := found + [tech];
      }
    }
    assert Keywords[..|Keywords|] == Keywords;
  }

  /** The body of the loop for one line: each rule that applies ends the iteration. */
  method ReadLine(st: Parsed, line: string) returns (next: Parsed)
    ensures next == Step(st, line)
  {
    next := st;
    if next.name == "" && NameLike(line) {
      next := next.(name := line);
      return;
    }
    if next.name != "" && next.section == NoSection && !EndsContact(line) {
      if IsContact(line) {
        next := next.(contact := next.contact + [line]);
      } else if IsLocation(line) {
        next := next.(contact := [line] + next.contact);
      }
      return;
    }
    var low := Lower(line);
    if Includes(low, "professional summary") {
      next := next.(section := Summary);
      return;
    } else if Includes(low, "work experience") {
      next := next.(section := Experience);
      return;
    } else if Includes(low, "education") {
      next := next.(section := Education);
      return;
    } else if Includes(low, "skill") {
      next := next.(section := Skills);
      return;
    }
    if next.section == Summary {
      if line != [] && !Includes(low, "work experience") {
        next := next.(summary := next.summary + line + " ");
      }
    } else if next.section == Experience {
      next := ReadExperienceLine(next, line);
    } else if next.section == Skills {
      var found := ReadSkillsLine(next.skills, line);
      next := next.(skills := found);
    }
  }

  /** The loop over the lines. */
  method ReadLines(lines: seq<string>) returns (st: Parsed)
    ensures st == Parse(lines)
  {
    st := Start;
    for i := 0 to |lines|
      invariant st == Parse(lines[..i])
    {
      assert lines[..i + 1][..i] == lines[..i];
      st := ReadLine(st, lines[i]);
    }
    assert lines[..|lines|] == lines;
  }

  method WriteHeader(name: string, contact: seq<string>) returns (latex: string)
    ensures latex == Header(name, contact)
  {
    latex := "\\begin{center}\n";
    latex := latex + "\\textbf{\\Huge \\scshape " + (if name == "" then "Your Name" else name) + "} \\\\\n";
    if |contact| > 0 {
      latex := latex + Join(contact, " \\\\\n") + "\n";
    }
    latex := latex + "\\end{center}\n\n";
  }

  method WriteSummary(summary: string) returns (latex: string)
    ensures latex == SummaryBlock(summary)
  {
    latex := "";
    if summary != "" {
      latex := "\\section{Professional Summary}\n";
      latex := latex + Trim(summary) + "\n\n";
    }
  }

  /** One job's entry, its bullets written one by one. */
  method WriteJob(w: Job) returns (latex: string)
    ensures latex == JobBlock(w)
  {
    latex := SubheadingLine(w) + "\n";
    if |w.bullets| > 0 {
      latex := latex + "\\resumeItemListStart\n";
      ghost var front := latex;
      for b := 0 to |w.bullets|
        invariant latex == front + Items(w.bullets[..b])
      {
        assert w.bullets[..b + 1][..b] == w.bullets[..b];
        latex := latex + "  \\resumeItem{" + w.bullets[b] + "}\n";
      }
      assert w.bullets[..|w.bullets|] == w.bullets;
      latex := latex + "\\resumeItemListEnd\n";
    }
    latex := latex + "\n";
  }

  /** The entries, one job after the other. */
  method WriteJobs(work: seq<Job>) returns (latex: string)
    ensures latex == Jobs(work)
  {
    latex := "";
    for j := 0 to |work|
      invariant latex == Jobs(work[..j])
    {
      assert work[..j + 1][..j] == work[..j];
      var entry := WriteJob(work[j]);
      latex := latex + entry;
    }
    assert work[..|work|] == work;
  }

  method WriteWork(work: seq<Job>) returns (latex: string)
    ensures latex == WorkBlock(work)
  {
    latex := "";
    if |work| > 0 {
      latex := "\\section{Work Experience}\n";
      latex := latex + "\\resumeSubHeadingListStart\n\n";
      var entries := WriteJobs(work);
      latex := latex + entries;
      latex := latex + "\\resumeSubHeadingListEnd\n\n";
    }
  }

  method WriteSkills(skills: seq<string>) returns (latex: string)
    ensures latex == SkillsBlock(skills)
  {
    latex := "";
    if |skills| > 0 {
      latex := "\\section{Skills}\n";
      latex := latex + "\\begin{itemize}" + "[leftmargin=0.15in, " + "label={}]\n";
      latex := latex + "  \\item " + Join(skills, ", ") + "\n";
      latex := latex + "\\end{itemize}\n";
    }
  }

  /** `manualParseToLatex`: read the lines, keep the last job, write the sections in order. */
  method ManualParseToLatex(text: string) returns (latex: string)
    ensures latex == ManualParse(text)
  {
    var st := ReadLines(Lines(text));
    var work := st.work;
    if st.job.Some? && st.job.value.company != "" {
      work := work + [st.job.value];
    }
    latex := WriteHeader(st.name, st.contact);
    var block := WriteSummary(st.summary);
    latex := latex + block;
    block := WriteWork(work);
    latex := latex + block;
    block := WriteSkills(st.skills);
    latex := latex + block;
  }

  /* What the parse keeps, stated against the input lines. */

  /** Line `i` is name-like and no line before it is. */
  predicate FirstNameLikeAt(lines: seq<string>, i: int)
  {
    0 <= i < |lines| && NameLike(lines[i]) && forall k :: 0 <= k < i ==> !NameLike(lines[k])
  }

  /** The first line that can be the name, searched from the front. */
  function FirstCandidate(lines: seq<string>): (r: Option<string>)
    ensures r.Some? ==> r.value in lines && NameLike(r.value)
    ensures r.None? <==> forall k :: 0 <= k < |lines| ==> !NameLike(lines[k])
    ensures r.Some? ==> exists i :: FirstNameLikeAt(lines, i) && lines[i] == r.value
  {
    if lines == [] then None
    else if NameLike(lines[0]) then Some(lines[0])
    else
      var r := FirstCandidate(lines[1..]);
      assert r.Some? ==> exists i :: FirstNameLikeAt(lines, i) && lines[i] == r.value by {
        if r.Some? {
          var i :| FirstNameLikeAt(lines[1..], i) && lines[1..][i] == r.value;
          assert forall k :: 0 < k < i + 1 ==> lines[k] == lines[1..][k - 1];
          assert FirstNameLikeAt(lines, i + 1);
        }
      }
      r
  }

  lemma FirstCandidateAppend(front: seq<string>, line: string)
    ensures FirstCandidate(front + [line])
      == if FirstCandidate(front).Some? then FirstCandidate(front) else if NameLike(line) then Some(line) else None
    decreases |front|
  {
    if front != [] {
      assert (front + [line])[1..] == front[1..] + [line];
      FirstCandidateAppend(front[1..], line);
    }
  }

  /** The name is the first line that can be one, and empty when there is none. */
  lemma {:induction false} NameIsFirstCandidate(lines: seq<string>)
    ensures Parse(lines).name == match FirstCandidate(lines) case None => "" case Some(n) => n
    decreases |lines|
  {
    if lines != [] {
      var front, line := lines[..|lines| - 1], lines[|lines| - 1];
      assert lines == front + [line] by {
        assert forall k :: 0 <= k < |front| ==> lines[k] == front[k];
      }
      NameIsFirstCandidate(front);
      FirstCandidateAppend(front, line);
    }
  }

  /** Every contact line is a line of the input that looked like contact details or a location,
      and none of them is a line that ends the contact block. */
  predicate ContactFrom(contact: seq<string>, lines: seq<string>) {
    forall c :: c in contact ==> c in lines && (IsContact(c) || IsLocation(c)) && !EndsContact(c)
  }

  /** Every bullet of a job was a bullet line of the input, its marker removed. */
  predicate BulletsFrom(job: Job, lines: seq<string>) {
    forall b :: b in job.bullets ==> exists l :: l in lines && IsBulletLine(l) && b == Bullet(l)
  }

  /** A job read from the input: its company and position are those of a job line, its dates
      (if any) are a line with brackets, and its bullets are bullet lines. */
  predicate JobFrom(j: Job, lines: seq<string>) {
    && (exists l :: l in lines && IsJobLine(l) && JobFromLine(l) == j.(dates := "", bullets := []))
    && (j.dates == "" || (j.dates in lines && Includes(j.dates, "[") && Includes(j.dates, "]")))
    && BulletsFrom(j, lines)
  }

  /** The jobs kept so far all have a company, and they and the current job come from the
      input. */
  predicate JobsFrom(st: Parsed, lines: seq<string>) {
    && (forall j :: j in st.work ==> j.company != "" && JobFrom(j, lines))
    && (st.job.Some? ==> JobFrom(st.job.value, lines))
  }

  /** The skills are keywords, each at most once. */
  predicate SkillsValid(skills: seq<string>) {
    Distinct(skills) && forall s :: s in skills ==> s in Keywords
  }

  predicate FromInput(st: Parsed, lines: seq<string>) {
    ContactFrom(st.contact, lines) && JobsFrom(st, lines) && SkillsValid(st.skills)
  }

  lemma JobFromGrows(j: Job, lines: seq<string>, line: string)
    requires JobFrom(j, lines)
    ensures JobFrom(j, lines + [line])
  {
    var more := lines + [line];
    var l :| l in lines && IsJobLine(l) && JobFromLine(l) == j.(dates := "", bullets := []);
    assert l in more;
    forall b | b in j.bullets ensures exists l :: l in more && IsBulletLine(l) && b == Bullet(l) {
      var l :| l in lines && IsBulletLine(l) && b == Bullet(l);
      assert l in more;
    }
  }

  lemma FromInputGrows(st: Parsed, lines: seq<string>, line: string)
    requires FromInput(st, lines)
    ensures FromInput(st, lines + [line])
  {
    forall j | j in st.work ensures JobFrom(j, lines + [line]) {
      JobFromGrows(j, lines, line);
    }
    if st.job.Some? {
      JobFromGrows(st.job.value, lines, line);
    }
  }

  lemma ExperienceKeeps(st: Parsed, lines: seq<string>, line: string)
    requires JobsFrom(st, lines) && line in lines
    ensures JobsFrom(ExperienceLine(st, line), lines)
    ensures ExperienceLine(st, line).contact == st.contact && ExperienceLine(st, line).skills == st.skills
  {
    if IsJobLine(line) {
      JobLineFrom(line, lines);
      var work := Pushed(st.work, st.job);
      assert forall j :: j in work ==> j in st.work || (st.job.Some? && j == st.job.value && j.company != "");
    } else if IsBulletLine(line) {
      if st.job.Some? {
        BulletAdded(st.job.value, lines, line);
      }
    } else if Includes(line, "[") && Includes(line, "]") && st.job.Some? {
      DatesSet(st.job.value, lines, line);
    }
  }

  lemma JobLineFrom(line: string, lines: seq<string>)
    requires line in lines && IsJobLine(line)
    ensures JobFrom(JobFromLine(line), lines)
  {
    assert JobFromLine(line).(dates := "", bullets := []) == JobFromLine(line);
  }

  lemma BulletAdded(j: Job, lines: seq<string>, line: string)
    requires JobFrom(j, lines) && line in lines && IsBulletLine(line)
    ensures JobFrom(j.(bullets := j.bullets + [Bullet(line)]), lines)
  {
    var b := Bullet(line);
    var l :| l in lines && IsJobLine(l) && JobFromLine(l) == j.(dates := "", bullets := []);
    assert j.(bullets := j.bullets + [b]).(dates := "", bullets := []) == j.(dates := "", bullets := []);
    assert forall x :: x in j.bullets + [b] ==> x in j.bullets || x == b;
  }

  lemma DatesSet(j: Job, lines: seq<string>, line: string)
    requires JobFrom(j, lines) && line in lines && Includes(line, "[") && Includes(line, "]")
    ensures JobFrom(j.(dates := line), lines)
  {
    var l :| l in lines && IsJobLine(l) && JobFromLine(l) == j.(dates := "", bullets := []);
    assert j.(dates := line).(dates := "", bullets := []) == j.(dates := "", bullets := []);
  }

  lemma SkillsKeep(skills: seq<string>, line: string)
    requires SkillsValid(skills)
    ensures SkillsValid(AddSkills(skills, line, Keywords))
  {
    AddSkillsMembers(skills, line, Keywords);
    AddSkillsExtends(skills, line, Keywords);
  }

  lemma ContactKeeps(contact: seq<string>, lines: seq<string>, line: string)
    requires ContactFrom(contact, lines) && line in lines && !EndsContact(line)
    ensures ContactFrom(AddContact(contact, line), lines)
  {
  }

  lemma StepKeeps(st: Parsed, lines: seq<string>, line: string)
    requires FromInput(st, lines) && line in lines
    ensures FromInput(Step(st, line), lines)
  {
    if st.name == "" && NameLike(line) {
    } else if st.name != "" && st.section == NoSection && !EndsContact(line) {
      ContactKeeps(st.contact, lines, line);
    } else if Heading(line).Some? {
    } else if st.section == Experience {
      ExperienceKeeps(st, lines, line);
    } else if st.section == Skills {
      SkillsKeep(st.skills, line);
    }
  }

  /** Whatever the input, the contact lines, the jobs and the skills are drawn from it as
      described by `FromInput`, and the jobs written out all have a company. */
  lemma {:induction false} ParseFromInput(lines: seq<string>)
    ensures FromInput(Parse(lines), lines)
    ensures forall j :: j in FinalWork(Parse(lines)) ==> j.company != "" && JobFrom(j, lines)
    decreases |lines|
  {
    if lines != [] {
      var front := lines[..|lines| - 1];
      var line := lines[|lines| - 1];
      ParseFromInput(front);
      assert front + [line] == lines;
      FromInputGrows(Parse(front), front, line);
      StepKeeps(Parse(front), lines, line);
    }
  }

  /** A line never removes a kept job: the jobs kept so far are a prefix of the jobs kept
      later. Only a job line in the experience section adds one, and only when the job it
      replaces has a company. */
  lemma StepExtendsWork(st: Parsed, line: string)
    ensures |st.work| <= |Step(st, line).work| <= |st.work| + 1
    ensures Step(st, line).work[..|st.work|] == st.work
    ensures Step(st, line).work != st.work ==>
      st.section == Experience && Heading(line).None? && IsJobLine(line) &&
      st.job.Some? && st.job.value.company != ""
  {
    var w := Step(st, line).work;
    if w != st.work {
      assert w == st.work + [st.job.value];
    }
  }

  lemma {:induction false} WorkAppendOnly(lines: seq<string>, i: nat)
    requires i <= |lines|
    ensures |Parse(lines[..i]).work| <= |Parse(lines).work|
    ensures Parse(lines).work[..|Parse(lines[..i]).work|] == Parse(lines[..i]).work
    decreases |lines| - i
  {
    if i < |lines| {
      var front := lines[..|lines| - 1];
      assert lines[..i] == front[..i];
      WorkAppendOnly(front, i);
      StepExtendsWork(Parse(front), lines[|lines| - 1]);
    } else {
      assert lines[..i] == lines;
    }
  }

  /** The location lines of `block` that are not contact lines, the last one first. */
  function LocationsIn(block: seq<string>): seq<string> {
    if block == [] then []
    else
      var line := block[|block| - 1];
      (if !IsContact(line) && IsLocation(line) then [line] else []) + LocationsIn(block[..|block| - 1])
  }

  /** The contact lines of `block`, in order. */
  function ContactsIn(block: seq<string>): seq<string> {
    if block == [] then []
    else
      var line := block[|block| - 1];
      ContactsIn(block[..|block| - 1]) + (if IsContact(line) then [line] else [])
  }

  lemma ParseLast(lines: seq<string>, line: string)
    ensures Parse(lines + [line]) == Step(Parse(lines), line)
  {
    assert (lines + [line])[..|lines + [line]| - 1] == lines;
  }

  lemma ParseAppendLast(front: seq<string>, block: seq<string>)
    requires block != []
    ensures Parse(front + block) == Step(Parse(front + block[..|block| - 1]), block[|block| - 1])
  {
    assert front + block == (front + block[..|block| - 1]) + [block[|block| - 1]];
    ParseLast(front + block[..|block| - 1], block[|block| - 1]);
  }

  /** Reading a block of lines after the name and before any section: only the contact lines
      change, and they become the block's locations in reverse order, then the contact lines
      found before, then the block's contact lines in order. */
  lemma {:induction false} ContactBlock(front: seq<string>, block: seq<string>)
    requires Parse(front).name != "" && Parse(front).section == NoSection
    requires forall k :: 0 <= k < |block| ==> !EndsContact(block[k])
    ensures Parse(front + block) ==
      Parse(front).(contact := LocationsIn(block) + Parse(front).contact + ContactsIn(block))
    decreases |block|
  {
    if block == [] {
      assert front + block == front;
    } else {
      var before := block[..|block| - 1];
      var line := block[|block| - 1];
      ContactBlock(front, before);
      ParseAppendLast(front, block);
      SplitLast(block);
      ContactRunStep(Parse(front), Parse(front + before), before, line);
    }
  }

  /** A non-empty block is its front followed by its last line. */
  lemma SplitLast(block: seq<string>)
    requires block != []
    ensures block == block[..|block| - 1] + [block[|block| - 1]]
  {
  }

  /** One more line of the block, stated on the records around it. */
  lemma ContactRunStep(st0: Parsed, st: Parsed, before: seq<string>, line: string)
    requires st0.name != "" && st0.section == NoSection && !EndsContact(line)
    requires st == st0.(contact := LocationsIn(before) + st0.contact + ContactsIn(before))
    ensures Step(st, line) ==
      st0.(contact := LocationsIn(before + [line]) + st0.contact + ContactsIn(before + [line]))
  {
    ContactRead(st, line);
    ContactsGrow(st.contact, before, st0.contact, line);
  }

  lemma ContactRead(st: Parsed, line: string)
    requires st.name != "" && st.section == NoSection && !EndsContact(line)
    ensures Step(st, line) == st.(contact := AddContact(st.contact, line))
  {
  }

  lemma ContactsGrow(contact: seq<string>, before: seq<string>, c0: seq<string>, line: string)
    requires contact == LocationsIn(before) + c0 + ContactsIn(before)
    ensures AddContact(contact, line) == LocationsIn(before + [line]) + c0 + ContactsIn(before + [line])
  {
    var after := before + [line];
    if IsContact(line) {
      calc {
        AddContact(contact, line);
        contact + [line];
        LocationsIn(before) + c0 + (ContactsIn(before) + [line]);
        { LocationsLast(before, line); ContactsLast(before, line); }
        LocationsIn(after) + c0 + ContactsIn(after);
      }
    } else if IsLocation(line) {
      calc {
        AddContact(contact, line);
        [line] + contact;
        [line] + LocationsIn(before) + c0 + ContactsIn(before);
        { LocationsLast(before, line); ContactsLast(before, line); }
        LocationsIn(after) + c0 + ContactsIn(after);
      }
    } else {
      LocationsLast(before, line);
      ContactsLast(before, line);
    }
  }

  lemma LocationsLast(before: seq<string>, line: string)
    ensures LocationsIn(before + [line])
      == (if !IsContact(line) && IsLocation(line) then [line] else []) + LocationsIn(before)
  {
    assert (before + [line])[..|before|] == before;
  }

  lemma ContactsLast(before: seq<string>, line: string)
    ensures ContactsIn(before + [line]) == ContactsIn(before) + (if IsContact(line) then [line] else [])
  {
    assert (before + [line])[..|before|] == before;
  }

  /** Once in the education section, a line that opens no other section changes nothing: the
      parser reads no education details. */
  lemma EducationInert(st: Parsed, line: string)
    requires st.name != "" && st.section == Education && Heading(line).None?
    ensures Step(st, line) == st
  {
  }

  /** Between the name and the first line that ends the contact block, a line with contact
      details is added at the end, a location in front, and any other line is dropped. */
  lemma ContactLine(st: Parsed, line: string)
    requires st.name != "" && st.section == NoSection && !EndsContact(line)
    ensures Step(st, line).(contact := st.contact) == st
    ensures IsContact(line) ==> Step(st, line).contact == st.contact + [line]
    ensures !IsContact(line) && IsLocation(line) ==> Step(st, line).contact == [line] + st.contact
    ensures !IsContact(line) && !IsLocation(line) ==> Step(st, line) == st
  {
  }

  /** In the experience section a bullet line, its marker removed, goes to the current job; with
      no job yet it is ignored. */
  lemma BulletLineRead(st: Parsed, line: string)
    requires st.name != "" && st.section == Experience && Heading(line).None? && IsBulletLine(line)
    ensures st.job.None? ==> Step(st, line) == st
    ensures st.job.Some? ==> var j := st.job.value;
      Step(st, line) == st.(job := Some(j.(bullets := j.bullets + [Bullet(line)])))
  {
  }

  /** The summary gathers the summary lines, each followed by one space. */
  lemma SummaryGrows(st: Parsed, line: string)
    ensures var s := Step(st, line).summary;
      s == st.summary || (st.section == Summary && Heading(line).None? && s == st.summary + line + " ")
    ensures st.name != "" && st.section == Summary && Heading(line).None? && line != [] ==>
      Step(st, line) == st.(summary := st.summary + line + " ")
  {
  }

  /** The summary lines, each followed by one space, in order. */
  function SpacedLines(block: seq<string>): string {
    if block == [] then "" else SpacedLines(block[..|block| - 1]) + block[|block| - 1] + " "
  }

  /** Reading a block of summary lines, none of them a heading, appends each line and a space to
      the summary and changes nothing else. */
  lemma {:induction false} SummaryRun(front: seq<string>, block: seq<string>)
    requires Parse(front).name != "" && Parse(front).section == Summary
    requires forall k :: 0 <= k < |block| ==> block[k] != [] && Heading(block[k]).None?
    ensures Parse(front + block) == Parse(front).(summary := Parse(front).summary + SpacedLines(block))
    decreases |block|
  {
    if block == [] {
      assert front + block == front;
    } else {
      var before := block[..|block| - 1];
      var line := block[|block| - 1];
      SummaryRun(front, before);
      ParseAppendLast(front, block);
      assert SpacedLines(block) == SpacedLines(before) + line + " ";
      SummaryRunStep(Parse(front), Parse(front + before), SpacedLines(before), line);
    }
  }

  lemma SummaryRunStep(st0: Parsed, st: Parsed, spaced: string, line: string)
    requires st == st0.(summary := st0.summary + spaced)
    requires st0.name != "" && st0.section == Summary && line != [] && Heading(line).None?
    ensures Step(st, line) == st0.(summary := st0.summary + (spaced + line + " "))
  {
    var grown := st0.summary + (spaced + line + " ");
    assert st.summary + line + " " == grown;
    assert st.(summary := grown) == st0.(summary := grown);
    SummaryGrows(st, line);
  }

  /** In the experience section a job line finishes the current job, which is kept when it has a
      company, and starts a new one from the line. */
  lemma JobLineRead(st: Parsed, line: string)
    requires st.name != "" && st.section == Experience && Heading(line).None? && IsJobLine(line)
    ensures Step(st, line) == st.(work := Pushed(st.work, st.job), job := Some(JobFromLine(line)))
    ensures st.job.Some? && st.job.value.company != "" ==> Step(st, line).work == st.work + [st.job.value]
  {
  }

  /** A bracketed date line longer than three characters passes the job-line test, which comes
      before the dates rule: it starts a new job with the line as its company, and the job
      before it is closed without those dates. */
  lemma DateLineStartsJob(st: Parsed)
    requires st.name != "" && st.section == Experience
    ensures Step(st, "[2020]").job == Some(Job("[2020]", "", "", []))
    ensures Step(st, "[2020]").work == Pushed(st.work, st.job)
  {
    DateLineIsJobLine("[2020]");
    JobLineRead(st, "[2020]");
  }

  /** A bracketed line of four to six characters, none of them a space or a letter, opens no
      section, passes the job-line test and splits into no parts. */
  lemma DateLineIsJobLine(line: string)
    requires 4 <= |line| <= 6 && line[0] == '['
    requires forall k :: 0 <= k < |line| ==>
      !IsSpace(line[k]) && !('a' <= line[k] <= 'z') && !('A' <= line[k] <= 'Z')
    ensures Heading(line).None? && IsJobLine(line)
    ensures JobFromLine(line) == Job(line, "", "", [])
  {
    assert Lower(line) == line;
    IncludesNeedsFirst(line, "professional summary");
    IncludesNeedsFirst(line, "work experience");
    IncludesNeedsFirst(line, "education");
    IncludesNeedsFirst(line, "skill");
    IncludesNeedsFirst(line, "website");
    NoWideGap(line, 0);
  }

  /** A line without a space has no wide gap. */
  lemma {:induction false} NoWideGap(line: string, i: nat)
    requires i <= |line|
    requires forall k :: 0 <= k < |line| ==> !IsSpace(line[k])
    ensures WideGap(line, i).None?
    decreases |line| - i
  {
    if i + 1 < |line| {
      NoWideGap(line, i + 1);
    }
  }

  /** Lines that each start with a bullet marker and open no section. */
  predicate BulletLines(block: seq<string>) {
    forall k :: 0 <= k < |block| ==> IsBulletLine(block[k]) && Heading(block[k]).None?
  }

  /** The bullets of a block of bullet lines, markers removed, in order. */
  function BulletsOf(block: seq<string>): seq<string>
    requires BulletLines(block)
  {
    if block == [] then []
    else
      var line := block[|block| - 1];
      assert StartsWith(line, "•") || StartsWith(line, "-");
      BulletsOf(block[..|block| - 1]) + [Bullet(line)]
  }

  /** Reading a block of bullet lines after a job line adds all of them, in order, to that job
      and changes nothing else. */
  lemma {:induction false} BulletRun(front: seq<string>, block: seq<string>)
    requires Parse(front).name != "" && Parse(front).section == Experience && Parse(front).job.Some?
    requires BulletLines(block)
    ensures var st := Parse(front); var j := st.job.value;
      Parse(front + block) == st.(job := Some(j.(bullets := j.bullets + BulletsOf(block))))
    decreases |block|
  {
    if block == [] {
      assert front + block == front;
      var j := Parse(front).job.value;
      assert j.bullets + BulletsOf(block) == j.bullets;
    } else {
      var before := block[..|block| - 1];
      BulletRun(front, before);
      ParseAppendLast(front, block);
      BulletRunStep(Parse(front), Parse(front + before), before, block);
    }
  }

  lemma BulletRunStep(st0: Parsed, st: Parsed, before: seq<string>, block: seq<string>)
    requires st0.name != "" && st0.section == Experience && st0.job.Some?
    requires BulletLines(block) && block != [] && before == block[..|block| - 1]
    requires st == st0.(job := Some(st0.job.value.(bullets := st0.job.value.bullets + BulletsOf(before))))
    ensures Step(st, block[|block| - 1])
      == st0.(job := Some(st0.job.value.(bullets := st0.job.value.bullets + BulletsOf(block))))
  {
    var line := block[|block| - 1];
    var j := st0.job.value;
    BulletLineRead(st, line);
    assert j.bullets + BulletsOf(before) + [Bullet(line)] == j.bullets + BulletsOf(block);
  }

  /** The centred name line the markup opens with. */
  function NameLine(name: string): string {
    "\\begin{center}\n" + "\\textbf{\\Huge \\scshape " + name + "} \\\\\n"
  }

  lemma HeaderOpensWithName(name: string, contact: seq<string>)
    ensures StartsWith(Header(name, contact), NameLine(if name == "" then "Your Name" else name))
  {
    var top := NameLine(if name == "" then "Your Name" else name);
    assert StartsWith(top, top);
    if contact != [] {
      StartsWithAppend(top, Join(contact, " \\\\\n"), top);
      StartsWithAppend(top + Join(contact, " \\\\\n"), "\n", top);
      StartsWithAppend(top + Join(contact, " \\\\\n") + "\n", "\\end{center}\n\n", top);
    } else {
      StartsWithAppend(top, "\\end{center}\n\n", top);
    }
  }

  /** A job's line of markup is turned by the PDF route into the entry markup, with the company
      and the position on the first row and the dates beside the position. */
  lemma JobEntryConverted(job: Job, rest: string)
    requires '}' !in job.company && '}' !in job.position && '}' !in job.dates
    ensures Apply(PdfRoute.Entries, SubheadingLine(job) + rest)
      == PdfRoute.Entry(job.company, "", job.position, job.dates) + Apply(PdfRoute.Entries, rest)
  {
    JobArgText(job);
    PdfRoute.EntryRewrite(["", "", "", ""], [job.company, "", job.position, job.dates], rest);
  }

  /** The entry line is the entry command followed by four groups with no space between them. */
  lemma JobArgText(job: Job)
    ensures SubheadingLine(job) == SubheadingOpen + ArgText(["", "", "", ""], [job.company, "", job.position, job.dates])
  {
    FourBraced(job.company, "", job.position, job.dates);
  }

  lemma FourBraced(a: string, b: string, c: string, d: string)
    ensures ArgText(["", "", "", ""], [a, b, c, d]) == Braced(a) + (Braced(b) + (Braced(c) + Braced(d)))
  {
    var ws := ["", "", "", ""];
    var args := [a, b, c, d];
    BracedArg(ws[3..], args[3..]);
    BracedArg(ws[2..], args[2..]);
    BracedArg(ws[1..], args[1..]);
    BracedArg(ws, args);
  }

  lemma BracedArg(ws: seq<string>, args: seq<string>)
    requires |ws| == |args| > 0 && ws[0] == ""
    ensures ArgText(ws, args) == Braced(args[0]) + ArgText(ws[1..], args[1..])
  { }

  /* The choice between the model's answer and this parser. */

  /** The answer still holds the template's placeholder text. */
  predicate HasPlaceholders(latex: string) {
    Includes(latex, "Company Name") || Includes(latex, "Accomplishment")
  }

  /** The markup the edit route returns for a message, given the model's cleaned answer. */
  function EditLatex(message: string, answer: string): (r: string)
    ensures r == answer || r == ManualParse(message)
    ensures HasPlaceholders(r) ==> r == ManualParse(message)
  {
    if HasPlaceholders(answer) then ManualParse(message) else answer
  }
}
