/** The part of JavaScript's String.prototype.replace that the program relies on.

    A regular expression is represented by the shape it has in the program (a `Pattern`), and a
    match is always looked for at the front of the remaining text: none of the program's
    expressions looks behind the current position, so a global replace is a left-to-right scan
    that either rewrites a match and continues after it, or keeps one character and moves on.
    Lazy quantifiers stop at the first place the rest of the expression matches; greedy ones take
    as much as they can, and where giving characters back could change the outcome the matcher
    searches in the order the regular-expression engine backtracks. */
module JsReplace {
  import opened Text
  import opened Wrappers

  /** A match at the front of the remaining text: the number of characters it covers and the
      texts of its capture groups (`$1` is `groups[0]`; a group that took no part is ""). */
  datatype Capture = Capture(len: nat, groups: seq<string>)

  /** Every character of `g` occurs in `t`. */
  ghost predicate Within(g: string, t: string) {
    forall ch :: ch in g ==> ch in t
  }

  /** A match covers at least one character of the text it is found in. */
  predicate Fits(r: Option<Capture>, t: string) {
    r.Some? ==> 0 < r.value.len <= |t|
  }

  /** The regular expressions of the program, by shape. */
  datatype Pattern =
    | Literal(text: string)                    // the text itself
    | RestOfLine(lead: string)                 // lead.*$   (multiline flag)
    | Between(open: string, close: string)     // open([\s\S]*?)close, and open([^c]*)c for a one-character close c
    | BetweenOnLine(open: string, close: string) // open(.*?)close
    | Spaced(lead: string, atLeastOne: bool)   // lead\s*  or  lead\s+
    | Heading(lead: string)                    // lead\s*(.+)
    | Pipe                                     // \\?\s*\$\|\$\s*\\?
    | LineBreak                                // \\\\[\s]*(\[-.*?\])?
    | MinipageBegin                            // \\begin\{minipage\}(\[.*?\])?\{.*?\}
    | Href                                     // \\href\{([^}]*)\}\{([^}]*)\}
    | SectionTitle                             // \\section\*?\{([^}]*)\}
    | NoBulletList                             // \\begin\{itemize\}\[[^\]]*label=\{\}[^\]]*\]
    | ItemizeBegin                             // \\begin\{itemize\}(\[.*?\])?
    | Item                                     // \\item\s+([\s\S]*?)(?=(\\item|\\end|\\resumeItemListEnd))
    | Subheading                               // \\resumeSubheading(\s*\{([\s\S]*?)\}){4}, four groups
    | CommandWithArg                           // \\[a-zA-Z]+\{.*?\}
    | Command                                  // \\[a-zA-Z]+

  const MinipageOpen := "\\begin{minipage}"
  const ItemizeOpen := "\\begin{itemize}"
  const SubheadingOpen := "\\resumeSubheading"

  /*
   * Scanners. Each returns a position in `t`; the contract of the function states only where
   * that position lies, and the lemma after it states what the scan passed over.
   */

  /** The first position at or after `i` where `p` occurs in `t` (`t.indexOf(p, i)`). */
  function IndexFrom(t: string, p: string, i: nat): (r: Option<nat>)
    requires i <= |t|
    ensures r.Some? ==> i <= r.value <= |t| && StartsWith(t[r.value..], p)
    decreases |t| - i
  {
    if StartsWith(t[i..], p) then Some(i)
    else if i == |t| then None
    else IndexFrom(t, p, i + 1)
  }

  lemma {:induction false} IndexFromFirst(t: string, p: string, i: nat)
    requires i <= |t|
    ensures var r := IndexFrom(t, p, i);
      && (r.Some? ==> forall k :: i <= k < r.value ==> !StartsWith(t[k..], p))
      && (r.None? ==> forall k :: i <= k <= |t| ==> !StartsWith(t[k..], p))
    decreases |t| - i
  {
    if !StartsWith(t[i..], p) && i < |t| {
      IndexFromFirst(t, p, i + 1);
    }
  }

  /** The first line terminator at or after `i`, or the end of `t`: where a `.*` run stops. */
  function LineEnd(t: string, i: nat): (e: nat)
    requires i <= |t|
    ensures i <= e <= |t|
    decreases |t| - i
  {
    if i == |t| || IsLineTerminator(t[i]) then i else LineEnd(t, i + 1)
  }

  lemma {:induction false} LineEndStops(t: string, i: nat)
    requires i <= |t|
    ensures var e := LineEnd(t, i);
      && (forall k :: i <= k < e ==> !IsLineTerminator(t[k]))
      && (e < |t| ==> IsLineTerminator(t[e]))
    decreases |t| - i
  {
    if i < |t| && !IsLineTerminator(t[i]) {
      LineEndStops(t, i + 1);
    }
  }

  /** The first character at or after `i` that is not `\s` whitespace: where a `\s*` run stops. */
  function SpaceEnd(t: string, i: nat): (e: nat)
    requires i <= |t|
    ensures i <= e <= |t|
    decreases |t| - i
  {
    if i < |t| && IsSpace(t[i]) then SpaceEnd(t, i + 1) else i
  }

  lemma {:induction false} SpaceEndStops(t: string, i: nat)
    requires i <= |t|
    ensures var e := SpaceEnd(t, i);
      && (forall k :: i <= k < e ==> IsSpace(t[k]))
      && (e < |t| ==> !IsSpace(t[e]))
    decreases |t| - i
  {
    if i < |t| && IsSpace(t[i]) {
      SpaceEndStops(t, i + 1);
    }
  }

  /** The first character at or after `i` that is not an ASCII letter: where `[a-zA-Z]+` stops. */
  function LetterEnd(t: string, i: nat): (e: nat)
    requires i <= |t|
    ensures i <= e <= |t|
    decreases |t| - i
  {
    if i < |t| && IsAsciiLetter(t[i]) then LetterEnd(t, i + 1) else i
  }

  lemma {:induction false} LetterEndStops(t: string, i: nat)
    requires i <= |t|
    ensures var e := LetterEnd(t, i);
      && (forall k :: i <= k < e ==> IsAsciiLetter(t[k]))
      && (e < |t| ==> !IsAsciiLetter(t[e]))
    decreases |t| - i
  {
    if i < |t| && IsAsciiLetter(t[i]) {
      LetterEndStops(t, i + 1);
    }
  }

  /** Where a lazy `.*?` that starts at `i` and is followed by `p` stops: the first occurrence
      of `p` from `i` on, provided no line terminator comes before it. */
  function IndexOnLine(t: string, p: string, i: nat): (r: Option<nat>)
    requires i <= |t|
    ensures r.Some? ==> i <= r.value <= |t| && StartsWith(t[r.value..], p)
  {
    var r := IndexFrom(t, p, i);
    if r.Some? && r.value <= LineEnd(t, i) then r else None
  }

  /** Where `.+` starts after `\s*`: `\s*` first takes the whole whitespace run, up to `w`, and
      gives it back one character at a time until `.+` can match a character. */
  function HeadingStart(t: string, lo: nat, w: nat): (r: Option<nat>)
    requires lo <= w <= |t|
    ensures r.Some? ==> lo <= r.value <= w && r.value < |t| && !IsLineTerminator(t[r.value])
    decreases w
  {
    if w < |t| && !IsLineTerminator(t[w]) then Some(w)
    else if w == lo then None
    else HeadingStart(t, lo, w - 1)
  }

  lemma {:induction false} HeadingStartLast(t: string, lo: nat, w: nat)
    requires lo <= w <= |t|
    ensures var r := HeadingStart(t, lo, w);
      && (r.Some? ==> forall k :: r.value < k <= w ==> k == |t| || IsLineTerminator(t[k]))
      && (r.None? ==> forall k :: lo <= k <= w ==> k == |t| || IsLineTerminator(t[k]))
    decreases w
  {
    if !(w < |t| && !IsLineTerminator(t[w])) && w > lo {
      HeadingStartLast(t, lo, w - 1);
    }
  }

  /** The first position at or after `i` where a list marker starts. */
  function MarkerFrom(t: string, i: nat): (r: Option<nat>)
    requires i <= |t|
    ensures r.Some? ==> i <= r.value <= |t| && AtListMarker(t[r.value..])
    decreases |t| - i
  {
    if AtListMarker(t[i..]) then Some(i)
    else if i == |t| then None
    else MarkerFrom(t, i + 1)
  }

  lemma {:induction false} MarkerFromFirst(t: string, i: nat)
    requires i <= |t|
    ensures var r := MarkerFrom(t, i);
      && (r.Some? ==> forall k :: i <= k < r.value ==> !AtListMarker(t[k..]))
      && (r.None? ==> forall k :: i <= k <= |t| ==> !AtListMarker(t[k..]))
    decreases |t| - i
  {
    if !AtListMarker(t[i..]) && i < |t| {
      MarkerFromFirst(t, i + 1);
    }
  }

  /* Matchers, one per shape of expression. Each returns the match at the front of `t`. */

  /** `open([\s\S]*?)close`: the group ends at the first occurrence of `close` after `open`. */
  function MatchBetween(t: string, open: string, close: string): (r: Option<Capture>)
    ensures Fits(r, t)
  {
    if open != [] && StartsWith(t, open) then
      match IndexFrom(t, close, |open|)
      case Some(k) => Some(Capture(k + |close|, [t[|open|..k]]))
      case None => None
    else None
  }

  /** `open(.*?)close`: as `MatchBetween`, but the group may not cross a line terminator. */
  function MatchBetweenOnLine(t: string, open: string, close: string): (r: Option<Capture>)
    ensures Fits(r, t)
  {
    if open != [] && StartsWith(t, open) then
      match IndexOnLine(t, close, |open|)
      case Some(k) => Some(Capture(k + |close|, [t[|open|..k]]))
      case None => None
    else None
  }

  /** `lead\s*` or `lead\s+`: the whitespace run is taken whole. */
  function MatchSpaced(t: string, lead: string, atLeastOne: bool): (r: Option<Capture>)
    ensures Fits(r, t)
  {
    if lead != [] && StartsWith(t, lead) then
      var e := SpaceEnd(t, |lead|);
      if atLeastOne && e == |lead| then None else Some(Capture(e, []))
    else None
  }

  /** `lead\s*(.+)`: the group is a non-empty run that reaches the end of its line. */
  function MatchHeading(t: string, lead: string): (r: Option<Capture>)
    ensures Fits(r, t)
  {
    if lead != [] && StartsWith(t, lead) then
      match HeadingStart(t, |lead|, SpaceEnd(t, |lead|))
      case Some(w) =>
        var e := LineEnd(t, w);
        Some(Capture(e, [t[w..e]]))
      case None => None
    else None
  }

  /** `\\?\s*\$\|\$\s*\\?` */
  function MatchPipe(t: string): (r: Option<Capture>)
    ensures Fits(r, t)
  {
    var a := if t != [] && t[0] == '\\' then 1 else 0;
    var b := SpaceEnd(t, a);
    if StartsWith(t[b..], "$|$") then
      var c := SpaceEnd(t, b + 3);
      var e := if c < |t| && t[c] == '\\' then c + 1 else c;
      Some(Capture(e, []))
    else None
  }

  /** `\\\\[\s]*(\[-.*?\])?` */
  function MatchLineBreak(t: string): (r: Option<Capture>)
    ensures Fits(r, t)
  {
    if StartsWith(t, "\\\\") then
      var b := SpaceEnd(t, 2);
      if StartsWith(t[b..], "[-") then
        match IndexOnLine(t, "]", b + 2)
        case Some(k) => Some(Capture(k + 1, [t[b..k + 1]]))
        case None => Some(Capture(b, [""]))
      else Some(Capture(b, [""]))
    else None
  }

  /** The optional width group of `(\[.*?\])?\{.*?\}`, trying each `]` on the line in turn as
      the end of the group (`k` is the next candidate); the result is the `]` chosen and the end
      of the match. */
  function WidthThenBrace(t: string, k: nat): (r: Option<(nat, nat)>)
    requires k <= |t|
    ensures r.Some? ==> k <= r.value.0 && r.value.0 + 2 < r.value.1 <= |t|
    decreases |t| - k
  {
    if k == |t| || IsLineTerminator(t[k]) then None
    else if t[k] == ']' && k + 1 < |t| && t[k + 1] == '{' then
      match IndexOnLine(t, "}", k + 2)
      case Some(m) => Some((k, m + 1))
      case None => WidthThenBrace(t, k + 1)
    else WidthThenBrace(t, k + 1)
  }

  /** `\\begin\{minipage\}(\[.*?\])?\{.*?\}` */
  function MatchMinipage(t: string): (r: Option<Capture>)
    ensures Fits(r, t)
  {
    if !StartsWith(t, MinipageOpen) || |t| == 16 then None
    else if t[16] == '[' then
      match WidthThenBrace(t, 17)
      case Some((k, e)) => Some(Capture(e, [t[16..k + 1]]))
      case None => None
    else if t[16] == '{' then
      match IndexOnLine(t, "}", 17)
      case Some(m) => Some(Capture(m + 1, [""]))
      case None => None
    else None
  }

  /** `\\href\{([^}]*)\}\{([^}]*)\}`: the target and the label each end at the first `}`. */
  function MatchHref(t: string): (r: Option<Capture>)
    ensures Fits(r, t)
  {
    if !StartsWith(t, "\\href{") then None
    else
      match IndexFrom(t, "}", 6)
      case None => None
      case Some(k) =>
        if k + 1 < |t| && t[k + 1] == '{' then
          match IndexFrom(t, "}", k + 2)
          case Some(m) => Some(Capture(m + 1, [t[6..k], t[k + 2..m]]))
          case None => None
        else None
  }

  /** `\\section\*?\{([^}]*)\}` */
  function MatchSection(t: string): (r: Option<Capture>)
    ensures Fits(r, t)
  {
    if !StartsWith(t, "\\section") then None
    else
      var a := if |t| > 8 && t[8] == '*' then 9 else 8;
      if a < |t| && t[a] == '{' then
        match IndexFrom(t, "}", a + 1)
        case Some(k) => Some(Capture(k + 1, [t[a + 1..k]]))
        case None => None
      else None
  }

  /** `\\begin\{itemize\}\[[^\]]*label=\{\}[^\]]*\]`: an option list, closed by its first `]`,
      that mentions `label={}`. */
  function MatchNoBulletList(t: string): (r: Option<Capture>)
    ensures Fits(r, t)
  {
    if StartsWith(t, ItemizeOpen + "[") then
      match IndexFrom(t, "]", 16)
      case Some(q) => if Includes(t[16..q], "label={}") then Some(Capture(q + 1, [])) else None
      case None => None
    else None
  }

  /** `\\begin\{itemize\}(\[.*?\])?` */
  function MatchItemizeBegin(t: string): (r: Option<Capture>)
    ensures Fits(r, t)
  {
    if !StartsWith(t, ItemizeOpen) then None
    else if |t| > 15 && t[15] == '[' then
      match IndexOnLine(t, "]", 16)
      case Some(k) => Some(Capture(k + 1, [t[15..k + 1]]))
      case None => Some(Capture(15, [""]))
    else Some(Capture(15, [""]))
  }

  /** A position the item lookahead `(?=(\\item|\\end|\\resumeItemListEnd))` accepts. */
  predicate AtListMarker(u: string) {
    StartsWith(u, "\\item") || StartsWith(u, "\\end") || StartsWith(u, "\\resumeItemListEnd")
  }

  /** The text group 2 of the item pattern captures at a marker. */
  function MarkerText(u: string): (m: string)
    requires AtListMarker(u)
    ensures StartsWith(u, m)
  {
    if StartsWith(u, "\\item") then "\\item"
    else if StartsWith(u, "\\end") then "\\end"
    else "\\resumeItemListEnd"
  }

  /** `\\item\s+([\s\S]*?)(?=(\\item|\\end|\\resumeItemListEnd))`: the item text runs up to the
      next marker, which the match does not consume. */
  function MatchItem(t: string): (r: Option<Capture>)
    ensures Fits(r, t)
  {
    if StartsWith(t, "\\item") && |t| > 5 && IsSpace(t[5]) then
      var b := SpaceEnd(t, 5);
      match MarkerFrom(t, b)
      case Some(k) => Some(Capture(k, [t[b..k], MarkerText(t[k..])]))
      case None => None
    else None
  }

  /** The argument groups `(\s*\{([\s\S]*?)\}){n}` from position `p` of `t`, searched the way the
      engine backtracks: each group first tries its nearest `}`, then the next one. The result is
      the end of the match and the groups. */
  function Args(t: string, p: nat, n: nat): (r: Option<(nat, seq<string>)>)
    requires p <= |t|
    ensures r.Some? ==> p <= r.value.0 <= |t| && |r.value.1| == n
    decreases n, |t| - p + 1
  {
    if n == 0 then Some((p, []))
    else
      var j := SpaceEnd(t, p);
      if j < |t| && t[j] == '{' then ArgClose(t, j + 1, j + 1, n) else None
  }

  /** Candidate closing braces of one argument group that opened at `s - 1`; `k` is the next
      position to try. */
  function ArgClose(t: string, s: nat, k: nat, n: nat): (r: Option<(nat, seq<string>)>)
    requires s <= k <= |t| && n > 0
    ensures r.Some? ==> k < r.value.0 <= |t| && |r.value.1| == n
    decreases n, |t| - k
  {
    if k == |t| then None
    else if t[k] == '}' then
      match Args(t, k + 1, n - 1)
      case Some((e, gs)) => Some((e, [t[s..k]] + gs))
      case None => ArgClose(t, s, k + 1, n)
    else ArgClose(t, s, k + 1, n)
  }

  /** `\\resumeSubheading\s*\{([\s\S]*?)\}\s*\{([\s\S]*?)\}\s*\{([\s\S]*?)\}\s*\{([\s\S]*?)\}` */
  function MatchSubheading(t: string): (r: Option<Capture>)
    ensures Fits(r, t)
  {
    if !StartsWith(t, SubheadingOpen) then None
    else
      match Args(t, |SubheadingOpen|, 4)
      case Some((e, gs)) => Some(Capture(e, gs))
      case None => None
  }

  /** `\\[a-zA-Z]+\{.*?\}` */
  function MatchCommandWithArg(t: string): (r: Option<Capture>)
    ensures Fits(r, t)
  {
    if t != [] && t[0] == '\\' then
      var n := LetterEnd(t, 1);
      if n > 1 && n < |t| && t[n] == '{' then
        match IndexOnLine(t, "}", n + 1)
        case Some(k) => Some(Capture(k + 1, []))
        case None => None
      else None
    else None
  }

  /** `\\[a-zA-Z]+`: a backslash and all the letters after it. */
  function MatchCommand(t: string): (r: Option<Capture>)
    ensures Fits(r, t)
  {
    if |t| >= 2 && t[0] == '\\' && IsAsciiLetter(t[1]) then Some(Capture(LetterEnd(t, 1), [])) else None
  }

  /** The character every match of `p` begins with, where there is one. */
  function Lead(p: Pattern): Option<char> {
    match p
    case Literal(text) => if text != [] then Some(text[0]) else None
    case RestOfLine(lead) => if lead != [] then Some(lead[0]) else None
    case Between(open, _) => if open != [] then Some(open[0]) else None
    case BetweenOnLine(open, _) => if open != [] then Some(open[0]) else None
    case Spaced(lead, _) => if lead != [] then Some(lead[0]) else None
    case Heading(lead) => if lead != [] then Some(lead[0]) else None
    case Pipe => None
    case _ => Some('\\')
  }

  /** A match of `p` at the front of `t`. */
  function Match(p: Pattern, t: string): (r: Option<Capture>)
    ensures Fits(r, t)
  {
    match p
    case Literal(text) => if text != [] && StartsWith(t, text) then Some(Capture(|text|, [])) else None
    case RestOfLine(lead) => if lead != [] && StartsWith(t, lead) then Some(Capture(LineEnd(t, |lead|), [])) else None
    case Between(open, close) => MatchBetween(t, open, close)
    case BetweenOnLine(open, close) => MatchBetweenOnLine(t, open, close)
    case Spaced(lead, atLeastOne) => MatchSpaced(t, lead, atLeastOne)
    case Heading(lead) => MatchHeading(t, lead)
    case Pipe => MatchPipe(t)
    case LineBreak => MatchLineBreak(t)
    case MinipageBegin => MatchMinipage(t)
    case Href => MatchHref(t)
    case SectionTitle => MatchSection(t)
    case NoBulletList => MatchNoBulletList(t)
    case ItemizeBegin => MatchItemizeBegin(t)
    case Item => MatchItem(t)
    case Subheading => MatchSubheading(t)
    case CommandWithArg => MatchCommandWithArg(t)
    case Command => MatchCommand(t)
  }

  /** The groups of the argument search are made of characters of `t`. */
  lemma {:induction false} ArgsWithin(t: string, p: nat, n: nat)
    requires p <= |t|
    ensures Args(t, p, n).Some? ==> forall i :: 0 <= i < n ==> Within(Args(t, p, n).value.1[i], t)
    decreases n, |t| - p + 1
  {
    if n > 0 {
      var j := SpaceEnd(t, p);
      if j < |t| && t[j] == '{' {
        ArgCloseWithin(t, j + 1, j + 1, n);
      }
    }
  }

  lemma {:induction false} ArgCloseWithin(t: string, s: nat, k: nat, n: nat)
    requires s <= k <= |t| && n > 0
    ensures ArgClose(t, s, k, n).Some? ==> forall i :: 0 <= i < n ==> Within(ArgClose(t, s, k, n).value.1[i], t)
    decreases n, |t| - k
  {
    if k < |t| {
      if t[k] == '}' {
        ArgsWithin(t, k + 1, n - 1);
        if Args(t, k + 1, n - 1).None? {
          ArgCloseWithin(t, s, k + 1, n);
        }
      } else {
        ArgCloseWithin(t, s, k + 1, n);
      }
    }
  }

  /** Every group of a match is made of characters of the text it was found in. */
  ghost predicate GroupsIn(r: Option<Capture>, t: string) {
    r.Some? ==> forall i :: 0 <= i < |r.value.groups| ==> Within(r.value.groups[i], t)
  }

  lemma SliceWithin(t: string, i: nat, j: nat)
    requires i <= j <= |t|
    ensures Within(t[i..j], t)
  {
    forall ch | ch in t[i..j] ensures ch in t {
      var k :| 0 <= k < j - i && t[i..j][k] == ch;
      assert t[i + k] == ch;
    }
  }

  lemma BetweenWithin(t: string, open: string, close: string)
    ensures GroupsIn(MatchBetween(t, open, close), t)
  {
    if open != [] && StartsWith(t, open) && IndexFrom(t, close, |open|).Some? {
      SliceWithin(t, |open|, IndexFrom(t, close, |open|).value);
    }
  }

  lemma BetweenOnLineWithin(t: string, open: string, close: string)
    ensures GroupsIn(MatchBetweenOnLine(t, open, close), t)
  {
    if open != [] && StartsWith(t, open) && IndexOnLine(t, close, |open|).Some? {
      SliceWithin(t, |open|, IndexOnLine(t, close, |open|).value);
    }
  }

  lemma HeadingWithin(t: string, lead: string)
    ensures GroupsIn(MatchHeading(t, lead), t)
  {
    if lead != [] && StartsWith(t, lead) {
      var h := HeadingStart(t, |lead|, SpaceEnd(t, |lead|));
      if h.Some? {
        SliceWithin(t, h.value, LineEnd(t, h.value));
      }
    }
  }

  lemma LineBreakWithin(t: string)
    ensures GroupsIn(MatchLineBreak(t), t)
  {
    if StartsWith(t, "\\\\") {
      var b := SpaceEnd(t, 2);
      if StartsWith(t[b..], "[-") && IndexOnLine(t, "]", b + 2).Some? {
        SliceWithin(t, b, IndexOnLine(t, "]", b + 2).value + 1);
      }
    }
  }

  lemma MinipageWithin(t: string)
    ensures GroupsIn(MatchMinipage(t), t)
  {
    if StartsWith(t, MinipageOpen) && |t| > 16 && t[16] == '[' && WidthThenBrace(t, 17).Some? {
      SliceWithin(t, 16, WidthThenBrace(t, 17).value.0 + 1);
    }
  }

  lemma HrefWithin(t: string)
    ensures GroupsIn(MatchHref(t), t)
  {
    if StartsWith(t, "\\href{") && IndexFrom(t, "}", 6).Some? {
      var k := IndexFrom(t, "}", 6).value;
      if k + 1 < |t| && t[k + 1] == '{' && IndexFrom(t, "}", k + 2).Some? {
        SliceWithin(t, 6, k);
        SliceWithin(t, k + 2, IndexFrom(t, "}", k + 2).value);
      }
    }
  }

  lemma SectionWithin(t: string)
    ensures GroupsIn(MatchSection(t), t)
  {
    if StartsWith(t, "\\section") {
      var a := if |t| > 8 && t[8] == '*' then 9 else 8;
      if a < |t| && t[a] == '{' && IndexFrom(t, "}", a + 1).Some? {
        SliceWithin(t, a + 1, IndexFrom(t, "}", a + 1).value);
      }
    }
  }

  lemma ItemizeBeginWithin(t: string)
    ensures GroupsIn(MatchItemizeBegin(t), t)
  {
    if StartsWith(t, ItemizeOpen) && |t| > 15 && t[15] == '[' && IndexOnLine(t, "]", 16).Some? {
      SliceWithin(t, 15, IndexOnLine(t, "]", 16).value + 1);
    }
  }

  lemma ItemWithin(t: string)
    ensures GroupsIn(MatchItem(t), t)
  {
    if StartsWith(t, "\\item") && |t| > 5 && IsSpace(t[5]) {
      var b := SpaceEnd(t, 5);
      if MarkerFrom(t, b).Some? {
        var k := MarkerFrom(t, b).value;
        var m := MarkerText(t[k..]);
        assert m == t[k..k + |m|];
        SliceWithin(t, b, k);
        SliceWithin(t, k, k + |m|);
      }
    }
  }

  lemma SubheadingWithin(t: string)
    ensures GroupsIn(MatchSubheading(t), t)
  {
    if StartsWith(t, SubheadingOpen) {
      ArgsWithin(t, |SubheadingOpen|, 4);
    }
  }

  /** The groups of a match are made of characters of the text it was found in. */
  lemma GroupsWithin(p: Pattern, t: string)
    ensures GroupsIn(Match(p, t), t)
  {
    match p
    case Between(open, close) => BetweenWithin(t, open, close);
    case BetweenOnLine(open, close) => BetweenOnLineWithin(t, open, close);
    case Heading(lead) => HeadingWithin(t, lead);
    case LineBreak => LineBreakWithin(t);
    case MinipageBegin => MinipageWithin(t);
    case Href => HrefWithin(t);
    case SectionTitle => SectionWithin(t);
    case ItemizeBegin => ItemizeBeginWithin(t);
    case Item => ItemWithin(t);
    case Subheading => SubheadingWithin(t);
    case _ =>
  }

  /** What a match contributes to a replace result comes from the text or the replacement. */
  lemma CaptureConfined(s: string, m: Capture, r: Replacement)
    requires m.len <= |s| && GroupsIn(Some(m), s)
    ensures forall c :: c in Expand(r, m.groups) + s[m.len..] ==> c in s || c in Literals(r)
  {
    ExpandConfined(r, m.groups);
    assert forall c :: c in s[m.len..] ==> c in s;
  }


  /** `Match` one case at a time, for proofs that need one case without the others. */
  lemma IsBetween(open: string, close: string, t: string)
    ensures Match(Between(open, close), t) == MatchBetween(t, open, close)
  {
  }

  lemma IsBetweenOnLine(open: string, close: string, t: string)
    ensures Match(BetweenOnLine(open, close), t) == MatchBetweenOnLine(t, open, close)
  {
  }

  lemma IsMinipage(t: string)
    ensures Match(MinipageBegin, t) == MatchMinipage(t)
  {
  }

  lemma IsHref(t: string)
    ensures Match(Href, t) == MatchHref(t)
  {
  }

  lemma IsSection(t: string)
    ensures Match(SectionTitle, t) == MatchSection(t)
  {
  }

  lemma IsNoBulletList(t: string)
    ensures Match(NoBulletList, t) == MatchNoBulletList(t)
  {
  }

  lemma IsItemizeBegin(t: string)
    ensures Match(ItemizeBegin, t) == MatchItemizeBegin(t)
  {
  }

  lemma IsItem(t: string)
    ensures Match(Item, t) == MatchItem(t)
  {
  }

  lemma IsSubheading(t: string)
    ensures Match(Subheading, t) == MatchSubheading(t)
  {
  }

  lemma StartsLead(t: string, x: string)
    requires x != [] && StartsWith(t, x)
    ensures t[0] == x[0]
  {
    assert t[..|x|][0] == x[0];
  }

  /** Every match of `p` begins with its lead character. */
  lemma MatchLead(p: Pattern, t: string)
    requires Match(p, t).Some? && Lead(p).Some?
    ensures t[0] == Lead(p).value
  {
    match p
    case Literal(text) => StartsLead(t, text);
    case RestOfLine(lead) => StartsLead(t, lead);
    case Between(open, _) => StartsLead(t, open);
    case BetweenOnLine(open, _) => StartsLead(t, open);
    case Spaced(lead, _) => StartsLead(t, lead);
    case Heading(lead) => StartsLead(t, lead);
    case LineBreak => StartsLead(t, "\\\\");
    case MinipageBegin => StartsLead(t, MinipageOpen);
    case Href => StartsLead(t, "\\href{");
    case SectionTitle => StartsLead(t, "\\section");
    case NoBulletList => StartsLead(t, ItemizeOpen + "[");
    case ItemizeBegin => StartsLead(t, ItemizeOpen);
    case Item => StartsLead(t, "\\item");
    case Subheading => StartsLead(t, SubheadingOpen);
    case CommandWithArg =>
    case Command =>
  }

  /** A pattern whose matches begin with a backslash has no match at any other character. */
  lemma BackslashLead(p: Pattern, t: string)
    requires Lead(p) == Some('\\') && (t == [] || t[0] != '\\')
    ensures Match(p, t).None?
  {
    if Match(p, t).Some? {
      MatchLead(p, t);
    }
  }

  /** A piece of a replacement: literal text or `$n`. */
  datatype Piece = Chunk(text: string) | Group(n: nat)

  /** A replacement string, or the program's one callback, which picks one of two replacement
      forms by whether the first group contains one of the needles. */
  datatype Replacement =
    | Fill(pieces: seq<Piece>)
    | Choose(needles: seq<string>, found: seq<Piece>, otherwise: seq<Piece>)

  function Render(pieces: seq<Piece>, groups: seq<string>): string {
    if pieces == [] then ""
    else
      var head := match pieces[0]
        case Chunk(text) => text
        case Group(n) => if 1 <= n <= |groups| then groups[n - 1] else "";
      head + Render(pieces[1..], groups)
  }

  predicate AnyIncluded(s: string, needles: seq<string>) {
    exists i :: 0 <= i < |needles| && Includes(s, needles[i])
  }

  function Expand(r: Replacement, groups: seq<string>): string {
    match r
    case Fill(pieces) => Render(pieces, groups)
    case Choose(needles, found, otherwise) =>
      if groups != [] && AnyIncluded(groups[0], needles) then Render(found, groups) else Render(otherwise, groups)
  }

  /** A replacement that is plain text. */
  function Verbatim(s: string): Replacement {
    Fill([Chunk(s)])
  }

  /** The empty replacement: the match is deleted. */
  const Erase := Fill([])

  /** `before$1after` */
  function Wrap(before: string, after: string): Replacement {
    Fill([Chunk(before), Group(1), Chunk(after)])
  }

  lemma WrapExpand(before: string, after: string, groups: seq<string>)
    requires groups != []
    ensures Expand(Wrap(before, after), groups) == before + groups[0] + after
  {
    var pieces := [Chunk(before), Group(1), Chunk(after)];
    assert Render(pieces[2..], groups) == after;
    assert Render(pieces[1..], groups) == groups[0] + after;
  }

  lemma VerbatimExpand(x: string, groups: seq<string>)
    ensures Expand(Verbatim(x), groups) == x
  {
    assert Render([Chunk(x)][1..], groups) == "";
  }

  /** All the literal text of a replacement. */
  function TextOf(pieces: seq<Piece>): string {
    if pieces == [] then ""
    else (if pieces[0].Chunk? then pieces[0].text else "") + TextOf(pieces[1..])
  }

  function Literals(r: Replacement): string {
    match r
    case Fill(pieces) => TextOf(pieces)
    case Choose(_, found, otherwise) => TextOf(found) + TextOf(otherwise)
  }

  /** No literal text among `pieces` holds `c`. */
  predicate ChunksLack(pieces: seq<Piece>, c: char) {
    forall k, j :: 0 <= k < |pieces| && pieces[k].Chunk? && 0 <= j < |pieces[k].text| ==> pieces[k].text[j] != c
  }

  /** A replacement that never writes `c` itself. */
  predicate NeverWrites(r: Replacement, c: char) {
    match r
    case Fill(pieces) => ChunksLack(pieces, c)
    case Choose(_, found, otherwise) => ChunksLack(found, c) && ChunksLack(otherwise, c)
  }

  lemma {:induction false} TextOfLacks(pieces: seq<Piece>, c: char)
    requires ChunksLack(pieces, c)
    ensures c !in TextOf(pieces)
  {
    if pieces != [] {
      assert ChunksLack(pieces[1..], c) by {
        forall k, j | 0 <= k < |pieces[1..]| && pieces[1..][k].Chunk? && 0 <= j < |pieces[1..][k].text|
          ensures pieces[1..][k].text[j] != c
        {
          assert pieces[1..][k] == pieces[k + 1];
        }
      }
      TextOfLacks(pieces[1..], c);
    }
  }

  lemma LiteralsLack(r: Replacement, c: char)
    requires NeverWrites(r, c)
    ensures c !in Literals(r)
  {
    match r
    case Fill(pieces) => TextOfLacks(pieces, c);
    case Choose(_, found, otherwise) => TextOfLacks(found, c); TextOfLacks(otherwise, c);
  }

  /** Every character of an expanded replacement is literal text or comes from a group. */
  lemma {:induction false} RenderConfined(pieces: seq<Piece>, groups: seq<string>)
    ensures forall c :: c in Render(pieces, groups) ==>
      c in TextOf(pieces) || exists i :: 0 <= i < |groups| && c in groups[i]
  {
    if pieces != [] {
      RenderConfined(pieces[1..], groups);
    }
  }

  lemma ExpandConfined(r: Replacement, groups: seq<string>)
    ensures forall c :: c in Expand(r, groups) ==>
      c in Literals(r) || exists i :: 0 <= i < |groups| && c in groups[i]
  {
    match r
    case Fill(pieces) => RenderConfined(pieces, groups);
    case Choose(_, found, otherwise) => RenderConfined(found, groups); RenderConfined(otherwise, groups);
  }

  /** `s.replace(/p/g, r)` */
  function ReplaceAll(s: string, p: Pattern, r: Replacement): string
    decreases |s|
  {
    if s == [] then []
    else match Match(p, s)
      case Some(c) => Expand(r, c.groups) + ReplaceAll(s[c.len..], p, r)
      case None => [s[0]] + ReplaceAll(s[1..], p, r)
  }

  /** `s.replace(/p/, r)`: only the leftmost match is rewritten. */
  function ReplaceFirst(s: string, p: Pattern, r: Replacement): string
    decreases |s|
  {
    if s == [] then []
    else match Match(p, s)
      case Some(c) => Expand(r, c.groups) + s[c.len..]
      case None => [s[0]] + ReplaceFirst(s[1..], p, r)
  }

  /** `s.replace(/^p/, r)`: a match only at the very start. */
  function ReplaceAtStart(s: string, p: Pattern, r: Replacement): string {
    match Match(p, s)
    case Some(c) => Expand(r, c.groups) + s[c.len..]
    case None => s
  }

  datatype Mode = Global | FirstOnly | AtStart

  /** One `replace` call of the program. */
  datatype Rule = Rule(pattern: Pattern, replacement: Replacement, mode: Mode)

  function Apply(rule: Rule, s: string): string {
    match rule.mode
    case Global => ReplaceAll(s, rule.pattern, rule.replacement)
    case FirstOnly => ReplaceFirst(s, rule.pattern, rule.replacement)
    case AtStart => ReplaceAtStart(s, rule.pattern, rule.replacement)
  }

  /** The rules applied one after the other, each to the result of the previous one. */
  function Pipeline(rules: seq<Rule>, s: string): string
    decreases |rules|
  {
    if rules == [] then s else Pipeline(rules[1..], Apply(rules[0], s))
  }

  /** A replace never produces a character that is neither in its input nor in the
      replacement's literal text. */
  lemma {:induction false} ReplaceAllConfined(s: string, p: Pattern, r: Replacement)
    ensures forall c :: c in ReplaceAll(s, p, r) ==> c in s || c in Literals(r)
    decreases |s|
  {
    if s != [] {
      GroupsWithin(p, s);
      match Match(p, s)
      case Some(m) =>
        ReplaceAllConfined(s[m.len..], p, r);
        CaptureConfined(s, m, r);
        assert forall c :: c in s[m.len..] ==> c in s;
      case None =>
        ReplaceAllConfined(s[1..], p, r);
        assert forall c :: c in s[1..] ==> c in s;
    }
  }

  lemma {:induction false} ReplaceFirstConfined(s: string, p: Pattern, r: Replacement)
    ensures forall c :: c in ReplaceFirst(s, p, r) ==> c in s || c in Literals(r)
    decreases |s|
  {
    if s != [] {
      GroupsWithin(p, s);
      match Match(p, s)
      case Some(m) => CaptureConfined(s, m, r);
      case None =>
        ReplaceFirstConfined(s[1..], p, r);
        assert forall c :: c in s[1..] ==> c in s;
    }
  }

  lemma ApplyConfined(rule: Rule, s: string)
    ensures forall c :: c in Apply(rule, s) ==> c in s || c in Literals(rule.replacement)
  {
    match rule.mode
    case Global => ReplaceAllConfined(s, rule.pattern, rule.replacement);
    case FirstOnly => ReplaceFirstConfined(s, rule.pattern, rule.replacement);
    case AtStart =>
      GroupsWithin(rule.pattern, s);
      match Match(rule.pattern, s)
      case Some(m) => CaptureConfined(s, m, rule.replacement);
      case None =>
  }

  /** No rule of `rules` writes `c` itself. */
  predicate NoneWrites(rules: seq<Rule>, c: char) {
    forall i :: 0 <= i < |rules| ==> NeverWrites(rules[i].replacement, c)
  }

  lemma NoneWritesJoin(a: seq<Rule>, b: seq<Rule>, c: char)
    requires NoneWrites(a, c) && NoneWrites(b, c)
    ensures NoneWrites(a + b, c)
  {
    forall i | 0 <= i < |a + b| ensures NeverWrites((a + b)[i].replacement, c) {
      if i >= |a| {
        assert (a + b)[i] == b[i - |a|];
      }
    }
  }

  /** Running two lists of rules one after the other is running their concatenation. */
  lemma {:induction false} PipelineJoin(a: seq<Rule>, b: seq<Rule>, s: string)
    ensures Pipeline(a + b, s) == Pipeline(b, Pipeline(a, s))
    decreases |a|
  {
    if a == [] {
      assert a + b == b;
    } else {
      assert (a + b)[0] == a[0] && (a + b)[1..] == a[1..] + b;
      PipelineJoin(a[1..], b, Apply(a[0], s));
    }
  }

  /** A character that is neither in the input nor in any rule's literal text never appears. */
  lemma {:induction false} PipelineAvoids(rules: seq<Rule>, s: string, c: char)
    requires c !in s
    requires NoneWrites(rules, c)
    ensures c !in Pipeline(rules, s)
    decreases |rules|
  {
    if rules != [] {
      ApplyConfined(rules[0], s);
      LiteralsLack(rules[0].replacement, c);
      PipelineAvoids(rules[1..], Apply(rules[0], s), c);
    }
  }

  /** One step of a pipeline that has already run its first `i` rules. */
  lemma PipelineFrom(rules: seq<Rule>, i: nat, s: string)
    requires i < |rules|
    ensures Pipeline(rules[i..], s) == Pipeline(rules[i + 1..], Apply(rules[i], s))
  {
    assert rules[i..][0] == rules[i] && rules[i..][1..] == rules[i + 1..];
  }

  /** The last rule of a pipeline sees the result of all the others. */
  lemma {:induction false} PipelineLast(rules: seq<Rule>, s: string)
    requires rules != []
    ensures Pipeline(rules, s) == Apply(rules[|rules| - 1], Pipeline(rules[..|rules| - 1], s))
    decreases |rules|
  {
    if |rules| > 1 {
      PipelineLast(rules[1..], Apply(rules[0], s));
      assert rules[1..][..|rules[1..]| - 1] == rules[..|rules| - 1][1..];
    }
  }

  /** Text that holds no character a match could begin with passes through a global replace
      untouched, and the scan resumes where that text ends. */
  lemma {:induction false} ReplaceAllSkips(a: string, b: string, p: Pattern, r: Replacement)
    requires Lead(p).Some? && Lead(p).value !in a
    ensures ReplaceAll(a + b, p, r) == a + ReplaceAll(b, p, r)
    decreases |a|
  {
    if a != [] {
      NoLeadNoMatch(a, b, p);
      ReplaceAllMissJoin(a, b, p, r);
      ReplaceAllSkips(a[1..], b, p, r);
      PrependAssoc(a, ReplaceAll(b, p, r));
    } else {
      assert a + b == b;
    }
  }

  /** A text that does not begin with the lead character has no match at its front, and the
      rest of it lacks the lead character too. */
  lemma NoLeadNoMatch(a: string, b: string, p: Pattern)
    requires a != [] && Lead(p).Some? && Lead(p).value !in a
    ensures Match(p, a + b).None? && Lead(p).value !in a[1..]
  {
    if Match(p, a + b).Some? {
      MatchLead(p, a + b);
      assert false;
    }
    assert forall c :: c in a[1..] ==> c in a;
  }

  /** A text with no match at its front and no lead character after it is kept whole. */
  lemma ReplaceAllPasses(a: string, b: string, p: Pattern, r: Replacement)
    requires a != [] && Match(p, a + b).None? && Lead(p).Some? && Lead(p).value !in a[1..]
    ensures ReplaceAll(a + b, p, r) == a + ReplaceAll(b, p, r)
  {
    ReplaceAllMissJoin(a, b, p, r);
    ReplaceAllSkips(a[1..], b, p, r);
    PrependAssoc(a, ReplaceAll(b, p, r));
  }

  /** Where no match starts at the front, the first character is kept and the scan moves on. */
  lemma ReplaceAllMiss(s: string, p: Pattern, r: Replacement)
    requires s != [] && Match(p, s).None?
    ensures ReplaceAll(s, p, r) == [s[0]] + ReplaceAll(s[1..], p, r)
  {
  }

  lemma ReplaceAllMissJoin(a: string, b: string, p: Pattern, r: Replacement)
    requires a != [] && Match(p, a + b).None?
    ensures ReplaceAll(a + b, p, r) == [a[0]] + ReplaceAll(a[1..] + b, p, r)
  {
    ReplaceAllMiss(a + b, p, r);
    assert (a + b)[1..] == a[1..] + b;
  }

  lemma PrependAssoc(a: string, x: string)
    requires a != []
    ensures [a[0]] + (a[1..] + x) == a + x
  {
    assert [a[0]] + a[1..] == a;
  }

  /** Where no match starts anywhere in `a`, `a` is kept whole and the scan resumes after it. */
  lemma {:induction false} ReplaceAllKeepsText(a: string, b: string, p: Pattern, r: Replacement)
    requires forall k :: 0 <= k < |a| ==> Match(p, (a + b)[k..]).None?
    ensures ReplaceAll(a + b, p, r) == a + ReplaceAll(b, p, r)
    decreases |a|
  {
    if a == [] {
      assert a + b == b;
    } else {
      assert ReplaceAll(a + b, p, r) == [a[0]] + ReplaceAll(a[1..] + b, p, r) by {
        assert (a + b)[0..] == a + b;
        ReplaceAllMissJoin(a, b, p, r);
      }
      NoMatchShift(a, b, p);
      ReplaceAllKeepsText(a[1..], b, p, r);
      PrependAssoc(a, ReplaceAll(b, p, r));
    }
  }

  lemma NoMatchShift(a: string, b: string, p: Pattern)
    requires a != [] && forall k :: 0 <= k < |a| ==> Match(p, (a + b)[k..]).None?
    ensures forall k :: 0 <= k < |a[1..]| ==> Match(p, (a[1..] + b)[k..]).None?
  {
    forall k | 0 <= k < |a[1..]| ensures Match(p, (a[1..] + b)[k..]).None? {
      assert (a[1..] + b)[k..] == (a + b)[k + 1..];
    }
  }

  /** A first character that cannot begin a match is kept in front. */
  lemma ReplaceAllKeepsFirst(s: string, p: Pattern, r: Replacement)
    requires s != [] && Lead(p).Some? && s[0] != Lead(p).value
    ensures ReplaceAll(s, p, r) != [] && ReplaceAll(s, p, r)[0] == s[0]
  {
    if Match(p, s).Some? {
      MatchLead(p, s);
      assert false;
    }
  }

  /** A match that covers exactly the text `t` is rewritten, and the scan resumes after it. */
  lemma ReplaceAllHit(t: string, rest: string, p: Pattern, r: Replacement, groups: seq<string>)
    requires Match(p, t + rest) == Some(Capture(|t|, groups))
    ensures ReplaceAll(t + rest, p, r) == Expand(r, groups) + ReplaceAll(rest, p, r)
  {
    assert (t + rest)[|t|..] == rest;
  }

  /** Where the pattern matches nowhere, a global replace changes nothing. */
  lemma {:induction false} ReplaceAllNoMatch(s: string, p: Pattern, r: Replacement)
    requires forall k :: 0 <= k < |s| ==> Match(p, s[k..]).None?
    ensures ReplaceAll(s, p, r) == s
    decreases |s|
  {
    if s != [] {
      assert Match(p, s[0..]).None? && s[0..] == s;
      forall k | 0 <= k < |s[1..]| ensures Match(p, s[1..][k..]).None? {
        assert s[1..][k..] == s[k + 1..];
      }
      ReplaceAllNoMatch(s[1..], p, r);
    }
  }

  /** No backslash in `s` is directly followed by an ASCII letter: no command is left. */
  predicate NoCommand(s: string) {
    forall k :: 0 <= k < |s| - 1 ==> !(s[k] == '\\' && IsAsciiLetter(s[k + 1]))
  }

  /** `s.replace(/\\[a-zA-Z]+/g, "")` leaves no command, and what it leaves begins with a
      letter only where `s` does. */
  lemma {:induction false} CommandsRemoved(s: string)
    ensures NoCommand(ReplaceAll(s, Command, Fill([])))
    ensures var o := ReplaceAll(s, Command, Fill([]));
      o != [] && IsAsciiLetter(o[0]) ==> s != [] && IsAsciiLetter(s[0])
    decreases |s|
  {
    if s != [] {
      var o := ReplaceAll(s, Command, Fill([]));
      match Match(Command, s)
      case Some(m) =>
        CommandsRemoved(s[m.len..]);
        assert Expand(Fill([]), m.groups) == "";
        assert o == ReplaceAll(s[m.len..], Command, Fill([]));
        LetterEndStops(s, 1);
        assert m.len < |s| ==> !IsAsciiLetter(s[m.len..][0]);
      case None =>
        CommandsRemoved(s[1..]);
        var tail := ReplaceAll(s[1..], Command, Fill([]));
        assert o == [s[0]] + tail;
        if s[0] == '\\' && tail != [] {
          assert !IsAsciiLetter(tail[0]);
        }
    }
  }

  /** `t` holds `x` at position `p`. */
  ghost predicate HasAt(t: string, p: nat, x: string) {
    p + |x| <= |t| && t[p..p + |x|] == x
  }

  lemma Front(x: string, rest: string)
    ensures HasAt(x + rest, 0, x) && (x + rest)[|x|..] == rest
  {
  }

  lemma Halves(t: string, p: nat, a: string, b: string)
    requires HasAt(t, p, a + b)
    ensures HasAt(t, p, a) && HasAt(t, p + |a|, b)
  {
    assert t[p..p + |a|] == t[p..p + |a + b|][..|a|];
    assert (a + b)[..|a|] == a;
    assert t[p + |a|..p + |a| + |b|] == t[p..p + |a + b|][|a|..];
    assert (a + b)[|a|..] == b;
  }

  lemma Joined(t: string, p: nat, a: string, b: string)
    requires HasAt(t, p, a) && HasAt(t, p + |a|, b)
    ensures HasAt(t, p, a + b)
  {
    assert t[p..p + |a| + |b|] == t[p..p + |a|] + t[p + |a|..p + |a| + |b|];
  }

  lemma CharAt(t: string, p: nat, c: char)
    requires HasAt(t, p, [c])
    ensures t[p] == c
  {
    assert t[p..p + 1][0] == t[p];
  }

  lemma HasAtStart(t: string, x: string)
    requires HasAt(t, 0, x)
    ensures StartsWith(t, x)
  {
    assert t[..|x|] == t[0..|x|];
  }

  /** A text that does not start at position `j` of `g` does not start there in `t` either. */
  lemma InsideAt(t: string, i: nat, g: string, j: nat, c: string)
    requires HasAt(t, i, g) && j + |c| <= |g| && !StartsWith(g[j..], c)
    ensures !StartsWith(t[i + j..], c)
  {
    assert forall m :: 0 <= m < |c| ==> t[i + j..][m] == g[j..][m];
  }

  /** Where `g` holds no occurrence of a non-empty `c`, and no proper suffix of `c` is also a
      prefix of it, the first `c` after `g` is the one written right after it. */
  lemma FirstOccurrence(t: string, i: nat, g: string, c: string)
    requires HasAt(t, i, g) && HasAt(t, i + |g|, c)
    requires c != [] && c[0] !in c[1..] && !Includes(g, c)
    ensures IndexFrom(t, c, i) == Some(i + |g|)
  {
    IncludesAt(g, c);
    forall k | i <= k < i + |g| ensures !StartsWith(t[k..], c) {
      var j := k - i;
      if j + |c| <= |g| {
        InsideAt(t, i, g, j, c);
      } else if |c| <= |t[k..]| {
        var d := i + |g| - k;
        assert t[k + d] == c[0];
        assert c[1..][d - 1] == c[d];
        assert t[k..][..|c|][d] == t[k + d];
      }
    }
    assert t[i + |g|..][..|c|] == c;
    IndexFromFirst(t, c, i);
  }

  /** `LineEnd` passes over text that holds no line terminator. */
  lemma LineEndBeyond(t: string, i: nat, g: string)
    requires HasAt(t, i, g) && OnOneLine(g)
    ensures LineEnd(t, i) >= i + |g|
  {
    assert forall k :: i <= k < i + |g| ==> t[k] == g[k - i];
    LineEndStops(t, i);
  }

  /** `FirstOccurrence` for a lazy `.*?`: the closer is found on the same line. */
  lemma FirstOnLine(t: string, i: nat, g: string, c: string)
    requires HasAt(t, i, g) && HasAt(t, i + |g|, c)
    requires c != [] && c[0] !in c[1..] && !Includes(g, c) && OnOneLine(g)
    ensures IndexOnLine(t, c, i) == Some(i + |g|)
  {
    FirstOccurrence(t, i, g, c);
    LineEndBeyond(t, i, g);
  }

  /** `SpaceEnd` stops right after a whitespace run that is followed by something else. */
  lemma SpaceEndAt(t: string, i: nat, w: string)
    requires HasAt(t, i, w) && AllSpace(w) && i + |w| < |t| && !IsSpace(t[i + |w|])
    ensures SpaceEnd(t, i) == i + |w|
  {
    assert forall k :: i <= k < i + |w| ==> t[k] == w[k - i];
    SpaceEndStops(t, i);
  }

  /** The same, where the run may also end the text. */
  lemma SpaceEndIs(t: string, i: nat, w: string)
    requires HasAt(t, i, w) && AllSpace(w) && (i + |w| == |t| || !IsSpace(t[i + |w|]))
    ensures SpaceEnd(t, i) == i + |w|
  {
    assert forall k :: i <= k < i + |w| ==> t[k] == w[k - i];
    SpaceEndStops(t, i);
  }

  /** `open([\s\S]*?)close` captures `g` when `g`, which follows `open`, holds no `close`. */
  lemma BetweenAt(t: string, open: string, g: string, close: string)
    requires open != [] && HasAt(t, 0, open) && HasAt(t, |open|, g) && HasAt(t, |open| + |g|, close)
    requires close != [] && close[0] !in close[1..] && !Includes(g, close)
    ensures MatchBetween(t, open, close) == Some(Capture(|open| + |g| + |close|, [g]))
  {
    HasAtStart(t, open);
    FirstOccurrence(t, |open|, g, close);
    BetweenFound(t, open, close, g);
  }

  lemma BetweenFound(t: string, open: string, close: string, g: string)
    requires open != [] && StartsWith(t, open) && HasAt(t, |open|, g)
    requires IndexFrom(t, close, |open|) == Some(|open| + |g|)
    ensures MatchBetween(t, open, close) == Some(Capture(|open| + |g| + |close|, [g]))
  {
    var k := |open| + |g|;
    assert |open| <= k <= |t| && t[|open|..k] == g;
    BetweenFoundAt(t, open, close, k, g);
  }

  lemma BetweenFoundAt(t: string, open: string, close: string, k: nat, g: string)
    requires open != [] && StartsWith(t, open) && IndexFrom(t, close, |open|) == Some(k)
    requires |open| <= k <= |t| && t[|open|..k] == g
    ensures MatchBetween(t, open, close) == Some(Capture(k + |close|, [g]))
  {
  }

  lemma BetweenFirst(open: string, g: string, close: string, rest: string)
    requires open != [] && close != [] && close[0] !in close[1..] && !Includes(g, close)
    ensures Match(Between(open, close), open + g + close + rest)
      == Some(Capture(|open| + |g| + |close|, [g]))
  {
    var t := open + g + close + rest;
    Front(open + g + close, rest);
    Halves(t, 0, open + g, close);
    Halves(t, 0, open, g);
    BetweenAt(t, open, g, close);
    IsBetween(open, close, t);
  }

  /** `open(.*?)close`: the same, when `g` also lies on one line. */
  lemma OnLineAt(t: string, open: string, g: string, close: string)
    requires open != [] && HasAt(t, 0, open) && HasAt(t, |open|, g) && HasAt(t, |open| + |g|, close)
    requires close != [] && close[0] !in close[1..] && !Includes(g, close) && OnOneLine(g)
    ensures MatchBetweenOnLine(t, open, close) == Some(Capture(|open| + |g| + |close|, [g]))
  {
    HasAtStart(t, open);
    FirstOnLine(t, |open|, g, close);
    OnLineFound(t, open, close, g);
  }

  lemma OnLineFound(t: string, open: string, close: string, g: string)
    requires open != [] && StartsWith(t, open) && HasAt(t, |open|, g)
    requires IndexOnLine(t, close, |open|) == Some(|open| + |g|)
    ensures MatchBetweenOnLine(t, open, close) == Some(Capture(|open| + |g| + |close|, [g]))
  {
    OnLineFoundAt(t, open, close, |open| + |g|, g);
  }

  lemma OnLineFoundAt(t: string, open: string, close: string, k: nat, g: string)
    requires open != [] && StartsWith(t, open) && IndexOnLine(t, close, |open|) == Some(k)
    requires |open| <= k <= |t| && t[|open|..k] == g
    ensures MatchBetweenOnLine(t, open, close) == Some(Capture(k + |close|, [g]))
  {
  }

  lemma BetweenOnLineFirst(open: string, g: string, close: string, rest: string)
    requires open != [] && close != [] && close[0] !in close[1..] && !Includes(g, close)
    requires OnOneLine(g)
    ensures Match(BetweenOnLine(open, close), open + g + close + rest)
      == Some(Capture(|open| + |g| + |close|, [g]))
  {
    var t := open + g + close + rest;
    Front(open + g + close, rest);
    Halves(t, 0, open + g, close);
    Halves(t, 0, open, g);
    OnLineAt(t, open, g, close);
    IsBetweenOnLine(open, close, t);
  }

  /** A one-character closer: "holds no `c`" is simply "`c` does not occur". */
  lemma NoChar(g: string, c: char)
    requires c !in g
    ensures !Includes(g, [c]) && [c][0] !in [c][1..]
  {
    IncludesCharOnly(g, c);
  }

  /** Where no character of `s` is the pattern's lead, it matches nowhere in `s`. */
  lemma LeadAbsent(p: Pattern, s: string)
    requires Lead(p).Some? && Lead(p).value !in s
    ensures forall k :: 0 <= k < |s| ==> Match(p, s[k..]).None?
  {
    forall k | 0 <= k < |s| ensures Match(p, s[k..]).None? {
      assert s[k..][0] == s[k];
      if Match(p, s[k..]).Some? {
        MatchLead(p, s[k..]);
      }
    }
  }

  /** A text whose first character differs from that of `p` does not start with `p`. */
  lemma NotStartsWith(u: string, p: string)
    requires p != [] && (u == [] || u[0] != p[0])
    ensures !StartsWith(u, p)
  {
    if u != [] && |p| <= |u| {
      assert u[..|p|][0] == u[0];
    }
  }

  /** A text that differs from `x` at some position within both does not start with `x`. */
  lemma DiffersAt(t: string, x: string, k: nat)
    requires k < |t| && k < |x| && t[k] != x[k]
    ensures !StartsWith(t, x)
  {
    if |x| <= |t| {
      assert t[..|x|][k] == t[k];
    }
  }

  /** The pipe pattern needs a `$`. */
  lemma PipeAbsent(s: string)
    requires '$' !in s
    ensures forall k :: 0 <= k < |s| ==> Match(Pipe, s[k..]).None?
  {
    forall k | 0 <= k < |s| ensures Match(Pipe, s[k..]).None? {
      var t := s[k..];
      var a := if t != [] && t[0] == '\\' then 1 else 0;
      var b := SpaceEnd(t, a);
      if b < |t| {
        assert t[b..][0] == t[b] == s[k + b];
      }
      NotStartsWith(t[b..], "$|$");
    }
  }

  lemma {:induction false} ReplaceFirstNoMatch(s: string, p: Pattern, r: Replacement)
    requires forall k :: 0 <= k < |s| ==> Match(p, s[k..]).None?
    ensures ReplaceFirst(s, p, r) == s
    decreases |s|
  {
    if s != [] {
      assert Match(p, s[0..]).None? && s[0..] == s;
      forall k | 0 <= k < |s[1..]| ensures Match(p, s[1..][k..]).None? {
        assert s[1..][k..] == s[k + 1..];
      }
      ReplaceFirstNoMatch(s[1..], p, r);
    }
  }

  /** A rule whose pattern matches nowhere in `s` leaves `s` as it is, whatever its mode. */
  lemma ApplyNoMatch(rule: Rule, s: string)
    requires forall k :: 0 <= k < |s| ==> Match(rule.pattern, s[k..]).None?
    ensures Apply(rule, s) == s
  {
    match rule.mode
    case Global => ReplaceAllNoMatch(s, rule.pattern, rule.replacement);
    case FirstOnly => ReplaceFirstNoMatch(s, rule.pattern, rule.replacement);
    case AtStart =>
      if s != [] {
        assert s[0..] == s;
      }
  }

  /** A text that every rule leaves as it is passes through the whole pipeline. */
  lemma {:induction false} PipelineFixed(rules: seq<Rule>, s: string)
    requires forall i :: 0 <= i < |rules| ==> Apply(rules[i], s) == s
    ensures Pipeline(rules, s) == s
    decreases |rules|
  {
    if rules != [] {
      assert forall i :: 0 <= i < |rules[1..]| ==> rules[1..][i] == rules[i + 1];
      PipelineFixed(rules[1..], s);
    }
  }

  /** The `}` that closes an argument group is the first one after its `{`. */
  lemma {:induction false} ArgCloseFirst(t: string, s: nat, k: nat, e: nat, n: nat)
    requires s <= k <= e < |t| && n > 0 && t[e] == '}'
    requires forall j :: k <= j < e ==> t[j] != '}'
    requires Args(t, e + 1, n - 1).Some?
    ensures ArgClose(t, s, k, n)
      == Some((Args(t, e + 1, n - 1).value.0, [t[s..e]] + Args(t, e + 1, n - 1).value.1))
    decreases e - k
  {
    if k < e {
      ArgCloseFirst(t, s, k + 1, e, n);
    }
  }

  /** One argument group `w{a}` at `p` is closed by its first `}`, and the search goes on
      after it. */
  lemma ArgStep(t: string, p: nat, w: string, a: string, q: nat, n: nat, end: nat, more: seq<string>)
    requires HasAt(t, p, w) && HasAt(t, p + |w|, "{") && HasAt(t, p + |w| + 1, a) && HasAt(t, p + |w| + 1 + |a|, "}")
    requires AllSpace(w) && '}' !in a && q == p + |w| + |a| + 2 && q <= |t| && n > 0
    requires Args(t, q, n - 1) == Some((end, more))
    ensures Args(t, p, n) == Some((end, [a] + more))
  {
    var j := p + |w|;
    var e := j + 1 + |a|;
    CharAt(t, j, '{');
    CharAt(t, e, '}');
    SpaceEndAt(t, p, w);
    NoCloseWithin(t, j + 1, a);
    ArgCloseFirst(t, j + 1, j + 1, e, n);
    ArgsOpen(t, p, n);
  }

  lemma NoCloseWithin(t: string, q: nat, a: string)
    requires HasAt(t, q, a) && '}' !in a
    ensures forall m :: q <= m < q + |a| ==> t[m] != '}'
  {
    forall m | q <= m < q + |a| ensures t[m] != '}' {
      assert t[m] == t[q..q + |a|][m - q];
    }
  }

  /** Where a `{` follows the blanks, the arguments are read from the character after it. */
  lemma ArgsOpen(t: string, p: nat, n: nat)
    requires p <= |t| && n > 0 && SpaceEnd(t, p) < |t| && t[SpaceEnd(t, p)] == '{'
    ensures Args(t, p, n) == ArgClose(t, SpaceEnd(t, p) + 1, SpaceEnd(t, p) + 1, n)
  {
  }

  /** Argument groups `w{a}` written one after the other. */
  function ArgText(ws: seq<string>, args: seq<string>): string
    requires |ws| == |args|
  {
    if args == [] then "" else ws[0] + "{" + args[0] + "}" + ArgText(ws[1..], args[1..])
  }

  /** Blanks before each group, and no closing brace inside any argument. */
  predicate PlainArgs(ws: seq<string>, args: seq<string>) {
    |ws| == |args| && forall i :: 0 <= i < |args| ==> AllSpace(ws[i]) && '}' !in args[i]
  }

  /** Groups `w{a}` whose `w` is whitespace and whose `a` holds no `}` are captured as written,
      each `a` in its own group. */
  lemma {:induction false} ArgsAt(t: string, p: nat, ws: seq<string>, args: seq<string>)
    requires PlainArgs(ws, args) && HasAt(t, p, ArgText(ws, args))
    ensures Args(t, p, |args|) == Some((p + |ArgText(ws, args)|, args))
    decreases |args|
  {
    if args != [] {
      var q := ArgsRest(t, p, ws, args);
      ArgsAt(t, q, ws[1..], args[1..]);
      ArgsJoin(t, p, q, ws, args);
    }
  }

  /** The first group, then the others from `q` on, are the groups from `p` on. */
  lemma ArgsJoin(t: string, p: nat, q: nat, ws: seq<string>, args: seq<string>)
    requires |ws| == |args| && args != [] && q == p + |ws[0]| + |args[0]| + 2 && q <= |t|
    requires HasAt(t, p, ws[0]) && HasAt(t, p + |ws[0]|, "{") && HasAt(t, p + |ws[0]| + 1, args[0])
    requires HasAt(t, p + |ws[0]| + 1 + |args[0]|, "}") && AllSpace(ws[0]) && '}' !in args[0]
    requires Args(t, q, |args[1..]|) == Some((q + |ArgText(ws[1..], args[1..])|, args[1..]))
    ensures Args(t, p, |args|) == Some((p + |ArgText(ws, args)|, args))
  {
    var end := p + |ArgText(ws, args)|;
    ArgsSum(p, q, ws, args);
    ArgStep(t, p, ws[0], args[0], q, |args|, end, args[1..]);
  }

  /** The first group is followed, at `q`, by the text of the other groups. */
  lemma ArgsRest(t: string, p: nat, ws: seq<string>, args: seq<string>) returns (q: nat)
    requires PlainArgs(ws, args) && HasAt(t, p, ArgText(ws, args)) && args != []
    ensures q == p + |ws[0]| + |args[0]| + 2 && q <= |t|
    ensures PlainArgs(ws[1..], args[1..]) && HasAt(t, q, ArgText(ws[1..], args[1..]))
    ensures HasAt(t, p, ws[0]) && HasAt(t, p + |ws[0]|, "{") && HasAt(t, p + |ws[0]| + 1, args[0])
    ensures HasAt(t, p + |ws[0]| + 1 + |args[0]|, "}") && AllSpace(ws[0]) && '}' !in args[0]
  {
    var w, a, tail := ws[0], args[0], ArgText(ws[1..], args[1..]);
    assert ArgText(ws, args) == w + "{" + a + "}" + tail;
    ArgHalves(t, p, w, a, tail);
    PlainArgsTail(ws, args);
    q := p + |w| + |a| + 2;
  }

  lemma ArgsSum(p: nat, q: nat, ws: seq<string>, args: seq<string>)
    requires |ws| == |args| && args != [] && q == p + |ws[0]| + |args[0]| + 2
    ensures q + |ArgText(ws[1..], args[1..])| == p + |ArgText(ws, args)|
    ensures [args[0]] + args[1..] == args && |args[1..]| + 1 == |args|
  {
  }

  lemma ArgHalves(t: string, p: nat, w: string, a: string, tail: string)
    requires HasAt(t, p, w + "{" + a + "}" + tail)
    ensures HasAt(t, p, w) && HasAt(t, p + |w|, "{") && HasAt(t, p + |w| + 1, a)
    ensures HasAt(t, p + |w| + 1 + |a|, "}") && HasAt(t, p + |w| + |a| + 2, tail)
  {
    Halves(t, p, w + "{" + a + "}", tail);
    Halves(t, p, w + "{" + a, "}");
    Halves(t, p, w + "{", a);
    Halves(t, p, w, "{");
  }

  lemma PlainArgsTail(ws: seq<string>, args: seq<string>)
    requires PlainArgs(ws, args) && args != []
    ensures PlainArgs(ws[1..], args[1..]) && AllSpace(ws[0]) && '}' !in args[0]
  {
    assert forall i :: 0 <= i < |args| - 1 ==> ws[1..][i] == ws[i + 1] && args[1..][i] == args[i + 1];
  }

  /** `\resumeSubheading` followed by four such groups captures the four arguments in order. */
  lemma SubheadingArgs(ws: seq<string>, args: seq<string>, rest: string)
    requires |ws| == |args| == 4
    requires forall i :: 0 <= i < 4 ==> AllSpace(ws[i]) && '}' !in args[i]
    ensures Match(Subheading, SubheadingOpen + ArgText(ws, args) + rest)
      == Some(Capture(|SubheadingOpen| + |ArgText(ws, args)|, args))
  {
    var t := SubheadingOpen + ArgText(ws, args) + rest;
    IsSubheading(t);
    Front(SubheadingOpen + ArgText(ws, args), rest);
    Halves(t, 0, SubheadingOpen, ArgText(ws, args));
    HasAtStart(t, SubheadingOpen);
    assert PlainArgs(ws, args);
    ArgsAt(t, |SubheadingOpen|, ws, args);
  }

  lemma HrefAt(t: string, u: string, l: string)
    requires HasAt(t, 0, "\\href{") && HasAt(t, 6, u) && HasAt(t, 6 + |u|, "}") && HasAt(t, 7 + |u|, "{")
    requires HasAt(t, 8 + |u|, l) && HasAt(t, 8 + |u| + |l|, "}")
    requires '}' !in u && '}' !in l
    ensures MatchHref(t) == Some(Capture(9 + |u| + |l|, [u, l]))
  {
    HasAtStart(t, "\\href{");
    NoChar(u, '}');
    NoChar(l, '}');
    FirstOccurrence(t, 6, u, "}");
    CharAt(t, 7 + |u|, '{');
    FirstOccurrence(t, 8 + |u|, l, "}");
  }

  /** `\href{u}{l}` captures the target and the label when neither holds a `}`. */
  lemma HrefArgs(u: string, l: string, rest: string)
    requires '}' !in u && '}' !in l
    ensures Match(Href, "\\href{" + u + "}" + "{" + l + "}" + rest) == Some(Capture(9 + |u| + |l|, [u, l]))
  {
    var t := "\\href{" + u + "}" + "{" + l + "}" + rest;
    Front("\\href{" + u + "}" + "{" + l + "}", rest);
    Halves(t, 0, "\\href{" + u + "}" + "{" + l, "}");
    Halves(t, 0, "\\href{" + u + "}" + "{", l);
    Halves(t, 0, "\\href{" + u + "}", "{");
    Halves(t, 0, "\\href{" + u, "}");
    Halves(t, 0, "\\href{", u);
    HrefAt(t, u, l);
    IsHref(t);
  }

  lemma SectionAt(t: string, star: string, x: string)
    requires star == "" || star == "*"
    requires HasAt(t, 0, "\\section") && HasAt(t, 8, star) && HasAt(t, 8 + |star|, "{")
    requires HasAt(t, 9 + |star|, x) && HasAt(t, 9 + |star| + |x|, "}") && '}' !in x
    ensures MatchSection(t) == Some(Capture(10 + |star| + |x|, [x]))
  {
    HasAtStart(t, "\\section");
    CharAt(t, 8 + |star|, '{');
    if star == "*" {
      CharAt(t, 8, '*');
    }
    NoChar(x, '}');
    FirstOccurrence(t, 9 + |star|, x, "}");
  }

  /** `\section{x}` and `\section*{x}` capture `x` when it holds no `}`. */
  lemma SectionArg(star: string, x: string, rest: string)
    requires star == "" || star == "*"
    requires '}' !in x
    ensures Match(SectionTitle, "\\section" + star + "{" + x + "}" + rest)
      == Some(Capture(10 + |star| + |x|, [x]))
  {
    var t := "\\section" + star + "{" + x + "}" + rest;
    Front("\\section" + star + "{" + x + "}", rest);
    Halves(t, 0, "\\section" + star + "{" + x, "}");
    Halves(t, 0, "\\section" + star + "{", x);
    Halves(t, 0, "\\section" + star, "{");
    Halves(t, 0, "\\section", star);
    SectionAt(t, star, x);
    IsSection(t);
  }

  lemma NoBulletAt(t: string, o: string)
    requires HasAt(t, 0, ItemizeOpen + "[") && HasAt(t, 16, o) && HasAt(t, 16 + |o|, "]") && ']' !in o
    ensures MatchNoBulletList(t)
      == if Includes(o, "label={}") then Some(Capture(17 + |o|, [])) else None
  {
    HasAtStart(t, ItemizeOpen + "[");
    NoChar(o, ']');
    FirstOccurrence(t, 16, o, "]");
  }

  /** The option list `[o]` of an itemize ends at its first `]`; it switches bullets off exactly
      when it mentions `label={}`. */
  lemma NoBulletOptions(o: string, rest: string)
    requires ']' !in o
    ensures Match(NoBulletList, ItemizeOpen + "[" + o + "]" + rest)
      == if Includes(o, "label={}") then Some(Capture(17 + |o|, [])) else None
  {
    NoBulletText(o, rest);
    IsNoBulletList(ItemizeOpen + "[" + o + "]" + rest);
  }

  lemma NoBulletText(o: string, rest: string)
    requires ']' !in o
    ensures MatchNoBulletList(ItemizeOpen + "[" + o + "]" + rest)
      == if Includes(o, "label={}") then Some(Capture(17 + |o|, [])) else None
  {
    var t := ItemizeOpen + "[" + o + "]" + rest;
    Front(ItemizeOpen + "[" + o + "]", rest);
    Halves(t, 0, ItemizeOpen + "[" + o, "]");
    Halves(t, 0, ItemizeOpen + "[", o);
    NoBulletAt(t, o);
  }

  /** Inside an option list that does not mention `label={}`, no bullet-less opener matches:
      the option list of such an opener would end at the same `]`. */
  lemma NoBulletInside(g: string, rest: string)
    requires ']' !in g && !Includes(g, "label={}")
    ensures Match(NoBulletList, g + "]" + rest).None?
  {
    var t := g + "]" + rest;
    IsNoBulletList(t);
    if |g| < 16 {
      NoBulletShort(g, rest);
    } else if StartsWith(t, ItemizeOpen + "[") {
      var o := g[16..];
      OpenerPrefix(g, rest);
      NoBulletText(o, rest);
      if Includes(o, "label={}") {
        IncludesWithin(g, 16, |g|, "label={}");
      }
    }
  }

  lemma NoBulletShort(g: string, rest: string)
    requires |g| < 16
    ensures !StartsWith(g + "]" + rest, ItemizeOpen + "[")
  {
    var t := g + "]" + rest;
    assert t[|g|] == ']';
    assert ']' !in ItemizeOpen + "[";
    DiffersAt(t, ItemizeOpen + "[", |g|);
  }

  lemma OpenerPrefix(g: string, rest: string)
    requires |g| >= 16 && StartsWith(g + "]" + rest, ItemizeOpen + "[")
    ensures g == ItemizeOpen + "[" + g[16..] && g[16..|g|] == g[16..]
  {
    assert g[..16] == (g + "]" + rest)[..16];
  }

  lemma ItemizeOptionsAt(t: string, o: string)
    requires HasAt(t, 0, ItemizeOpen) && HasAt(t, 15, "[") && HasAt(t, 16, o) && HasAt(t, 16 + |o|, "]")
    requires ']' !in o && OnOneLine(o)
    ensures MatchItemizeBegin(t) == Some(Capture(17 + |o|, ["[" + o + "]"]))
  {
    HasAtStart(t, ItemizeOpen);
    CharAt(t, 15, '[');
    NoChar(o, ']');
    FirstOnLine(t, 16, o, "]");
    Joined(t, 15, "[", o);
    Joined(t, 15, "[" + o, "]");
  }

  /** `\begin{itemize}[o]` with `o` on one line: the options are consumed with the opener. */
  lemma ItemizeOptions(o: string, rest: string)
    requires ']' !in o && OnOneLine(o)
    ensures Match(ItemizeBegin, ItemizeOpen + "[" + o + "]" + rest)
      == Some(Capture(17 + |o|, ["[" + o + "]"]))
  {
    var t := ItemizeOpen + "[" + o + "]" + rest;
    Front(ItemizeOpen + "[" + o + "]", rest);
    Halves(t, 0, ItemizeOpen + "[" + o, "]");
    Halves(t, 0, ItemizeOpen + "[", o);
    Halves(t, 0, ItemizeOpen, "[");
    ItemizeOptionsAt(t, o);
    IsItemizeBegin(t);
  }

  /** `\begin{itemize}` not followed by `[` is matched on its own. */
  lemma ItemizePlain(rest: string)
    requires rest == [] || rest[0] != '['
    ensures Match(ItemizeBegin, ItemizeOpen + rest) == Some(Capture(15, [""]))
  {
    var t := ItemizeOpen + rest;
    IsItemizeBegin(t);
    Front(ItemizeOpen, rest);
    HasAtStart(t, ItemizeOpen);
    if |t| > 15 {
      assert t[15] == rest[0];
    }
  }

  lemma MinipagePlainAt(t: string, w: string)
    requires HasAt(t, 0, MinipageOpen) && HasAt(t, 16, "{") && HasAt(t, 17, w) && HasAt(t, 17 + |w|, "}")
    requires '}' !in w && OnOneLine(w)
    ensures MatchMinipage(t) == Some(Capture(18 + |w|, [""]))
  {
    HasAtStart(t, MinipageOpen);
    CharAt(t, 16, '{');
    NoChar(w, '}');
    FirstOnLine(t, 17, w, "}");
  }

  /** `\begin{minipage}{w}` with no width option. */
  lemma MinipagePlain(w: string, rest: string)
    requires '}' !in w && OnOneLine(w)
    ensures Match(MinipageBegin, MinipageOpen + "{" + w + "}" + rest)
      == Some(Capture(18 + |w|, [""]))
  {
    var t := MinipageOpen + "{" + w + "}" + rest;
    Front(MinipageOpen + "{" + w + "}", rest);
    Halves(t, 0, MinipageOpen + "{" + w, "}");
    Halves(t, 0, MinipageOpen + "{", w);
    Halves(t, 0, MinipageOpen, "{");
    MinipagePlainAt(t, w);
    IsMinipage(t);
  }

  /** The width option is tried at each `]` in turn: characters that are neither `]` nor a line
      terminator are passed over. */
  lemma {:induction false} WidthThenBraceSkip(t: string, k: nat, q: nat)
    requires k <= q <= |t|
    requires forall j :: k <= j < q ==> t[j] != ']' && !IsLineTerminator(t[j])
    ensures WidthThenBrace(t, k) == WidthThenBrace(t, q)
    decreases q - k
  {
    if k < q {
      WidthThenBraceSkip(t, k + 1, q);
    }
  }

  lemma MinipageWidthAt(t: string, o: string, w: string)
    requires HasAt(t, 0, MinipageOpen) && HasAt(t, 16, "[") && HasAt(t, 17, o) && HasAt(t, 17 + |o|, "]")
    requires HasAt(t, 18 + |o|, "{") && HasAt(t, 19 + |o|, w) && HasAt(t, 19 + |o| + |w|, "}")
    requires ']' !in o && OnOneLine(o) && '}' !in w && OnOneLine(w)
    ensures MatchMinipage(t) == Some(Capture(20 + |o| + |w|, ["[" + o + "]"]))
  {
    HasAtStart(t, MinipageOpen);
    var q := 17 + |o|;
    CharAt(t, 16, '[');
    CharAt(t, q, ']');
    CharAt(t, q + 1, '{');
    forall j | 17 <= j < q ensures t[j] != ']' && !IsLineTerminator(t[j]) {
      assert t[j] == t[17..q][j - 17];
    }
    WidthThenBraceSkip(t, 17, q);
    NoChar(w, '}');
    FirstOnLine(t, q + 2, w, "}");
    WidthClosed(t, q, q + 2 + |w|);
    Joined(t, 16, "[", o);
    Joined(t, 16, "[" + o, "]");
    MinipageWidthFound(t, q, q + 3 + |w|, "[" + o + "]");
  }

  lemma WidthClosed(t: string, q: nat, m: nat)
    requires q + 1 < |t| && t[q] == ']' && t[q + 1] == '{' && IndexOnLine(t, "}", q + 2) == Some(m)
    ensures WidthThenBrace(t, q) == Some((q, m + 1))
  {
  }

  lemma MinipageWidthFound(t: string, q: nat, e: nat, g: string)
    requires StartsWith(t, MinipageOpen) && |t| > 17 && t[16] == '[' && WidthThenBrace(t, 17) == Some((q, e))
    requires q + 1 <= |t| && t[16..q + 1] == g
    ensures MatchMinipage(t) == Some(Capture(e, [g]))
  {
  }

  /** `\begin{minipage}[o]{w}`: the option `[o]` is the first group, and the whole opener is
      consumed. */
  lemma MinipageWidth(o: string, w: string, rest: string)
    requires ']' !in o && OnOneLine(o) && '}' !in w && OnOneLine(w)
    ensures Match(MinipageBegin, MinipageOpen + "[" + o + "]" + "{" + w + "}" + rest)
      == Some(Capture(20 + |o| + |w|, ["[" + o + "]"]))
  {
    var t := MinipageOpen + "[" + o + "]" + "{" + w + "}" + rest;
    Front(MinipageOpen + "[" + o + "]" + "{" + w + "}", rest);
    Halves(t, 0, MinipageOpen + "[" + o + "]" + "{" + w, "}");
    Halves(t, 0, MinipageOpen + "[" + o + "]" + "{", w);
    Halves(t, 0, MinipageOpen + "[" + o + "]", "{");
    Halves(t, 0, MinipageOpen + "[" + o, "]");
    Halves(t, 0, MinipageOpen + "[", o);
    Halves(t, 0, MinipageOpen, "[");
    MinipageWidthAt(t, o, w);
    IsMinipage(t);
  }

  /** A text that does not begin with a backslash is not at a list marker. */
  lemma NotMarker(u: string)
    requires u == [] || u[0] != '\\'
    ensures !AtListMarker(u)
  {
    NotStartsWith(u, "\\item");
    NotStartsWith(u, "\\end");
    NotStartsWith(u, "\\resumeItemListEnd");
  }

  /** Every list marker begins with a backslash. */
  lemma MarkerLead(u: string)
    requires AtListMarker(u)
    ensures u != [] && u[0] == '\\'
  {
    if StartsWith(u, "\\item") {
      assert u[..5] == "\\item";
    } else if StartsWith(u, "\\end") {
      assert u[..4] == "\\end";
    } else {
      assert u[..18] == "\\resumeItemListEnd";
    }
  }

  lemma ItemAt(t: string, w: string, x: string)
    requires HasAt(t, 0, "\\item") && HasAt(t, 5, w) && HasAt(t, 5 + |w|, x) && 5 + |w| + |x| <= |t|
    requires AtListMarker(t[5 + |w| + |x|..])
    requires w != [] && AllSpace(w) && (x == [] || !IsSpace(x[0])) && '\\' !in x
    ensures MatchItem(t) == Some(Capture(5 + |w| + |x|, [x, MarkerText(t[5 + |w| + |x|..])]))
  {
    HasAtStart(t, "\\item");
    var b := 5 + |w|;
    var e := b + |x|;
    assert t[5] == t[5..b][0];
    MarkerLead(t[e..]);
    assert t[e..][0] == t[e];
    if x != [] {
      assert t[b] == t[b..e][0];
    }
    SpaceEndAt(t, 5, w);
    forall k | b <= k < e ensures !AtListMarker(t[k..]) {
      assert t[k..][0] == t[k] == t[b..e][k - b];
      NotMarker(t[k..]);
    }
    MarkerAt(t, b, e);
    ItemFound(t, b, e, x);
  }

  /** The marker search from `b` stops at the first marker. */
  lemma MarkerAt(t: string, b: nat, e: nat)
    requires b <= e <= |t| && AtListMarker(t[e..])
    requires forall k :: b <= k < e ==> !AtListMarker(t[k..])
    ensures MarkerFrom(t, b) == Some(e)
  {
    MarkerFromFirst(t, b);
  }

  lemma ItemFound(t: string, b: nat, e: nat, x: string)
    requires StartsWith(t, "\\item") && |t| > 5 && IsSpace(t[5]) && SpaceEnd(t, 5) == b
    requires MarkerFrom(t, b) == Some(e) && b <= e <= |t| && t[b..e] == x && AtListMarker(t[e..])
    ensures MatchItem(t) == Some(Capture(e, [x, MarkerText(t[e..])]))
  { }

  /** `\item` text runs up to the next marker, which stays in the text. */
  lemma ItemToMarker(w: string, x: string, rest: string)
    requires w != [] && AllSpace(w) && (x == [] || !IsSpace(x[0])) && '\\' !in x
    requires AtListMarker(rest)
    ensures Match(Item, "\\item" + w + x + rest)
      == Some(Capture(5 + |w| + |x|, [x, MarkerText(rest)]))
  {
    var t := "\\item" + w + x + rest;
    Front("\\item" + w + x, rest);
    Halves(t, 0, "\\item" + w, x);
    Halves(t, 0, "\\item", w);
    ItemAt(t, w, x);
    IsItem(t);
  }

  /** No list marker starts anywhere in `x`. */
  predicate MarkerFree(x: string) {
    forall k :: 0 <= k <= |x| ==> !AtListMarker(x[k..])
  }

  /** Text without a backslash holds no list marker. */
  lemma BackslashFreeMarkerFree(x: string)
    requires '\\' !in x
    ensures MarkerFree(x)
  {
    forall k | 0 <= k <= |x| ensures !AtListMarker(x[k..]) {
      if k < |x| {
        assert x[k..][0] == x[k];
      }
      NotMarker(x[k..]);
    }
  }

  /** The suffixes of `\item w x` from the start of `x` on are the suffixes of `x`. */
  lemma ItemTail(w: string, x: string, k: nat)
    requires 5 + |w| <= k <= 5 + |w| + |x|
    ensures ("\\item" + w + x)[k..] == x[k - 5 - |w|..]
  {
    assert "\\item" + w + x == ("\\item" + w) + x;
  }

  lemma ItemUnclosedAt(w: string, x: string)
    requires w != [] && AllSpace(w) && MarkerFree(x)
    ensures MatchItem("\\item" + w + x).None?
  {
    var t := "\\item" + w + x;
    Halves(t, 0, "\\item" + w, x);
    Halves(t, 0, "\\item", w);
    assert t[5] == t[5..5 + |w|][0];
    var b := SpaceEnd(t, 5);
    forall k | 5 <= k < 5 + |w| ensures IsSpace(t[k]) {
      assert t[k] == t[5..5 + |w|][k - 5];
    }
    SpaceEndStops(t, 5);
    assert b >= 5 + |w|;
    forall k | b <= k <= |t| ensures !AtListMarker(t[k..]) {
      ItemTail(w, x, k);
    }
    MarkerFromFirst(t, b);
  }

  /** An `\item` with no marker anywhere after it is not matched at all. */
  lemma ItemUnclosed(w: string, x: string)
    requires w != [] && AllSpace(w) && MarkerFree(x)
    ensures Match(Item, "\\item" + w + x).None?
  {
    ItemUnclosedAt(w, x);
    IsItem("\\item" + w + x);
  }

  /** No item match starts anywhere in `\item w x` when `x` holds no marker. */
  lemma ItemUnclosedNowhere(w: string, x: string, j: nat)
    requires w != [] && AllSpace(w) && MarkerFree(x) && j < 5 + |w| + |x|
    ensures Match(Item, ("\\item" + w + x)[j..]).None?
  {
    var t := "\\item" + w + x;
    if j == 0 {
      assert t[0..] == t;
      ItemUnclosed(w, x);
    } else if j < 5 + |w| {
      assert t[j..][0] == t[j];
      if j >= 5 {
        assert t[j] == w[j - 5];
        assert IsSpace(w[j - 5]);
      }
      if Match(Item, t[j..]).Some? {
        MatchLead(Item, t[j..]);
      }
    } else {
      ItemTail(w, x, j);
      assert !AtListMarker(t[j..]);
      IsItem(t[j..]);
    }
  }
  lemma IsPipe(t: string)
    ensures Match(Pipe, t) == MatchPipe(t)
  {
  }

  lemma IsLineBreak(t: string)
    ensures Match(LineBreak, t) == MatchLineBreak(t)
  {
  }

  /** `\\?\s*\$\|\$\s*\\?` takes an optional backslash, whitespace, `$|$`, whitespace and an
      optional backslash. */
  lemma PipeAt(t: string, b1: string, w1: string, w2: string, b2: string)
    requires b1 == "" || b1 == "\\"
    requires b2 == "" || b2 == "\\"
    requires AllSpace(w1) && AllSpace(w2)
    requires HasAt(t, 0, b1) && HasAt(t, |b1|, w1) && HasAt(t, |b1| + |w1|, "$|$")
    requires HasAt(t, |b1| + |w1| + 3, w2) && HasAt(t, |b1| + |w1| + 3 + |w2|, b2)
    requires var e := |b1| + |w1| + 3 + |w2| + |b2|; b2 == "\\" || e == |t| || (!IsSpace(t[e]) && t[e] != '\\')
    ensures MatchPipe(t) == Some(Capture(|b1| + |w1| + 3 + |w2| + |b2|, []))
  {
    var b := |b1| + |w1|;
    var c := b + 3 + |w2|;
    PipeHead(t, b1, w1);
    PipeTail(t, b, w2, b2);
    PipeFound(t, |b1|, b, c, c + |b2|);
  }

  /** Before the bar: the optional backslash, then the whitespace up to `$|$`. */
  lemma PipeHead(t: string, b1: string, w1: string)
    requires b1 == "" || b1 == "\\"
    requires AllSpace(w1)
    requires HasAt(t, 0, b1) && HasAt(t, |b1|, w1) && HasAt(t, |b1| + |w1|, "$|$")
    ensures (if t != [] && t[0] == '\\' then 1 else 0) == |b1|
    ensures |b1| + |w1| <= |t| && SpaceEnd(t, |b1|) == |b1| + |w1| && StartsWith(t[|b1| + |w1|..], "$|$")
  {
    var b := |b1| + |w1|;
    PipeBar(t, b);
    PipeLead(t, b1, w1);
    SpaceEndIs(t, |b1|, w1);
  }

  /** After the bar: the whitespace, then the optional backslash. */
  lemma PipeTail(t: string, b: nat, w2: string, b2: string)
    requires b2 == "" || b2 == "\\"
    requires AllSpace(w2) && HasAt(t, b + 3, w2) && HasAt(t, b + 3 + |w2|, b2)
    requires var e := b + 3 + |w2| + |b2|; b2 == "\\" || e == |t| || (!IsSpace(t[e]) && t[e] != '\\')
    ensures var c := b + 3 + |w2|;
      SpaceEnd(t, b + 3) == c && (if c < |t| && t[c] == '\\' then c + 1 else c) == c + |b2|
  {
    var c := b + 3 + |w2|;
    PipeTrail(t, c, b2);
    SpaceEndIs(t, b + 3, w2);
  }

  lemma PipeFound(t: string, a: nat, b: nat, c: nat, e: nat)
    requires a == (if t != [] && t[0] == '\\' then 1 else 0)
    requires b <= |t| && SpaceEnd(t, a) == b && StartsWith(t[b..], "$|$")
    requires SpaceEnd(t, b + 3) == c && e == (if c < |t| && t[c] == '\\' then c + 1 else c)
    ensures MatchPipe(t) == Some(Capture(e, []))
  {
  }

  lemma PipeBar(t: string, b: nat)
    requires HasAt(t, b, "$|$")
    ensures t[b] == '$' && StartsWith(t[b..], "$|$")
  {
    assert t[b] == t[b..b + 3][0];
    assert t[b..][..3] == t[b..][0..3];
  }

  lemma PipeLead(t: string, b1: string, w1: string)
    requires b1 == "" || b1 == "\\"
    requires AllSpace(w1)
    requires HasAt(t, 0, b1) && HasAt(t, |b1|, w1) && |b1| + |w1| < |t| && t[|b1| + |w1|] == '$'
    ensures (if t != [] && t[0] == '\\' then 1 else 0) == |b1|
  {
    if b1 == "\\" {
      assert t[0] == t[0..1][0];
    } else if w1 != [] {
      assert t[0] == t[0..|w1|][0];
    }
  }

  lemma PipeTrail(t: string, c: nat, b2: string)
    requires b2 == "" || b2 == "\\"
    requires HasAt(t, c, b2)
    requires b2 == "\\" || c == |t| || (!IsSpace(t[c]) && t[c] != '\\')
    ensures (if c < |t| && t[c] == '\\' then c + 1 else c) == c + |b2|
    ensures c == |t| || !IsSpace(t[c])
  {
    if b2 == "\\" {
      assert t[c] == t[c..c + 1][0];
    }
  }

  /** A pipe separator at the front of the text, with its optional backslashes. */
  lemma PipeFront(b1: string, w1: string, w2: string, b2: string, rest: string)
    requires b1 == "" || b1 == "\\"
    requires b2 == "" || b2 == "\\"
    requires AllSpace(w1) && AllSpace(w2)
    requires b2 == "\\" || rest == [] || (!IsSpace(rest[0]) && rest[0] != '\\')
    ensures Match(Pipe, b1 + w1 + "$|$" + w2 + b2 + rest) == Some(Capture(|b1 + w1 + "$|$" + w2 + b2|, []))
  {
    var x := b1 + w1 + "$|$" + w2 + b2;
    var t := x + rest;
    assert |x| == |b1| + |w1| + 3 + |w2| + |b2|;
    PipeParts(x, rest, b1, w1, w2, b2);
    assert b2 == "\\" || |x| == |t| || (!IsSpace(t[|x|]) && t[|x|] != '\\') by {
      if rest != [] {
        assert t[|x|] == rest[0];
      }
    }
    PipeAt(t, b1, w1, w2, b2);
    IsPipe(t);
  }

  lemma PipeParts(x: string, rest: string, b1: string, w1: string, w2: string, b2: string)
    requires x == b1 + w1 + "$|$" + w2 + b2
    ensures var t := x + rest;
      && HasAt(t, 0, b1) && HasAt(t, |b1|, w1) && HasAt(t, |b1| + |w1|, "$|$")
      && HasAt(t, |b1| + |w1| + 3, w2) && HasAt(t, |b1| + |w1| + 3 + |w2|, b2)
  {
    var t := x + rest;
    Front(x, rest);
    Halves(t, 0, b1 + w1 + "$|$" + w2, b2);
    Halves(t, 0, b1 + w1 + "$|$", w2);
    Halves(t, 0, b1 + w1, "$|$");
    Halves(t, 0, b1, w1);
  }

  lemma BreakAt(t: string, w: string)
    requires HasAt(t, 0, "\\\\") && HasAt(t, 2, w) && AllSpace(w)
    requires 2 + |w| == |t| || !IsSpace(t[2 + |w|])
    requires !StartsWith(t[2 + |w|..], "[-")
    ensures MatchLineBreak(t) == Some(Capture(2 + |w|, [""]))
  {
    HasAtStart(t, "\\\\");
    SpaceEndIs(t, 2, w);
  }

  lemma BreakSpacingAt(t: string, w: string, o: string)
    requires HasAt(t, 0, "\\\\") && HasAt(t, 2, w) && AllSpace(w)
    requires HasAt(t, 2 + |w|, "[-") && HasAt(t, 4 + |w|, o) && HasAt(t, 4 + |w| + |o|, "]")
    requires ']' !in o && OnOneLine(o)
    ensures MatchLineBreak(t) == Some(Capture(5 + |w| + |o|, [t[2 + |w|..5 + |w| + |o|]]))
  {
    HasAtStart(t, "\\\\");
    assert t[2 + |w|] == t[2 + |w|..4 + |w|][0];
    SpaceEndIs(t, 2, w);
    assert t[2 + |w|..][..2] == t[2 + |w|..4 + |w|];
    NoChar(o, ']');
    FirstOnLine(t, 4 + |w|, o, "]");
  }

  /** A line break `\\` with the whitespace after it, and no spacing option. */
  lemma BreakFront(w: string, rest: string)
    requires AllSpace(w) && (rest == [] || !IsSpace(rest[0])) && !StartsWith(rest, "[-")
    ensures Match(LineBreak, "\\\\" + w + rest) == Some(Capture(2 + |w|, [""]))
  {
    var t := "\\\\" + w + rest;
    Front("\\\\" + w, rest);
    Halves(t, 0, "\\\\", w);
    if rest != [] {
      assert t[2 + |w|] == rest[0];
    }
    assert t[2 + |w|..] == rest;
    BreakAt(t, w);
    IsLineBreak(t);
  }

  /** A line break with a spacing option `[-o]` on the same line: the option goes with it. */
  lemma BreakSpacingFront(w: string, o: string, rest: string)
    requires AllSpace(w) && ']' !in o && OnOneLine(o)
    ensures Match(LineBreak, "\\\\" + w + "[-" + o + "]" + rest)
      == Some(Capture(5 + |w| + |o|, ["[-" + o + "]"]))
  {
    var t := "\\\\" + w + "[-" + o + "]" + rest;
    Front("\\\\" + w + "[-" + o + "]", rest);
    Halves(t, 0, "\\\\" + w + "[-" + o, "]");
    Halves(t, 0, "\\\\" + w + "[-", o);
    Halves(t, 0, "\\\\" + w, "[-");
    Halves(t, 0, "\\\\", w);
    BreakSpacingAt(t, w, o);
    Joined(t, 2 + |w|, "[-", o);
    Joined(t, 2 + |w|, "[-" + o, "]");
    IsLineBreak(t);
  }
  /* Rules that cannot destroy a word. Where an occurrence of `u` lies inside a match, the
     rule writes `u` again; where it lies outside every match, it is kept as it is. */

  /** A match that overlaps an occurrence of `u` writes `u` again. */
  ghost predicate KeepsWord(p: Pattern, r: Replacement, u: string) {
    forall t: string, k: nat :: Match(p, t).Some? && k < Match(p, t).value.len && k <= |t| && StartsWith(t[k..], u)
      ==> Includes(Expand(r, Match(p, t).value.groups), u)
  }

  /** A global rule whose lead is not in `u` keeps every occurrence of `u`. */
  lemma {:induction false} ReplaceAllKeepsWord(s: string, p: Pattern, r: Replacement, u: string, k: nat)
    requires u != [] && Lead(p).Some? && Lead(p).value !in u && KeepsWord(p, r, u)
    requires k <= |s| && StartsWith(s[k..], u)
    ensures Includes(ReplaceAll(s, p, r), u)
    decreases |s|
  {
    if k == 0 {
      WordKeptAtFront(s, p, r, u);
    } else {
      match Match(p, s)
      case None =>
        ReplaceAllMiss(s, p, r);
        assert s[1..][k - 1..] == s[k..];
        ReplaceAllKeepsWord(s[1..], p, r, u, k - 1);
        IncludesAfter([s[0]], ReplaceAll(s[1..], p, r), u);
      case Some(c) =>
        if k < c.len {
          IncludesBefore(Expand(r, c.groups), ReplaceAll(s[c.len..], p, r), u);
        } else {
          assert s[c.len..][k - c.len..] == s[k..];
          ReplaceAllKeepsWord(s[c.len..], p, r, u, k - c.len);
          IncludesAfter(Expand(r, c.groups), ReplaceAll(s[c.len..], p, r), u);
        }
    }
  }

  /** No match starts inside an occurrence of `u` when the lead is not in `u`. */
  lemma WordKeptAtFront(s: string, p: Pattern, r: Replacement, u: string)
    requires u != [] && Lead(p).Some? && Lead(p).value !in u && StartsWith(s, u)
    ensures Includes(ReplaceAll(s, p, r), u)
  {
    var rest := s[|u|..];
    assert s == u + rest;
    forall j | 0 <= j < |u| ensures Match(p, (u + rest)[j..]).None? {
      assert (u + rest)[j..][0] == u[j];
      if Match(p, (u + rest)[j..]).Some? {
        MatchLead(p, (u + rest)[j..]);
      }
    }
    ReplaceAllKeepsText(u, rest, p, r);
    assert (u + ReplaceAll(rest, p, r))[..|u|] == u;
  }

  /** A rule applied at the start only keeps every occurrence of `u`. */
  lemma ReplaceAtStartKeepsWord(s: string, p: Pattern, r: Replacement, u: string, k: nat)
    requires KeepsWord(p, r, u) && k <= |s| && StartsWith(s[k..], u)
    ensures Includes(ReplaceAtStart(s, p, r), u)
  {
    match Match(p, s)
    case None =>
      IncludesFrom(s, k, u);
    case Some(c) =>
      if k < c.len {
        IncludesBefore(Expand(r, c.groups), s[c.len..], u);
      } else {
        assert s[c.len..][k - c.len..] == s[k..];
        IncludesFrom(s[c.len..], k - c.len, u);
        IncludesAfter(Expand(r, c.groups), s[c.len..], u);
      }
  }

  /** `lead\s*` keeps a word that starts with neither a lead character nor whitespace. */
  lemma SpacedKeeps(lead: string, atLeastOne: bool, r: Replacement, u: string)
    requires u != [] && u[0] !in lead && !IsSpace(u[0])
    ensures KeepsWord(Spaced(lead, atLeastOne), r, u)
  {
    forall t: string, k: nat | Match(Spaced(lead, atLeastOne), t).Some? && k < Match(Spaced(lead, atLeastOne), t).value.len
      ensures !StartsWith(t[k..], u)
    {
      SpacedFront(t, lead, atLeastOne, k);
      assert t[k..][0] == t[k];
      NotStartsWith(t[k..], u);
    }
  }

  lemma SpacedFront(t: string, lead: string, atLeastOne: bool, k: nat)
    requires MatchSpaced(t, lead, atLeastOne).Some? && k < MatchSpaced(t, lead, atLeastOne).value.len
    ensures k < |t| && (t[k] in lead || IsSpace(t[k]))
  {
    SpaceEndStops(t, |lead|);
    if k < |lead| {
      assert t[..|lead|][k] == t[k];
    }
  }

  /** `open(.*?)close` with a wrapping replacement keeps a word that cannot overlap either
      delimiter: an occurrence inside the match lies inside the group. */
  lemma BetweenOnLineKeeps(open: string, close: string, before: string, after: string, u: string)
    requires u != [] && u[0] !in open && u[0] !in close && close != [] && close[0] !in u
    ensures KeepsWord(BetweenOnLine(open, close), Wrap(before, after), u)
  {
    forall t: string, k: nat | Match(BetweenOnLine(open, close), t).Some?
      && k < Match(BetweenOnLine(open, close), t).value.len && k <= |t| && StartsWith(t[k..], u)
      ensures Includes(Expand(Wrap(before, after), Match(BetweenOnLine(open, close), t).value.groups), u)
    {
      IsBetweenOnLine(open, close, t);
      var q := IndexOnLine(t, close, |open|).value;
      var g := t[|open|..q];
      BetweenGroupHolds(t, open, close, k, u);
      WrapExpand(before, after, [g]);
      IncludesMiddle(before, g, after, k - |open|, u);
    }
  }

  lemma BetweenGroupHolds(t: string, open: string, close: string, k: nat, u: string)
    requires u != [] && u[0] !in open && u[0] !in close && close != [] && close[0] !in u
    requires MatchBetweenOnLine(t, open, close).Some? && k < MatchBetweenOnLine(t, open, close).value.len
    requires k <= |t| && StartsWith(t[k..], u)
    ensures var q := IndexOnLine(t, close, |open|).value;
      |open| <= k <= q && MatchBetweenOnLine(t, open, close).value.groups == [t[|open|..q]]
      && StartsWith(t[|open|..q][k - |open|..], u)
  {
    var q := IndexOnLine(t, close, |open|).value;
    assert t[k..][..|u|] == u;
    assert t[k] == u[0];
    assert t[|open|..q][k - |open|..][..|u|] == t[k..][..|u|];
  }

  /** `lead\s*(.+)` with a wrapping replacement keeps a word on one line that starts with neither
      a lead character nor whitespace: an occurrence inside the match lies inside the group. */
  lemma HeadingKeeps(lead: string, before: string, after: string, u: string)
    requires u != [] && u[0] !in lead && !IsSpace(u[0]) && OnOneLine(u)
    ensures KeepsWord(Heading(lead), Wrap(before, after), u)
  {
    forall t: string, k: nat | Match(Heading(lead), t).Some?
      && k < Match(Heading(lead), t).value.len && k <= |t| && StartsWith(t[k..], u)
      ensures Includes(Expand(Wrap(before, after), Match(Heading(lead), t).value.groups), u)
    {
      IsHeading(lead, t);
      var w := HeadingStart(t, |lead|, SpaceEnd(t, |lead|)).value;
      var e := LineEnd(t, w);
      HeadingGroupHolds(t, lead, k, u);
      WrapExpand(before, after, [t[w..e]]);
      IncludesMiddle(before, t[w..e], after, k - w, u);
    }
  }

  lemma IsHeading(lead: string, t: string)
    ensures Match(Heading(lead), t) == MatchHeading(t, lead)
  {
  }

  lemma HeadingGroupHolds(t: string, lead: string, k: nat, u: string)
    requires u != [] && u[0] !in lead && !IsSpace(u[0]) && OnOneLine(u)
    requires MatchHeading(t, lead).Some? && k < MatchHeading(t, lead).value.len
    requires k <= |t| && StartsWith(t[k..], u)
    ensures var w := HeadingStart(t, |lead|, SpaceEnd(t, |lead|)).value;
      var e := LineEnd(t, w);
      w <= k <= e && MatchHeading(t, lead).value.groups == [t[w..e]] && StartsWith(t[w..e][k - w..], u)
  {
    var w := HeadingStart(t, |lead|, SpaceEnd(t, |lead|)).value;
    var e := LineEnd(t, w);
    HeadingWordStart(t, lead, k, u);
    HeadingWordEnd(t, w, k, u);
    assert t[w..e][k - w..][..|u|] == t[k..][..|u|];
  }

  lemma HeadingWordStart(t: string, lead: string, k: nat, u: string)
    requires u != [] && u[0] !in lead && !IsSpace(u[0])
    requires MatchHeading(t, lead).Some? && k <= |t| && StartsWith(t[k..], u)
    ensures HeadingStart(t, |lead|, SpaceEnd(t, |lead|)).value <= k
  {
    assert t[k..][..|u|] == u;
    assert t[k] == u[0];
    SpaceEndStops(t, |lead|);
  }

  lemma HeadingWordEnd(t: string, w: nat, k: nat, u: string)
    requires OnOneLine(u) && w <= |t| && w <= k < LineEnd(t, w) && StartsWith(t[k..], u)
    ensures k + |u| <= LineEnd(t, w)
  {
    var e := LineEnd(t, w);
    LineEndStops(t, w);
    assert t[k..][..|u|] == u;
  }
}
