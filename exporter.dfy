/** The text renderer of the export module: format_for_display turns a parsed
    record into a fixed layout of lines joined by newlines, and
    create_summary_stats counts what the record holds. */
module Exporter {
  import opened Text
  import Contact
  import Preprocessor
  import Analyzer

  // ===========================================================================
  // The parsed record

  /** An education entry as the renderer reads it: each key may be absent. */
  datatype EducationRecord = EducationRecord(
    degree: Option<string>, institution: Option<string>, field: Option<string>, year: Option<string>)

  /** An experience entry as the renderer reads it: each key may be absent. */
  datatype ExperienceRecord = ExperienceRecord(
    title: Option<string>, company: Option<string>, startDate: Option<string>, endDate: Option<string>,
    date: Option<string>, description: Option<string>)

  /** The dict the renderer is given: what analyze returns with the
      `contact_info` of preprocessing added; an absent key is `None`. */
  datatype Record = Record(
    name: Option<string>, contact: Option<Contact.ContactInfo>, skills: Option<seq<string>>,
    education: Option<seq<EducationRecord>>, experience: Option<seq<ExperienceRecord>>)

  /** A string value is truthy when present and non-empty. */
  predicate Truthy(v: Option<string>) {
    v.Some? && v.value != []
  }

  /** The contact dict is truthy when present and holding some key. */
  predicate ContactTruthy(c: Option<Contact.ContactInfo>) {
    c.Some? && (c.value.email.Some? || c.value.phone.Some? || c.value.linkedin.Some? || c.value.github.Some?)
  }

  /** `data.get(key, [])` for a list. */
  function ListOf<T>(xs: Option<seq<T>>): seq<T> {
    if xs.Some? then xs.value else []
  }

  /** `entry.get(key, 'N/A')`. */
  function OrNotAvailable(v: Option<string>): string {
    if v.Some? then v.value else "N/A"
  }

  /** The record app.py hands to the renderer: the analysis with the contact
      information added. */
  function RecordOf(a: Analyzer.Analysis, c: Contact.ContactInfo): Record {
    Record(
      a.name, Some(c), Some(a.skills),
      Some(seq(|a.education|, i requires 0 <= i < |a.education| =>
        EducationRecord(Some(a.education[i].degree), a.education[i].institution, a.education[i].field, a.education[i].year))),
      Some(seq(|a.experience|, i requires 0 <= i < |a.experience| =>
        ExperienceRecord(Some(a.experience[i].title), a.experience[i].company, a.experience[i].startDate,
                         a.experience[i].endDate, a.experience[i].date, a.experience[i].description))))
  }

  // ===========================================================================
  // The layout

  /** `c * n` */
  function Repeat(c: char, n: nat): (r: string)
    ensures |r| == n && forall i :: 0 <= i < n ==> r[i] == c
  {
    seq(n, i => c)
  }

  const Rule: string := Repeat('=', 60)
  const Banner: string := "RESUME ANALYSIS RESULTS"
  const NameMark: char := '\U{1F4CB}'
  const ContactMark: char := '\U{1F4DE}'
  const SkillsMark: char := '\U{1F4BC}'
  const EducationMark: char := '\U{1F393}'
  const ExperienceMark: char := '\U{1F4BB}'
  /** The bullet of the contact and skill lines. */
  const Bullet: string := "  • "
  /** The indentation of an entry's detail lines. */
  const Indent: string := "     "

  function NameLines(name: Option<string>): seq<string> {
    if Truthy(name) then [[NameMark] + " NAME: " + name.value, ""] else []
  }

  /** A bulleted contact line, shown when its value is truthy. */
  function ContactItem(caption: string, v: Option<string>): seq<string> {
    if Truthy(v) then [Bullet + caption + v.value] else []
  }

  function ContactLines(c: Option<Contact.ContactInfo>): seq<string> {
    if ContactTruthy(c) then
      [[ContactMark] + " CONTACT INFORMATION:"]
      + ContactItem("Email: ", c.value.email) + ContactItem("Phone: ", c.value.phone)
      + ContactItem("LinkedIn: ", c.value.linkedin) + ContactItem("GitHub: ", c.value.github)
      + [""]
    else []
  }

  function SkillsHeader(n: nat): string {
    [SkillsMark] + " SKILLS (" + DecimalString(n) + " found):"
  }

  /** One bulleted line per skill, in order. */
  function Bullets(skills: seq<string>): seq<string> {
    if skills == [] then [] else Bullets(skills[..|skills| - 1]) + [Bullet + skills[|skills| - 1]]
  }

  function SkillsLines(skills: Option<seq<string>>): seq<string> {
    var s := ListOf(skills);
    if s != [] then [SkillsHeader(|s|)] + Bullets(s) + [""] else []
  }

  /** An indented detail line of an entry, shown when its value is truthy. */
  function Detail(caption: string, v: Option<string>): seq<string> {
    if Truthy(v) then [Indent + caption + v.value] else []
  }

  /** The first line of the `n`-th entry. */
  function EntryHead(n: nat, title: Option<string>): string {
    "  " + DecimalString(n) + ". " + OrNotAvailable(title)
  }

  function EducationBlock(n: nat, e: EducationRecord): seq<string> {
    [EntryHead(n, e.degree)]
    + Detail("Institution: ", e.institution) + Detail("Field: ", e.field) + Detail("Year: ", e.year)
    + [""]
  }

  /** A description longer than 200 characters is cut to its first 200 and
      marked with an ellipsis. */
  function Truncated(d: string): string {
    if |d| > 200 then d[..200] + "..." else d
  }

  /** Duration when both ends are truthy, else the single date if truthy. */
  function DateLines(e: ExperienceRecord): seq<string> {
    if Truthy(e.startDate) && Truthy(e.endDate) then
      [Indent + "Duration: " + e.startDate.value + " - " + e.endDate.value]
    else Detail("Date: ", e.date)
  }

  function DescriptionLines(e: ExperienceRecord): seq<string> {
    if Truthy(e.description) then [Indent + "Description: " + Truncated(e.description.value)] else []
  }

  function ExperienceBlock(n: nat, e: ExperienceRecord): seq<string> {
    [EntryHead(n, e.title)] + Detail("Company: ", e.company) + DateLines(e) + DescriptionLines(e) + [""]
  }

  /** The blocks of `xs` numbered from 1, in order (`enumerate(xs, 1)`). */
  function Numbered<T>(xs: seq<T>, block: (nat, T) -> seq<string>): seq<string> {
    if xs == [] then [] else Numbered(xs[..|xs| - 1], block) + block(|xs|, xs[|xs| - 1])
  }

  /** Numbering one more element appends its block under the next number. */
  lemma NumberedStep<T>(xs: seq<T>, block: (nat, T) -> seq<string>, i: nat)
    requires i < |xs|
    ensures Numbered(xs[..i + 1], block) == Numbered(xs[..i], block) + block(i + 1, xs[i])
  {
    assert xs[..i + 1][..i] == xs[..i];
  }

  function EducationHeader(n: nat): string {
    [EducationMark] + " EDUCATION (" + DecimalString(n) + " entries):"
  }

  function EducationLines(education: Option<seq<EducationRecord>>): seq<string> {
    var es := ListOf(education);
    if es != [] then [EducationHeader(|es|)] + Numbered(es, EducationBlock) else []
  }

  function ExperienceHeader(n: nat): string {
    [ExperienceMark] + " WORK EXPERIENCE (" + DecimalString(n) + " entries):"
  }

  function ExperienceLines(experience: Option<seq<ExperienceRecord>>): seq<string> {
    var xs := ListOf(experience);
    if xs != [] then [ExperienceHeader(|xs|)] + Numbered(xs, ExperienceBlock) else []
  }

  /** The lines format_for_display joins: the banner, the shown sections in
      a fixed order, the closing rule. */
  function DisplayLines(d: Record): (lines: seq<string>)
    ensures |lines| >= 5
    ensures lines[0] == Rule && lines[1] == Banner && lines[2] == Rule && lines[3] == ""
    ensures lines[|lines| - 1] == Rule
  {
    [Rule, Banner, Rule, ""]
    + NameLines(d.name) + ContactLines(d.contact) + SkillsLines(d.skills)
    + EducationLines(d.education) + ExperienceLines(d.experience)
    + [Rule]
  }

  function Display(d: Record): string {
    JoinWith("\n", DisplayLines(d))
  }

  // ===========================================================================
  // What the layout promises

  /** With nothing truthy in the record (the empty dict among others), the
      display is the banner between rules, a blank line and the closing
      rule. */
  lemma PlainRecordDisplay(d: Record)
    requires !Truthy(d.name) && !ContactTruthy(d.contact)
    requires ListOf(d.skills) == [] && ListOf(d.education) == [] && ListOf(d.experience) == []
    ensures Display(d) == Rule + "\n" + Banner + "\n" + Rule + "\n" + "\n" + Rule
  {
    assert DisplayLines(d) == [Rule, Banner, Rule, "", Rule];
    JoinFive("\n", Rule, Banner, Rule, "", Rule);
  }

  lemma JoinFive(sep: string, a: string, b: string, c: string, e: string, f: string)
    ensures JoinWith(sep, [a, b, c, e, f]) == a + sep + b + sep + c + sep + e + sep + f
  {
    var xs := [a, b, c, e, f];
    assert xs[1..] == [b, c, e, f] && xs[2..] == [c, e, f] && xs[3..] == [e, f] && xs[4..] == [f];
    assert JoinWith(sep, [e, f]) == e + sep + f;
    assert JoinWith(sep, [c, e, f]) == c + sep + (e + sep + f);
    assert JoinWith(sep, [b, c, e, f]) == b + sep + (c + sep + (e + sep + f));
  }

  /** Lines opening with a rule, a banner and a rule and closing with a
      rule join into a text that opens and closes the same way. */
  lemma {:induction false} FrameJoin(lines: seq<string>, rule: string, banner: string)
    requires |lines| >= 5 && |rule| == 60
    requires lines[0] == rule && lines[1] == banner && lines[2] == rule && lines[|lines| - 1] == rule
    ensures rule + "\n" + banner + "\n" + rule + "\n" <= JoinWith("\n", lines)
    ensures |JoinWith("\n", lines)| >= 61
    ensures JoinWith("\n", lines)[|JoinWith("\n", lines)| - 61..] == "\n" + rule
  {
    JoinHead(lines, rule, banner);
    JoinTail(lines, rule);
    var text := JoinWith("\n", lines);
    var body := JoinWith("\n", lines[..|lines| - 1]);
    assert text[|text| - 61..] == (body + ("\n" + rule))[|body|..];
  }

  /** Lines opening with `a`, `b` and `c` join into a text opening with
      them, each ended by a line break. */
  lemma JoinHead(lines: seq<string>, a: string, b: string)
    requires |lines| >= 4 && lines[0] == a && lines[1] == b && lines[2] == a
    ensures a + "\n" + b + "\n" + a + "\n" <= JoinWith("\n", lines)
  {
    var rest := JoinWith("\n", lines[3..]);
    JoinFront("\n", lines[2..]);
    assert lines[2..][1..] == lines[3..];
    JoinFront("\n", lines[1..]);
    assert lines[1..][1..] == lines[2..];
    JoinFront("\n", lines);
    assert JoinWith("\n", lines) == a + "\n" + (b + "\n" + (a + "\n" + rest));
  }

  lemma JoinFront(sep: string, parts: seq<string>)
    requires |parts| >= 2
    ensures JoinWith(sep, parts) == parts[0] + sep + JoinWith(sep, parts[1..])
  {
  }

  /** Lines closing with `z` join into a text closing with a line break and
      `z`. */
  lemma JoinTail(lines: seq<string>, z: string)
    requires |lines| >= 2 && lines[|lines| - 1] == z
    ensures JoinWith("\n", lines) == JoinWith("\n", lines[..|lines| - 1]) + ("\n" + z)
  {
    var n := |lines|;
    assert lines == lines[..n - 1] + [z];
    JoinAppend("\n", lines[..n - 1], [z]);
  }

  /** Every display opens with a rule, the banner and a rule, and closes
      with a rule on a line of its own. */
  lemma DisplayFrame(d: Record)
    ensures Rule + "\n" + Banner + "\n" + Rule + "\n" <= Display(d)
    ensures |Display(d)| >= 61 && Display(d)[|Display(d)| - 61..] == "\n" + Rule
  {
    FrameJoin(DisplayLines(d), Rule, Banner);
  }

  /** No line of the list holds a line break. */
  predicate SingleLines(lines: seq<string>) {
    forall q :: 0 <= q < |lines| ==> '\n' !in lines[q]
  }

  predicate NoBreak(v: Option<string>) {
    v.Some? ==> '\n' !in v.value
  }

  /** No value of the record holds a line break. */
  predicate SingleLineRecord(d: Record) {
    && NoBreak(d.name)
    && (d.contact.Some? ==>
          NoBreak(d.contact.value.email) && NoBreak(d.contact.value.phone)
          && NoBreak(d.contact.value.linkedin) && NoBreak(d.contact.value.github))
    && SingleLines(ListOf(d.skills))
    && (forall k :: 0 <= k < |ListOf(d.education)| ==> SingleLineEducation(ListOf(d.education)[k]))
    && (forall k :: 0 <= k < |ListOf(d.experience)| ==> SingleLineExperience(ListOf(d.experience)[k]))
  }

  predicate SingleLineEducation(e: EducationRecord) {
    NoBreak(e.degree) && NoBreak(e.institution) && NoBreak(e.field) && NoBreak(e.year)
  }

  predicate SingleLineExperience(e: ExperienceRecord) {
    NoBreak(e.title) && NoBreak(e.company) && NoBreak(e.startDate) && NoBreak(e.endDate)
    && NoBreak(e.date) && NoBreak(e.description)
  }

  lemma SingleLinesConcat(a: seq<string>, b: seq<string>)
    requires SingleLines(a) && SingleLines(b)
    ensures SingleLines(a + b)
  {
    forall q | 0 <= q < |a + b| ensures '\n' !in (a + b)[q] {
      if q >= |a| { assert (a + b)[q] == b[q - |a|]; }
    }
  }

  lemma DecimalSingleLine(n: nat)
    ensures '\n' !in DecimalString(n)
  {
    var digits := DecimalString(n);
    forall q | 0 <= q < |digits| ensures digits[q] != '\n' {
      assert IsDigit(digits[q]);
    }
  }

  lemma {:induction false} BulletsSingleLine(skills: seq<string>)
    requires SingleLines(skills)
    ensures SingleLines(Bullets(skills))
  {
    if skills != [] {
      BulletsSingleLine(skills[..|skills| - 1]);
      SingleLinesConcat(Bullets(skills[..|skills| - 1]), [Bullet + skills[|skills| - 1]]);
    }
  }

  lemma {:induction false} NumberedSingleLine<T>(xs: seq<T>, block: (nat, T) -> seq<string>)
    requires forall k :: 0 <= k < |xs| ==> SingleLines(block(k + 1, xs[k]))
    ensures SingleLines(Numbered(xs, block))
  {
    if xs != [] {
      NumberedSingleLine(xs[..|xs| - 1], block);
      assert SingleLines(block(|xs|, xs[|xs| - 1]));
      SingleLinesConcat(Numbered(xs[..|xs| - 1], block), block(|xs|, xs[|xs| - 1]));
    }
  }

  lemma TruncatedSingleLine(d: string)
    requires '\n' !in d
    ensures '\n' !in Truncated(d)
  {
    if |d| > 200 {
      assert forall c :: c in d[..200] ==> c in d;
    }
  }

  lemma EducationBlockSingleLine(n: nat, e: EducationRecord)
    requires SingleLineEducation(e)
    ensures SingleLines(EducationBlock(n, e))
  {
    DecimalSingleLine(n);
    var head := [EntryHead(n, e.degree)];
    var i, f, y := Detail("Institution: ", e.institution), Detail("Field: ", e.field), Detail("Year: ", e.year);
    DetailSingleLine("Institution: ", e.institution);
    DetailSingleLine("Field: ", e.field);
    DetailSingleLine("Year: ", e.year);
    SingleLinesConcat(head, i);
    SingleLinesConcat(head + i, f);
    SingleLinesConcat(head + i + f, y);
    SingleLinesConcat(head + i + f + y, [""]);
  }

  lemma DetailSingleLine(caption: string, v: Option<string>)
    requires '\n' !in caption && NoBreak(v)
    ensures SingleLines(Detail(caption, v))
  {
  }

  lemma DateLinesSingleLine(e: ExperienceRecord)
    requires SingleLineExperience(e)
    ensures SingleLines(DateLines(e))
  {
    if Truthy(e.startDate) && Truthy(e.endDate) {
      assert '\n' !in "Duration: " && '\n' !in " - ";
    } else {
      DetailSingleLine("Date: ", e.date);
    }
  }

  lemma DescriptionLinesSingleLine(e: ExperienceRecord)
    requires SingleLineExperience(e)
    ensures SingleLines(DescriptionLines(e))
  {
    if Truthy(e.description) {
      TruncatedSingleLine(e.description.value);
      assert '\n' !in "Description: ";
    }
  }

  lemma ExperienceBlockSingleLine(n: nat, e: ExperienceRecord)
    requires SingleLineExperience(e)
    ensures SingleLines(ExperienceBlock(n, e))
  {
    DecimalSingleLine(n);
    var head := [EntryHead(n, e.title)];
    var c, t, s := Detail("Company: ", e.company), DateLines(e), DescriptionLines(e);
    DetailSingleLine("Company: ", e.company);
    DateLinesSingleLine(e);
    DescriptionLinesSingleLine(e);
    SingleLinesConcat(head, c);
    SingleLinesConcat(head + c, t);
    SingleLinesConcat(head + c + t, s);
    SingleLinesConcat(head + c + t + s, [""]);
  }

  lemma SkillsSingleLine(skills: Option<seq<string>>)
    requires SingleLines(ListOf(skills))
    ensures SingleLines(SkillsLines(skills))
  {
    var s := ListOf(skills);
    if s != [] {
      BulletsSingleLine(s);
      DecimalSingleLine(|s|);
      SingleLinesConcat([SkillsHeader(|s|)], Bullets(s));
      SingleLinesConcat([SkillsHeader(|s|)] + Bullets(s), [""]);
    }
  }

  lemma EducationSingleLine(education: Option<seq<EducationRecord>>)
    requires forall k :: 0 <= k < |ListOf(education)| ==> SingleLineEducation(ListOf(education)[k])
    ensures SingleLines(EducationLines(education))
  {
    var es := ListOf(education);
    if es != [] {
      forall k | 0 <= k < |es| ensures SingleLines(EducationBlock(k + 1, es[k])) {
        EducationBlockSingleLine(k + 1, es[k]);
      }
      NumberedSingleLine(es, EducationBlock);
      DecimalSingleLine(|es|);
      SingleLinesConcat([EducationHeader(|es|)], Numbered(es, EducationBlock));
    }
  }

  lemma ExperienceSingleLine(experience: Option<seq<ExperienceRecord>>)
    requires forall k :: 0 <= k < |ListOf(experience)| ==> SingleLineExperience(ListOf(experience)[k])
    ensures SingleLines(ExperienceLines(experience))
  {
    var xs := ListOf(experience);
    if xs != [] {
      forall k | 0 <= k < |xs| ensures SingleLines(ExperienceBlock(k + 1, xs[k])) {
        ExperienceBlockSingleLine(k + 1, xs[k]);
      }
      NumberedSingleLine(xs, ExperienceBlock);
      DecimalSingleLine(|xs|);
      SingleLinesConcat([ExperienceHeader(|xs|)], Numbered(xs, ExperienceBlock));
    }
  }

  lemma OpeningSingleLine()
    ensures SingleLines([Rule, Banner, Rule, ""])
  {
    forall q | 0 <= q < |Rule| ensures Rule[q] != '\n' {}
  }

  lemma ContactSingleLine(c: Option<Contact.ContactInfo>)
    requires c.Some? ==>
      NoBreak(c.value.email) && NoBreak(c.value.phone) && NoBreak(c.value.linkedin) && NoBreak(c.value.github)
    ensures SingleLines(ContactLines(c))
  {
    if ContactTruthy(c) {
      var items := [[ContactMark] + " CONTACT INFORMATION:"];
      var e, p, l, g := ContactItem("Email: ", c.value.email), ContactItem("Phone: ", c.value.phone),
        ContactItem("LinkedIn: ", c.value.linkedin), ContactItem("GitHub: ", c.value.github);
      SingleLinesConcat(items, e);
      SingleLinesConcat(items + e, p);
      SingleLinesConcat(items + e + p, l);
      SingleLinesConcat(items + e + p + l, g);
      SingleLinesConcat(items + e + p + l + g, [""]);
    }
  }

  /** When no value holds a line break, splitting the display on newlines
      gives back exactly the lines that were joined. */
  lemma DisplayRoundTrip(d: Record)
    requires SingleLineRecord(d)
    ensures Split(Display(d), '\n') == DisplayLines(d)
  {
    var top := [Rule, Banner, Rule, ""];
    OpeningSingleLine();
    assert SingleLines(NameLines(d.name));
    ContactSingleLine(d.contact);
    SkillsSingleLine(d.skills);
    EducationSingleLine(d.education);
    ExperienceSingleLine(d.experience);
    SingleLinesConcat(top, NameLines(d.name));
    SingleLinesConcat(top + NameLines(d.name), ContactLines(d.contact));
    var upToContact := top + NameLines(d.name) + ContactLines(d.contact);
    SingleLinesConcat(upToContact, SkillsLines(d.skills));
    SingleLinesConcat(upToContact + SkillsLines(d.skills), EducationLines(d.education));
    SingleLinesConcat(upToContact + SkillsLines(d.skills) + EducationLines(d.education), ExperienceLines(d.experience));
    SingleLinesConcat(upToContact + SkillsLines(d.skills) + EducationLines(d.education) + ExperienceLines(d.experience), [Rule]);
    JoinSplit(DisplayLines(d), '\n');
  }

  lemma {:induction false} BulletsAt(skills: seq<string>)
    ensures |Bullets(skills)| == |skills|
    ensures forall j :: 0 <= j < |skills| ==> Bullets(skills)[j] == Bullet + skills[j]
  {
    if skills != [] {
      BulletsAt(skills[..|skills| - 1]);
    }
  }

  /** When the skill list is non-empty the display holds its count line,
      followed by one bulleted line per skill in list order and a blank
      line. */
  lemma SkillsShown(d: Record)
    requires ListOf(d.skills) != []
    ensures exists k ::
      && 0 <= k && k + |ListOf(d.skills)| + 1 < |DisplayLines(d)|
      && DisplayLines(d)[k] == SkillsHeader(|ListOf(d.skills)|)
      && (forall j :: 0 <= j < |ListOf(d.skills)| ==> DisplayLines(d)[k + 1 + j] == Bullet + ListOf(d.skills)[j])
      && DisplayLines(d)[k + 1 + |ListOf(d.skills)|] == ""
  {
    var lines := DisplayLines(d);
    SectionsShown(d);
    var k: nat :| Occurs(lines, k, SkillsLines(d.skills));
    var s := ListOf(d.skills);
    BulletsAt(s);
    SkillsBlockAt(lines, k, SkillsHeader(|s|), Bullets(s), s);
  }

  /** Where the skills block occurs, its count line, bullets and blank line
      are the lines from there on. */
  lemma SkillsBlockAt(lines: seq<string>, k: nat, head: string, b: seq<string>, s: seq<string>)
    requires |b| == |s| && forall j :: 0 <= j < |s| ==> b[j] == Bullet + s[j]
    requires Occurs(lines, k, [head] + b + [""])
    ensures k + |s| + 1 < |lines| && lines[k] == head && lines[k + 1 + |s|] == ""
    ensures forall j :: 0 <= j < |s| ==> lines[k + 1 + j] == Bullet + s[j]
  {
    BlockParts(lines, k, head, b);
  }

  /** A block made of a head line, a body and a blank line, where it occurs. */
  lemma BlockParts(lines: seq<string>, k: nat, head: string, body: seq<string>)
    requires Occurs(lines, k, [head] + body + [""])
    ensures k + |body| + 1 < |lines| && lines[k] == head && lines[k + 1 + |body|] == ""
    ensures forall j :: 0 <= j < |body| ==> lines[k + 1 + j] == body[j]
  {
    var block := [head] + body + [""];
    assert lines[k + 0] == block[0];
    assert lines[k + (1 + |body|)] == block[1 + |body|];
    forall j | 0 <= j < |body| ensures lines[k + 1 + j] == body[j] {
      assert lines[k + (1 + j)] == block[1 + j];
    }
  }

  /** The blocks before the `j`-th element, then its block under number
      `j+1`, open the numbered list. */
  lemma {:induction false} NumberedPrefix<T>(xs: seq<T>, block: (nat, T) -> seq<string>, j: nat)
    requires j < |xs|
    ensures Numbered(xs[..j], block) + block(j + 1, xs[j]) <= Numbered(xs, block)
    decreases |xs|
  {
    var n := |xs|;
    if j < n - 1 {
      var init := xs[..n - 1];
      NumberedPrefix(init, block, j);
      assert init[..j] == xs[..j] && init[j] == xs[j];
    } else {
      assert xs[..n][..j] == xs[..j];
    }
  }

  /** The `j`-th element's block, when it opens with `head`, starts right
      after the blocks of the elements before it. */
  lemma NumberedHead<T>(xs: seq<T>, block: (nat, T) -> seq<string>, j: nat, head: string)
    requires j < |xs| && |block(j + 1, xs[j])| > 0 && block(j + 1, xs[j])[0] == head
    ensures Numbered(xs[..j], block) + [head] <= Numbered(xs, block)
  {
    NumberedPrefix(xs, block, j);
    var p := Numbered(xs[..j], block);
    var b := block(j + 1, xs[j]);
    assert (p + [head]) == (p + b)[..|p| + 1];
  }

  /** Education entries are numbered from 1 in list order: the `j`-th
      entry's block opens with its number `j+1` and its degree, right after
      the blocks of the entries before it. */
  lemma EducationNumbered(es: seq<EducationRecord>, j: nat)
    requires j < |es|
    ensures Numbered(es[..j], EducationBlock) + [EntryHead(j + 1, es[j].degree)] <= Numbered(es, EducationBlock)
  {
    NumberedHead(es, EducationBlock, j, EntryHead(j + 1, es[j].degree));
  }

  /** Experience entries are numbered from 1 in list order, each opening
      with its number and title. */
  lemma ExperienceNumbered(xs: seq<ExperienceRecord>, j: nat)
    requires j < |xs|
    ensures Numbered(xs[..j], ExperienceBlock) + [EntryHead(j + 1, xs[j].title)] <= Numbered(xs, ExperienceBlock)
  {
    NumberedHead(xs, ExperienceBlock, j, EntryHead(j + 1, xs[j].title));
  }

  /** Some line of the list is an entry detail under `caption`. */
  predicate Shows(lines: seq<string>, caption: string) {
    exists q :: 0 <= q < |lines| && Indent + caption <= lines[q]
  }

  lemma ShowsConcat(a: seq<string>, b: seq<string>, caption: string)
    ensures Shows(a + b, caption) <==> Shows(a, caption) || Shows(b, caption)
  {
    if Shows(a + b, caption) {
      var q :| 0 <= q < |a + b| && Indent + caption <= (a + b)[q];
      if q < |a| { assert a[q] == (a + b)[q]; } else { assert b[q - |a|] == (a + b)[q]; }
    }
    if Shows(a, caption) {
      var q :| 0 <= q < |a| && Indent + caption <= a[q];
      assert (a + b)[q] == a[q];
    }
    if Shows(b, caption) {
      var q :| 0 <= q < |b| && Indent + caption <= b[q];
      assert (a + b)[|a| + q] == b[q];
    }
  }

  /** A single line shows the caption it opens with. */
  lemma ShowsOwnLine(line: string, caption: string)
    requires Indent + caption <= line
    ensures Shows([line], caption)
  {
    assert [line][0] == line;
  }

  /** A line opening with one caption does not show a caption that differs
      from it at some position. */
  lemma ShowsOtherLine(line: string, caption: string, other: string, m: nat)
    requires Indent + other <= line
    requires m < |caption| && m < |other| && caption[m] != other[m]
    ensures !Shows([line], caption)
  {
    assert line[|Indent| + m] == (Indent + other)[|Indent| + m] == other[m];
    assert (Indent + caption)[|Indent| + m] == caption[m];
  }

  /** The first line and the closing blank line of an entry show no
      caption. */
  lemma ShowsNoHead(n: nat, title: Option<string>, caption: string)
    ensures !Shows([EntryHead(n, title)], caption)
    ensures !Shows([""], caption)
  {
    var head := EntryHead(n, title);
    assert head[2] == DecimalString(n)[0];
    assert IsDigit(head[2]);
    assert (Indent + caption)[2] == ' ';
  }

  lemma ShowsDetail(caption: string, other: string, v: Option<string>, m: nat)
    requires caption == other || (m < |caption| && m < |other| && caption[m] != other[m])
    ensures Shows(Detail(other, v), caption) <==> caption == other && Truthy(v)
  {
    if Truthy(v) {
      var line := Indent + other + v.value;
      assert Indent + other <= line;
      if caption == other { ShowsOwnLine(line, caption); } else { ShowsOtherLine(line, caption, other, m); }
    }
  }

  /** A caption shows in an education entry exactly when it shows in one
      of its three detail parts. */
  lemma EducationShows(n: nat, e: EducationRecord, caption: string)
    ensures Shows(EducationBlock(n, e), caption) <==>
      Shows(Detail("Institution: ", e.institution), caption) || Shows(Detail("Field: ", e.field), caption)
      || Shows(Detail("Year: ", e.year), caption)
  {
    var head := [EntryHead(n, e.degree)];
    var i, f, y := Detail("Institution: ", e.institution), Detail("Field: ", e.field), Detail("Year: ", e.year);
    ShowsNoHead(n, e.degree, caption);
    ShowsConcat(head + i + f + y, [""], caption);
    ShowsConcat(head + i + f, y, caption);
    ShowsConcat(head + i, f, caption);
    ShowsConcat(head, i, caption);
  }

  /** Institution, field and year are printed exactly when truthy. */
  lemma EducationDetails(n: nat, e: EducationRecord)
    ensures Shows(EducationBlock(n, e), "Institution: ") <==> Truthy(e.institution)
    ensures Shows(EducationBlock(n, e), "Field: ") <==> Truthy(e.field)
    ensures Shows(EducationBlock(n, e), "Year: ") <==> Truthy(e.year)
  {
    EducationShows(n, e, "Institution: ");
    EducationShows(n, e, "Field: ");
    EducationShows(n, e, "Year: ");
    ShowsDetail("Institution: ", "Institution: ", e.institution, 0);
    ShowsDetail("Institution: ", "Field: ", e.field, 0);
    ShowsDetail("Institution: ", "Year: ", e.year, 0);
    ShowsDetail("Field: ", "Institution: ", e.institution, 0);
    ShowsDetail("Field: ", "Field: ", e.field, 0);
    ShowsDetail("Field: ", "Year: ", e.year, 0);
    ShowsDetail("Year: ", "Institution: ", e.institution, 0);
    ShowsDetail("Year: ", "Field: ", e.field, 0);
    ShowsDetail("Year: ", "Year: ", e.year, 0);
  }

  /** A caption shows in an experience entry exactly when it shows in its
      company, date or description part. */
  lemma ExperienceShows(n: nat, e: ExperienceRecord, caption: string)
    ensures Shows(ExperienceBlock(n, e), caption) <==>
      Shows(Detail("Company: ", e.company), caption) || Shows(DateLines(e), caption)
      || Shows(DescriptionLines(e), caption)
  {
    var head := [EntryHead(n, e.title)];
    var c, t, s := Detail("Company: ", e.company), DateLines(e), DescriptionLines(e);
    ShowsNoHead(n, e.title, caption);
    ShowsConcat(head + c + t + s, [""], caption);
    ShowsConcat(head + c + t, s, caption);
    ShowsConcat(head + c, t, caption);
    ShowsConcat(head, c, caption);
  }

  /** The date part shows a duration exactly when both ends are truthy,
      and otherwise a single date exactly when it is truthy; never a
      company or a description. */
  lemma DateLinesShow(e: ExperienceRecord)
    ensures Shows(DateLines(e), "Duration: ") <==> Truthy(e.startDate) && Truthy(e.endDate)
    ensures Shows(DateLines(e), "Date: ") <==> !(Truthy(e.startDate) && Truthy(e.endDate)) && Truthy(e.date)
    ensures !Shows(DateLines(e), "Company: ") && !Shows(DateLines(e), "Description: ")
  {
    if Truthy(e.startDate) && Truthy(e.endDate) {
      var line := Indent + "Duration: " + e.startDate.value + " - " + e.endDate.value;
      assert DateLines(e) == [line];
      assert Indent + "Duration: " <= line;
      ShowsOwnLine(line, "Duration: ");
      ShowsOtherLine(line, "Company: ", "Duration: ", 0);
      ShowsOtherLine(line, "Date: ", "Duration: ", 1);
      ShowsOtherLine(line, "Description: ", "Duration: ", 1);
    } else {
      ShowsDetail("Date: ", "Date: ", e.date, 0);
      ShowsDetail("Company: ", "Date: ", e.date, 0);
      ShowsDetail("Duration: ", "Date: ", e.date, 1);
      ShowsDetail("Description: ", "Date: ", e.date, 1);
    }
  }

  /** The description part shows a description exactly when it is truthy,
      and nothing else. */
  lemma DescriptionLinesShow(e: ExperienceRecord)
    ensures Shows(DescriptionLines(e), "Description: ") <==> Truthy(e.description)
    ensures !Shows(DescriptionLines(e), "Company: ") && !Shows(DescriptionLines(e), "Duration: ")
    ensures !Shows(DescriptionLines(e), "Date: ")
  {
    if Truthy(e.description) {
      var line := Indent + "Description: " + Truncated(e.description.value);
      assert DescriptionLines(e) == [line];
      assert Indent + "Description: " <= line;
      ShowsOwnLine(line, "Description: ");
      ShowsOtherLine(line, "Company: ", "Description: ", 0);
      ShowsOtherLine(line, "Duration: ", "Description: ", 1);
      ShowsOtherLine(line, "Date: ", "Description: ", 1);
    }
  }

  /** The company and the description are printed exactly when truthy;
      a duration exactly when both ends are truthy, and otherwise a single
      date exactly when it is truthy. */
  lemma ExperienceDetails(n: nat, e: ExperienceRecord)
    ensures Shows(ExperienceBlock(n, e), "Company: ") <==> Truthy(e.company)
    ensures Shows(ExperienceBlock(n, e), "Duration: ") <==> Truthy(e.startDate) && Truthy(e.endDate)
    ensures Shows(ExperienceBlock(n, e), "Date: ") <==> !(Truthy(e.startDate) && Truthy(e.endDate)) && Truthy(e.date)
    ensures Shows(ExperienceBlock(n, e), "Description: ") <==> Truthy(e.description)
  {
    ExperienceShows(n, e, "Company: ");
    ExperienceShows(n, e, "Duration: ");
    ExperienceShows(n, e, "Date: ");
    ExperienceShows(n, e, "Description: ");
    DateLinesShow(e);
    DescriptionLinesShow(e);
    ShowsDetail("Company: ", "Company: ", e.company, 0);
    ShowsDetail("Duration: ", "Company: ", e.company, 0);
    ShowsDetail("Date: ", "Company: ", e.company, 0);
    ShowsDetail("Description: ", "Company: ", e.company, 0);
  }

  /** A description of at most 200 characters is shown whole; a longer one
      as its first 200 characters and an ellipsis. Cutting twice changes
      nothing. */
  lemma TruncationRule(d: string)
    ensures |d| <= 200 ==> Truncated(d) == d
    ensures |d| > 200 ==> |Truncated(d)| == 203 && Truncated(d)[..200] == d[..200] && Truncated(d)[200..] == "..."
    ensures Truncated(Truncated(d)) == Truncated(d)
  {
    if |d| > 200 {
      var r := d[..200] + "...";
      assert r[..200] == d[..200];
    }
  }

  // ===========================================================================
  // format_for_display

  /** The lines of one education entry, appended one by one. */
  method EducationEntryLines(n: nat, edu: EducationRecord) returns (output: seq<string>)
    ensures output == EducationBlock(n, edu)
  {
    output := [EntryHead(n, edu.degree)];
    if Truthy(edu.institution) {
      output := output + [Indent + "Institution: " + edu.institution.value];
    }
    if Truthy(edu.field) {
      output := output + [Indent + "Field: " + edu.field.value];
    }
    if Truthy(edu.year) {
      output := output + [Indent + "Year: " + edu.year.value];
    }
    output := output + [""];
  }

  /** The lines of one experience entry, appended one by one. */
  method ExperienceEntryLines(n: nat, exp: ExperienceRecord) returns (output: seq<string>)
    ensures output == ExperienceBlock(n, exp)
  {
    output := [EntryHead(n, exp.title)];
    if Truthy(exp.company) {
      output := output + [Indent + "Company: " + exp.company.value];
    }
    if Truthy(exp.startDate) && Truthy(exp.endDate) {
      output := output + [Indent + "Duration: " + exp.startDate.value + " - " + exp.endDate.value];
    } else if Truthy(exp.date) {
      output := output + [Indent + "Date: " + exp.date.value];
    }
    if Truthy(exp.description) {
      var desc := exp.description.value;
      if |desc| > 200 {
        desc := desc[..200] + "...";
      }
      output := output + [Indent + "Description: " + desc];
    }
    output := output + [""];
  }

  /** The contact block, shown when the contact dict is non-empty. */
  method ContactSection(contactInfo: Option<Contact.ContactInfo>) returns (output: seq<string>)
    ensures output == ContactLines(contactInfo)
  {
    output := [];
    if ContactTruthy(contactInfo) {
      output := output + [[ContactMark] + " CONTACT INFORMATION:"];
      var contact := contactInfo.value;
      if Truthy(contact.email) {
        output := output + [Bullet + "Email: " + contact.email.value];
      }
      if Truthy(contact.phone) {
        output := output + [Bullet + "Phone: " + contact.phone.value];
      }
      if Truthy(contact.linkedin) {
        output := output + [Bullet + "LinkedIn: " + contact.linkedin.value];
      }
      if Truthy(contact.github) {
        output := output + [Bullet + "GitHub: " + contact.github.value];
      }
      output := output + [""];
    }
  }

  /** The skills block: the count, then one bullet per skill. */
  method SkillsSection(skillList: Option<seq<string>>) returns (output: seq<string>)
    ensures output == SkillsLines(skillList)
  {
    output := [];
    if ListOf(skillList) != [] {
      var skills := skillList.value;
      output := output + [SkillsHeader(|skills|)];
      for k := 0 to |skills|
        invariant output == [SkillsHeader(|skills|)] + Bullets(skills[..k])
      {
        output := output + [Bullet + skills[k]];
        assert skills[..k + 1][..k] == skills[..k];
      }
      assert skills[..|skills|] == skills;
      output := output + [""];
    }
  }

  /** The numbered education entries, `enumerate(education, 1)`. */
  method EducationEntries(education: seq<EducationRecord>) returns (output: seq<string>)
    ensures output == Numbered(education, EducationBlock)
  {
    output := [];
    for i := 0 to |education|
      invariant output == Numbered(education[..i], EducationBlock)
    {
      var entryLines := EducationEntryLines(i + 1, education[i]);
      NumberedStep(education, EducationBlock, i);
      output := output + entryLines;
    }
    assert education[..|education|] == education;
  }

  /** The education block: the count, then the numbered entries. */
  method EducationSection(educationList: Option<seq<EducationRecord>>) returns (output: seq<string>)
    ensures output == EducationLines(educationList)
  {
    output := [];
    if ListOf(educationList) != [] {
      var education := educationList.value;
      output := output + [EducationHeader(|education|)];
      var entries := EducationEntries(education);
      output := output + entries;
    }
  }

  /** The numbered experience entries, `enumerate(experience, 1)`. */
  method ExperienceEntries(experience: seq<ExperienceRecord>) returns (output: seq<string>)
    ensures output == Numbered(experience, ExperienceBlock)
  {
    output := [];
    for i := 0 to |experience|
      invariant output == Numbered(experience[..i], ExperienceBlock)
    {
      var entryLines := ExperienceEntryLines(i + 1, experience[i]);
      NumberedStep(experience, ExperienceBlock, i);
      output := output + entryLines;
    }
    assert experience[..|experience|] == experience;
  }

  /** The experience block: the count, then the numbered entries. */
  method ExperienceSection(experienceList: Option<seq<ExperienceRecord>>) returns (output: seq<string>)
    ensures output == ExperienceLines(experienceList)
  {
    output := [];
    if ListOf(experienceList) != [] {
      var experience := experienceList.value;
      output := output + [ExperienceHeader(|experience|)];
      var entries := ExperienceEntries(experience);
      output := output + entries;
    }
  }

  /** format_for_display: the layout built block by block, then joined. */
  method FormatForDisplay(data: Record) returns (text: string)
    ensures text == Display(data)
  {
    var output: seq<string> := [];
    output := output + [Rule];
    output := output + [Banner];
    output := output + [Rule];
    output := output + [""];
    if Truthy(data.name) {
      output := output + [[NameMark] + " NAME: " + data.name.value];
      output := output + [""];
    }
    assert output == [Rule, Banner, Rule, ""] + NameLines(data.name);
    var contactLines := ContactSection(data.contact);
    output := output + contactLines;
    var skillsLines := SkillsSection(data.skills);
    output := output + skillsLines;
    var educationLines := EducationSection(data.education);
    output := output + educationLines;
    var experienceLines := ExperienceSection(data.experience);
    output := output + experienceLines;
    output := output + [Rule];
    assert output == DisplayLines(data);
    text := JoinWith("\n", output);
  }

  // ===========================================================================
  // create_summary_stats

  datatype SummaryStats = SummaryStats(
    totalSkills: nat, educationCount: nat, experienceCount: nat, hasContactInfo: bool, hasName: bool)

  function CreateSummaryStats(d: Record): SummaryStats {
    SummaryStats(
      |ListOf(d.skills)|, |ListOf(d.education)|, |ListOf(d.experience)|,
      ContactTruthy(d.contact), Truthy(d.name))
  }

  /** The record app.py builds for a raw text: the analysis of the cleaned
      text and its sections, with the contact details added. */
  function PipelineRecord(raw: string, nlp: string -> Option<string>): Record {
    var pp := Preprocessor.PreprocessResumeText(raw);
    RecordOf(Analyzer.AnalysisOf(pp.cleaned, Some(pp.sections), Analyzer.Flatten(Analyzer.CommonSkills), nlp), pp.contact)
  }

  /** The statistics of the record app.py builds: at most seventy skills
      (the vocabulary's size), at most one education and one experience
      entry (the cleaned text is a single line), and contact information
      exactly when some contact detail was found in the cleaned text. */
  lemma PipelineStats(raw: string, nlp: string -> Option<string>)
    ensures CreateSummaryStats(PipelineRecord(raw, nlp)).totalSkills <= 70
    ensures CreateSummaryStats(PipelineRecord(raw, nlp)).educationCount <= 1
    ensures CreateSummaryStats(PipelineRecord(raw, nlp)).experienceCount <= 1
    ensures CreateSummaryStats(PipelineRecord(raw, nlp)).hasContactInfo <==>
      var found := Contact.ExtractContactInfo(Preprocessor.PreprocessResumeText(raw).cleaned);
      found.email.Some? || found.phone.Some? || found.linkedin.Some? || found.github.Some?
  {
    var pp := Preprocessor.PreprocessResumeText(raw);
    var vocabulary := Analyzer.Flatten(Analyzer.CommonSkills);
    var a := Analyzer.AnalysisOf(pp.cleaned, None, vocabulary, nlp);
    Analyzer.PipelineUsesCleanedText(raw, vocabulary, nlp);
    assert PipelineRecord(raw, nlp) == RecordOf(a, pp.contact);
    RecordStats(a, pp.contact);
    Analyzer.PipelineAtMostOneEntry(raw);
    Analyzer.SkillsAtMostSeventy(pp.cleaned);
    assert a.skills == Analyzer.SkillsIn(vocabulary, pp.cleaned);
    assert a.education == Analyzer.EducationOf(pp.cleaned);
    assert a.experience == Analyzer.ExperienceOf(pp.cleaned);
  }

  /** The statistics of a record built from an analysis count its lists. */
  lemma RecordStats(a: Analyzer.Analysis, c: Contact.ContactInfo)
    ensures CreateSummaryStats(RecordOf(a, c)) == SummaryStats(
      |a.skills|, |a.education|, |a.experience|,
      c.email.Some? || c.phone.Some? || c.linkedin.Some? || c.github.Some?, Truthy(a.name))
  {
  }

  /** `block` appears in `lines` starting at line `k`. */
  predicate Occurs(lines: seq<string>, k: nat, block: seq<string>) {
    k + |block| <= |lines| && forall j :: 0 <= j < |block| ==> lines[k + j] == block[j]
  }

  lemma OccursIn(a: seq<string>, b: seq<string>, c: seq<string>)
    ensures Occurs(a + b + c, |a|, b)
  {
    forall j | 0 <= j < |b| ensures (a + b + c)[|a| + j] == b[j] {}
  }

  lemma OccursExtend(lines: seq<string>, k: nat, block: seq<string>, more: seq<string>)
    requires Occurs(lines, k, block)
    ensures Occurs(lines + more, k, block)
  {
    forall j | 0 <= j < |block| ensures (lines + more)[k + j] == block[j] {
      assert (lines + more)[k + j] == lines[k + j];
    }
  }

  /** The skills, education and experience blocks each appear whole in the
      display lines. */
  lemma SectionsShown(d: Record)
    ensures exists k :: Occurs(DisplayLines(d), k, SkillsLines(d.skills))
    ensures exists k :: Occurs(DisplayLines(d), k, EducationLines(d.education))
    ensures exists k :: Occurs(DisplayLines(d), k, ExperienceLines(d.experience))
  {
    var top := [Rule, Banner, Rule, ""] + NameLines(d.name) + ContactLines(d.contact);
    var s, e, x := SkillsLines(d.skills), EducationLines(d.education), ExperienceLines(d.experience);
    OccursIn(top, s, e);
    OccursExtend(top + s + e, |top|, s, x);
    OccursExtend(top + s + e + x, |top|, s, [Rule]);
    OccursIn(top + s, e, x);
    OccursExtend(top + s + e + x, |top + s|, e, [Rule]);
    OccursIn(top + s + e, x, [Rule]);
    assert DisplayLines(d) == top + s + e + x + [Rule];
    assert Occurs(DisplayLines(d), |top|, s);
    assert Occurs(DisplayLines(d), |top + s|, e);
    assert Occurs(DisplayLines(d), |top + s + e|, x);
  }

  /** Each non-zero count of the statistics is the count its section's
      header prints in the display. */
  lemma StatsCountsShown(d: Record)
    ensures CreateSummaryStats(d).totalSkills > 0 ==>
      SkillsHeader(CreateSummaryStats(d).totalSkills) in DisplayLines(d)
    ensures CreateSummaryStats(d).educationCount > 0 ==>
      EducationHeader(CreateSummaryStats(d).educationCount) in DisplayLines(d)
    ensures CreateSummaryStats(d).experienceCount > 0 ==>
      ExperienceHeader(CreateSummaryStats(d).experienceCount) in DisplayLines(d)
  {
    SectionsShown(d);
    var lines := DisplayLines(d);
    if ListOf(d.skills) != [] {
      var k: nat :| Occurs(lines, k, SkillsLines(d.skills));
      assert lines[k + 0] == SkillsLines(d.skills)[0];
    }
    if ListOf(d.education) != [] {
      var k :| Occurs(lines, k, EducationLines(d.education));
      assert lines[k + 0] == EducationLines(d.education)[0];
    }
    if ListOf(d.experience) != [] {
      var k :| Occurs(lines, k, ExperienceLines(d.experience));
      assert lines[k + 0] == ExperienceLines(d.experience)[0];
    }
  }

  /** The first line after the opening lines, the name block and the
      contact block opens with the mark of the skills, education or
      experience header, or is the closing rule. */
  lemma AfterContactMark(d: Record)
    ensures var k := 4 + |NameLines(d.name)| + |ContactLines(d.contact)|;
      k < |DisplayLines(d)| && DisplayLines(d)[k] != []
      && DisplayLines(d)[k][0] != NameMark && DisplayLines(d)[k][0] != ContactMark
  {
    var s, e, x := SkillsLines(d.skills), EducationLines(d.education), ExperienceLines(d.experience);
    var lines := DisplayLines(d);
    var k := 4 + |NameLines(d.name)| + |ContactLines(d.contact)|;
    if s != [] {
      assert lines[k] == s[0] == SkillsHeader(|ListOf(d.skills)|);
    } else if e != [] {
      assert lines[k] == e[0] == EducationHeader(|ListOf(d.education)|);
    } else if x != [] {
      assert lines[k] == x[0] == ExperienceHeader(|ListOf(d.experience)|);
    } else {
      assert lines[k] == Rule;
    }
  }

  /** The fifth line of the display is the name line exactly when the
      statistics report a name, and the contact block follows the banner
      and the name exactly when they report contact information. */
  lemma StatsMarksShown(d: Record)
    ensures CreateSummaryStats(d).hasName <==> DisplayLines(d)[4][0] == NameMark
    ensures CreateSummaryStats(d).hasContactInfo <==>
      DisplayLines(d)[if CreateSummaryStats(d).hasName then 6 else 4][0] == ContactMark
  {
    AfterContactMark(d);
    var n, c := NameLines(d.name), ContactLines(d.contact);
    var lines := DisplayLines(d);
    if Truthy(d.name) {
      assert lines[4] == n[0];
      if ContactTruthy(d.contact) {
        assert lines[6] == c[0];
      }
    } else if ContactTruthy(d.contact) {
      assert lines[4] == c[0];
    }
  }
}
