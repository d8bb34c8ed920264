# ResumeFit resume parser core, modelled in Dafny

ResumeFit turns the text of a resume into a structured record. This project
models the three stages of that pipeline and the display that follows them.

- **Preprocessing** (`parser/preprocessor.py`). `clean_text` collapses
  whitespace, drops non-printable characters and strips the ends.
  `normalize_whitespace` and `remove_urls` are separate clean-up helpers.
  `extract_sections` splits the text at header lines such as "Education" or
  "Skills" into a section map. `extract_contact_info` finds the first e-mail
  address, phone number, LinkedIn profile and GitHub profile.
  `preprocess_resume_text` chains these steps.
- **Analysis** (`parser/analyzer.py`). The `ResumeAnalyzer` holds a fixed
  skill vocabulary of seventy entries. It finds a name in the first five
  lines, falling back to named-entity recognition. It finds the vocabulary
  skills that occur between word boundaries, and returns them title-cased,
  de-duplicated and sorted. It builds one education entry per degree line:
  the field, a year from a three-line window, and the institution from a
  neighbouring line. It builds one experience entry per line with a job
  keyword: dates from a window of lines, the company from a neighbouring
  line, and a description from the lines that follow. `analyze` runs each
  extractor on its section, when one was passed, and otherwise on the whole
  text.
- **Display** (`parser/exporter.py`). `format_for_display` renders the
  record as framed, bulleted and numbered lines. `create_summary_stats`
  counts what the record holds.

Every regular expression of the core is written out as a function. Where
the source uses the text of a match (e-mail, phone, profiles, field of
study, year, dates), the function gives what Python's `re` engine matches at
a position, tried in the engine's backtracking order. Where the source only
asks whether a pattern hits, as for the degree alternatives
(`parser/analyzer.py:137-138`), the function says whether some way of
matching exists at a position (`Analyzer.AltAt`, `Analyzer.AnyAltAt`), which
gives the same answer. A leftmost search then turns a match into
`re.search` or the first element of `re.findall`.

Where the source updates state step by step, the model is imperative too.
This covers the section scan, the extractor loops, the analyzer's
constructor (which flattens the vocabulary) and the display builder. These
are methods with loops, each proved equal to a specification function. The
lemmas about those functions state what the source promises.

Where the code and the written description of the system disagree, the
model follows the code:

- `clean_text` collapses every whitespace run, newlines included, into one
  space. So its cleaned text is a single line, and the newline steps after
  the collapse change nothing. `extract_sections` on that text therefore
  yields at most a `header` section.
- `analyze`, fed by the preprocessing step as `app.py` does it, runs every
  extractor on the whole cleaned text. It finds at most one education entry
  and one experience entry.
- The field of study is the field word found at the leftmost position of
  the lowered degree line. For "Master of Science in Computer Science" that
  is "Science", taken from "of Science", which comes before "Computer
  Science" (`Analyzer.SearchWordsLeftmost`).
- "Present" in "Jan 2020 - Present" is not a date token, so the entry gets
  `date = "Jan 2020"` and no `start_date` or `end_date`, although the
  sample resume reads as a range (`Analyzer.PresentIsNoEndDate`).
- A section whose only line is blank is kept with an empty body: the code
  drops a section only when it collected no line at all
  (`Preprocessor.SectionsOfEmptyText`).
- `clean_text` is not idempotent. "a \x00 b" cleans to "a  b", and cleaning
  that gives "a b" (`Preprocessor.CleanTextNotIdempotent`). It is idempotent
  on text without other non-printable characters
  (`Preprocessor.CleanTextIdempotent`). Cleaning becomes stable from the
  second pass on (`Preprocessor.CleanTextFixedPoint`).

Files: `text.dfy` (the `str` built-ins), `patterns.dfy` (shared matching
helpers), `preprocessor.dfy`, `contact.dfy`, `analyzer.dfy`, `exporter.dfy`.
`contact.dfy` holds `extract_contact_info` of `parser/preprocessor.py`: its
four patterns and their proofs make up a large, self-contained part of that
file, so they have a module of their own, which `Preprocessor` imports for
`preprocess_resume_text`.

## Model

| member | source | states |
|---|---|---|
| Text.Strip | parser/preprocessor.py:34 | the result is the slice of the input that starts where the leading whitespace ends, with no whitespace at either end; an input already without whitespace at its ends is returned unchanged |
| Text.StripKeepsNonSpace | parser/preprocessor.py:34 | stripping removes whitespace only: the non-whitespace characters of the result are those of the input, in order |
| Text.TrimStart | parser/preprocessor.py:34 | the result is a suffix of the input; every character removed is whitespace and the first one kept is not |
| Text.TrimEnd | parser/preprocessor.py:34 | the result is a prefix of the input; every character removed is whitespace and the last one kept is not |
| Text.TrimKeeps | parser/preprocessor.py:34 | stripping a string whose ends are not whitespace gives the string back |
| Text.Split | parser/preprocessor.py:91 | `str.split` on one separator gives at least one piece, and no piece holds the separator |
| Text.SplitJoin | parser/preprocessor.py:91 | joining the pieces of a split with the separator gives the original text back |
| Text.JoinSplit | parser/exporter.py:189 | splitting a join of separator-free pieces gives the pieces back |
| Text.SplitWithoutSeparator | parser/preprocessor.py:91 | a text without the separator splits into itself alone |
| Text.SplitAfterPiece | parser/preprocessor.py:91 | splitting a piece, a separator and a rest gives the piece followed by the split of the rest |
| Text.JoinAppend | parser/exporter.py:189 | joining two non-empty lists joins each and puts the separator between the two |
| Text.Lower | parser/analyzer.py:90 | `str.lower()`, character by character: the lowering `LowerIdempotent`, `Patterns.WordAtIgnoringCaseLower` and `Analyzer.SkillsIgnoreCase` are about |
| Text.Title | parser/analyzer.py:99 | `str.title()`: a letter is upper-cased after a non-letter and lower-cased after a letter; `Analyzer.TitleNodeJs` and `Analyzer.MatchedMembers` are about it |
| Text.WordCount | parser/preprocessor.py:101 | `len(s.split())`, the number of maximal non-whitespace runs: the word limit `Preprocessor.Opens` and `Analyzer.NameLike` apply; `Preprocessor.NoSpaceOneWord` bounds it |
| Text.LowerIdempotent | parser/analyzer.py:90 | lowering twice equals lowering once |
| Text.DecimalString | parser/exporter.py:153 | the rendering of a count is non-empty, all digits and has no leading zero |
| Text.DecimalRoundTrip | parser/exporter.py:153 | parsing the decimal rendering of a count gives the count back |
| Text.LessIrreflexive | parser/analyzer.py:102 | no string sorts before itself under code-point ordering |
| Text.LessTransitive | parser/analyzer.py:102 | code-point ordering of strings is transitive |
| Text.LessTotal | parser/analyzer.py:102 | of two different strings one sorts before the other |
| Text.LessAsymmetric | parser/analyzer.py:102 | two strings never sort before each other both ways |
| Text.Insert | parser/analyzer.py:102 | inserting into a strictly ascending list keeps it strictly ascending, holds exactly the old members and the new one, and grows only for a new member |
| Text.SortedSet | parser/analyzer.py:102 | `sorted(set(xs))` is strictly ascending, holds exactly the members of `xs` and is no longer than `xs` |
| Text.AscendingUnique | parser/analyzer.py:102 | two strictly ascending lists with the same members are equal, so the sorted de-duplicated list is unique |
| Patterns.RunEnd | parser/preprocessor.py:25 | a greedy run ends at the first position past the start whose character is outside the class |
| Patterns.SkipOptional | parser/preprocessor.py:139 | an optional single character is consumed exactly when it is present |
| Patterns.WordAtIgnoringCaseLower | parser/preprocessor.py:146 | a case-insensitive match means the lowered text at that position equals the pattern |
| Patterns.WordAtIsLit | parser/analyzer.py:199 | the char-by-char literal matcher agrees with slice equality |
| Patterns.OccursFromExists | parser/analyzer.py:199 | `w in s` from a position holds exactly when `w` occurs at some later position |
| Preprocessor.CollapseWhitespace | parser/preprocessor.py:25 | after `\s+` to one space, the text holds no whitespace but plain spaces, never two in a row, and is empty exactly when the input is |
| Preprocessor.CollapseKeepsText | parser/preprocessor.py:25 | collapsing rewrites whitespace only: the non-whitespace characters of the result are those of the input, in order |
| Preprocessor.CollapseEnds | parser/preprocessor.py:25 | collapsing keeps whether each end of the text is whitespace |
| Preprocessor.CollapseMakesPrintable | parser/preprocessor.py:25-28 | text of printable characters and whitespace is all printable once collapsed |
| Preprocessor.CollapseSingleSpaced | parser/preprocessor.py:25 | text already single-spaced with plain spaces is left unchanged |
| Preprocessor.CollapsedHasNoNewline | parser/preprocessor.py:25 | the collapsed text holds no newline |
| Preprocessor.KeepPrintable | parser/preprocessor.py:28 | the characters that are printable or a newline, in order: the filter `KeepOnlyPrintable`, `KeepWithoutNewline`, `KeepAllPrintable`, `KeepAppend` and `Preprocessor.CleanTextKeepsText` are about |
| Preprocessor.KeepOnlyPrintable | parser/preprocessor.py:28 | every character kept is printable or a newline |
| Preprocessor.KeepWithoutNewline | parser/preprocessor.py:28 | from text without newlines the filter keeps only printable characters and no newline |
| Preprocessor.KeepAllPrintable | parser/preprocessor.py:28 | the filter leaves all-printable text unchanged |
| Preprocessor.KeepAppend | parser/preprocessor.py:28 | the filter works character by character: filtering a concatenation concatenates the filtered parts |
| Preprocessor.KeepDropsBetween | parser/preprocessor.py:28 | a non-printable character between printable text is removed and its neighbours are joined |
| Preprocessor.KeepExample | parser/preprocessor.py:28 | "a \x00 b" keeps "a  b" |
| Preprocessor.LastNewline | parser/preprocessor.py:31 | the position found holds a newline, and none is found only when the text has no newline |
| Preprocessor.NormalizeBreaks | parser/preprocessor.py:31 | text without newlines is left unchanged by the blank-line rewrite |
| Preprocessor.CleanedLine | parser/preprocessor.py:25-34 | after the collapse and the filter the blank-line rewrite changes nothing, and the stripped line is printable, plain-spaced and newline-free |
| Preprocessor.CleanText | parser/preprocessor.py:11-36 | empty text cleans to empty; the cleaned text is printable, holds only plain spaces, no newline, and no whitespace at its ends |
| Preprocessor.CleanTextKeepsText | parser/preprocessor.py:11-36 | the non-whitespace characters of the cleaned text are exactly the printable non-whitespace characters of the input, in order |
| Preprocessor.CleanCanonical | parser/preprocessor.py:21-34 | printable, single-spaced, trimmed text is a fixed point of cleaning |
| Preprocessor.CleanTwiceCanonical | parser/preprocessor.py:21-34 | text cleaned twice is printable, single-spaced and trimmed |
| Preprocessor.CleanTextFixedPoint | parser/preprocessor.py:21-34 | cleaning a third time changes nothing |
| Preprocessor.CleanTextIdempotent | parser/preprocessor.py:21-34 | on text of printable characters and whitespace, cleaning twice equals cleaning once |
| Preprocessor.CleanTextNotIdempotent | parser/preprocessor.py:25-34 | "a \x00 b" cleans to "a  b", which cleans to "a b": one pass is not a fixed point |
| Preprocessor.CleanFirstPass | parser/preprocessor.py:25-34 | the first pass over "a \x00 b" yields "a  b" |
| Preprocessor.CleanSecondPass | parser/preprocessor.py:25-34 | the second pass over "a  b" yields "a b" |
| Preprocessor.CleanOfLine | parser/preprocessor.py:21-34 | when collapse and filter give a trimmed line, cleaning yields that line |
| Preprocessor.NormalizeWhitespace | parser/preprocessor.py:39-49 | the result is trimmed, single-spaced and holds only plain spaces |
| Preprocessor.NormalizeWhitespaceKeepsText | parser/preprocessor.py:39-49 | normalizing rewrites whitespace only: the non-whitespace characters of the result are those of the input, in order |
| Preprocessor.NormalizeWhitespaceIdempotent | parser/preprocessor.py:49 | normalizing twice equals normalizing once |
| Preprocessor.UrlAt | parser/preprocessor.py:62 | a URL is matched exactly where the scheme and one URL character start; the match is a slice of at least eight characters ending where URL characters end |
| Preprocessor.UrlStarts | parser/preprocessor.py:62 | `http[s]?://` followed by at least one URL character starts at the position: where `UrlAt` matches; `UrlStartsPrefix` shows it depends on that prefix alone |
| Preprocessor.RemoveUrlsFrom | parser/preprocessor.py:63 | the substitution from a position on: each URL match is deleted and every other character copied; `RemoveUrlsFromSound` and `RemoveUrlsFromUrlFree` are about it |
| Preprocessor.UrlStartsPrefix | parser/preprocessor.py:62 | whether a URL starts depends only on its scheme and the next character, all URL characters |
| Preprocessor.RemoveUrlsFromSound | parser/preprocessor.py:63 | the substitution leaves text with no URL in it, and every run of URL characters at its front is copied from the input |
| Preprocessor.KeptCharSound | parser/preprocessor.py:63 | copying a character where no URL starts keeps the output URL-free |
| Preprocessor.RemoveUrlsLeavesNoUrl | parser/preprocessor.py:52-63 | no URL is left after `remove_urls` |
| Preprocessor.RemoveUrlsFromUrlFree | parser/preprocessor.py:63 | `remove_urls` leaves URL-free text unchanged |
| Preprocessor.RemoveUrls | parser/preprocessor.py:52-63 | `re.sub(url_pattern, '', text)`: the specification the three lemmas below are about |
| Preprocessor.RemoveUrlsIdempotent | parser/preprocessor.py:52-63 | removing URLs twice equals removing them once |
| Preprocessor.PatternOf | parser/preprocessor.py:79-88 | each section's header alternatives, in the order written; `header` has none; `ProfileOccurs` and `ProfileOpensPersonalInfo` use the overlap of "profile" |
| Preprocessor.Opens | parser/preprocessor.py:96-101 | a section's pattern occurs in the lowered, stripped line and the line has at most five words; `HeaderKindFromOpens` and `ProfileOpens` are about it |
| Preprocessor.HeaderKind | parser/preprocessor.py:99-103 | the first section in dictionary order whose pattern opens the line, none when no pattern does: the classification `HeaderKindFromFirst`, `HeaderKindFromNone`, `HeaderKindNotHeader` and the method `MatchHeader` are about |
| Preprocessor.HeaderKindFromFirst | parser/preprocessor.py:99-103 | a line is classified by the first section pattern, in dictionary order, that it opens |
| Preprocessor.HeaderKindFromNone | parser/preprocessor.py:99-105 | a line that opens no pattern is not a header |
| Preprocessor.HeaderKindFromOpens | parser/preprocessor.py:99-103 | a header line opens the pattern of its kind, which is never `header` |
| Preprocessor.HeaderKindNotHeader | parser/preprocessor.py:79-88 | no line is classified as the `header` section, which has no pattern |
| Preprocessor.Step | parser/preprocessor.py:105-112 | one loop iteration: a header line makes its kind current, added with no lines when new, and any other line is appended to the current section; the state stays well formed (current section present, keys exactly the opened kinds, distinct, `header` first); `StepExplained` and the method `ScanLine` are about it |
| Preprocessor.ScanWith | parser/preprocessor.py:92-112 | the loop over the lines from the initial `header` state, one step per line; the state is well formed; `ScanExplained` and `ScanExtend` are about it |
| Preprocessor.Assemble | parser/preprocessor.py:115 | the dictionary comprehension: one section per key with lines, in key order, its body the stripped newline-join of its lines; `SectionsAreTheLinesUnder`, `KeysWithLinesCover` and `SectionsInOpeningOrder` are about it |
| Preprocessor.ScanExplained | parser/preprocessor.py:95-112 | after the scan, the current section is the one the last header opened, each section key is present exactly when opened or `header`, each key's lines are those under its headers, in order, and keys are in order of first opening |
| Preprocessor.StepExplained | parser/preprocessor.py:95-112 | one scanned line preserves that explanation |
| Preprocessor.KeysWithLinesCover | parser/preprocessor.py:115 | every key with lines appears in the result map |
| Preprocessor.KeysWithLinesOrdered | parser/preprocessor.py:115 | dropping empty sections keeps the keys in order of first opening |
| Preprocessor.KeptAscending | parser/preprocessor.py:115 | filtering keys keeps any ascending order on them |
| Preprocessor.LinesUnderAreBodyLines | parser/preprocessor.py:105-112 | every line filed under a section is a non-header line of the text |
| Preprocessor.SectionsAreTheLinesUnder | parser/preprocessor.py:91-117 | each section's body is its lines, joined and stripped, and every section with lines is present |
| Preprocessor.SectionsInOpeningOrder | parser/preprocessor.py:107-115 | the sections come in the order their kinds were first opened |
| Preprocessor.HeaderLinesInNoBody | parser/preprocessor.py:105-112 | no header line ends up in a section body |
| Preprocessor.ProfileOpensPersonalInfo | parser/preprocessor.py:80-103 | a "Profile" line, which both the personal-information and the summary pattern match, opens `personal_info`, the earlier key of the dictionary |
| Preprocessor.SectionsOf | parser/preprocessor.py:91-117 | the section map of a list of lines: the specification `ExtractSections` is proved equal to and the section lemmas are about |
| Preprocessor.EmptyLineNoHeader | parser/preprocessor.py:101 | an empty line is not a header |
| Preprocessor.SectionsOfEmptyText | parser/preprocessor.py:91-117 | empty text yields the single section `header` with empty body (the key is present with an empty string) |
| Preprocessor.SectionsOfOneLine | parser/preprocessor.py:91-117 | one non-header line yields the single `header` section holding the stripped line |
| Preprocessor.SingleLineSections | parser/preprocessor.py:91-117 | one line yields no section when it is a header, and the `header` section otherwise |
| Preprocessor.KeysWithLinesEmpty | parser/preprocessor.py:115 | sections without lines are all dropped |
| Preprocessor.ScanExtend | parser/preprocessor.py:95 | scanning one more line is one more step of the scan |
| Preprocessor.MatchHeader | parser/preprocessor.py:96-103 | the pattern loop returns the line's header kind |
| Preprocessor.ScanLine | parser/preprocessor.py:96-112 | the loop body updates the current section and the section map as one scan step |
| Preprocessor.ExtractSections | parser/preprocessor.py:66-117 | the method's section map equals the specification of the sections of the text's lines |
| Preprocessor.PreprocessedSections | parser/preprocessor.py:159-182 | the sections of the preprocessed text are those of its cleaned text, which is one line: none when that line is a header line, and otherwise the single `header` section holding it |
| Preprocessor.OneLineSections | parser/preprocessor.py:91-117 | a trimmed line without line breaks makes no section when it is a header line, and otherwise the single `header` section holding it |
| Preprocessor.PreprocessResumeText | parser/preprocessor.py:159-182 | cleaned text, its sections and its contact details: the specification `PreprocessedSections`, `PreprocessedSectionsAreHeader` and `Exporter.PipelineStats` are about |
| Preprocessor.PreprocessedSectionsAreHeader | parser/preprocessor.py:170-173 | preprocessing yields at most one section, and it is `header` |
| Contact.TldEnd | parser/preprocessor.py:133 | the top-level domain backs off to the last position with a word boundary, keeping at least two characters |
| Contact.EmailAt | parser/preprocessor.py:133 | an e-mail match is a slice between word boundaries with a local part, `@`, a domain, a dot and two or more top-level-domain characters |
| Contact.EmailSpanShaped | parser/preprocessor.py:133 | a span with those parts is an e-mail address |
| Contact.PhoneBodyEnd | parser/preprocessor.py:139 | the ten-digit body of a phone match spans 10 to 14 characters holding exactly ten digits |
| Contact.PhoneBodyCount | parser/preprocessor.py:139 | a body laid out as 3, 3 and 4 digits with optional parentheses and separators holds ten digits and only phone characters |
| Contact.CountryCodeThenBody | parser/preprocessor.py:139 | with a country code, the match holds the code's digits plus the ten body digits |
| Contact.CountryCodeCount | parser/preprocessor.py:139 | a `+`, one to three digits, an optional separator and a body hold ten more digits than the code |
| Contact.PhoneEndAt | parser/preprocessor.py:139 | a phone match is 10 to 19 phone characters holding 10 to 13 digits |
| Contact.ProfileAt | parser/preprocessor.py:145-151 | a profile match is a prefix, matched ignoring case, followed by the longest non-empty run of slug characters; none is found only when no prefix is followed by a slug character |
| Contact.ProfileSpanFound | parser/preprocessor.py:145-151 | a prefix followed by a maximal slug run is a profile match |
| Contact.MatchAt | parser/preprocessor.py:133-152 | what each of the four patterns matches at a position: `EmailAt`, the phone slice from `PhoneEndAt`, or `ProfileAt` with the LinkedIn or GitHub prefixes; `FirstMatchFrom` searches with it |
| Contact.First | parser/preprocessor.py:134-154 | `re.search(p, text).group(0)`: the match at the leftmost position where the pattern matches, none when it matches nowhere; `EmailFound`, `PhoneFound`, `LinkedInFound` and `GitHubFound` are about it |
| Contact.Leftmost | parser/preprocessor.py:134 | the search returns the first position that hits, and none only when no position hits |
| Contact.FirstMatchFrom | parser/preprocessor.py:134-148 | the first match is at the leftmost position where the pattern matches, and none is found only when it matches nowhere |
| Contact.EmailFound | parser/preprocessor.py:133-136 | the e-mail stored is the slice of the text at the leftmost match, between word boundaries and e-mail shaped |
| Contact.PhoneFound | parser/preprocessor.py:139-142 | the phone stored is a slice of 10 to 19 phone characters holding 10 to 13 digits |
| Contact.LinkedInFound | parser/preprocessor.py:145-148 | the LinkedIn value is the whole match, prefix included, of one of the two prefixes |
| Contact.GitHubFound | parser/preprocessor.py:151-154 | the GitHub value is the whole match, `github.com/` and the user name |
| Contact.ExtractContactInfo | parser/preprocessor.py:120-156 | the first match of each of the four patterns in the text: the specification `EmailFound`, `PhoneFound`, `LinkedInFound` and `GitHubFound` are about |
| Contact.DigitsInSplit | parser/preprocessor.py:139 | digit counts add up over adjacent ranges |
| Analyzer.FlattenMembers | parser/analyzer.py:47-50 | a skill is in the flattened list exactly when it is in some category |
| Analyzer.VocabularySize | parser/analyzer.py:30-50 | the flattened vocabulary has seventy entries |
| Analyzer.BoundedFrom | parser/analyzer.py:96-97 | `re.search(r'\b' + skill + r'\b', text)` from a position: the bounded word occurs at that position or later; `BoundedFromExists` is about it |
| Analyzer.Matched | parser/analyzer.py:94-99 | the title cases of the vocabulary entries whose bounded search hits, in vocabulary order, repeats kept: the list `MatchedLength` and `MatchedMembers` are about |
| Analyzer.BoundedFromExists | parser/analyzer.py:96-97 | the bounded search succeeds exactly when the word occurs between word boundaries somewhere |
| Analyzer.MatchedLength | parser/analyzer.py:94-99 | at most one found skill per vocabulary entry |
| Analyzer.MatchedMembers | parser/analyzer.py:94-99 | a string is found exactly when it is the title case of a vocabulary entry that matches |
| Analyzer.SkillsAscending | parser/analyzer.py:102 | the skill list is strictly ascending and no longer than the vocabulary |
| Analyzer.SkillsIn | parser/analyzer.py:80-105 | the sorted, de-duplicated title cases of the vocabulary entries found: the specification `ExtractSkills` is proved equal to and the skill lemmas are about |
| Analyzer.SkillsExample | parser/analyzer.py:90-102 | with the vocabulary "python" and "react", "Python, React, python" yields exactly ["Python", "React"] |
| Analyzer.SkillsAtMostSeventy | parser/analyzer.py:30-105 | at most seventy skills are reported |
| Analyzer.SkillsMembers | parser/analyzer.py:90-102 | a skill is reported exactly when it is the title case of a vocabulary entry whose lowered form occurs between word boundaries in the lowered text |
| Analyzer.SkillsIgnoreCase | parser/analyzer.py:90 | the text's case does not change the skills found |
| Analyzer.SymbolEndNeedsWordAfter | parser/analyzer.py:96 | a skill ending in a symbol, such as "c++", matches only when a word character follows it |
| Analyzer.TitleNodeJs | parser/analyzer.py:99 | "node.js" is reported as "Node.Js" |
| Analyzer.NameOf | parser/analyzer.py:52-78 | the first qualifying line among the first five, else the recogniser's answer: the specification `ExtractName`, `NamePicksFirstLine` and `NameFallsBack` are about |
| Analyzer.NameLike | parser/analyzer.py:67-69 | a stripped line is non-empty, at most four words, under 50 characters, and its lowered form holds no `@`, `http`, `www` or phone shape; `NamePicksFirstLine` and `NameFallsBack` are stated with it |
| Analyzer.NameCandidate | parser/analyzer.py:66-70 | the stripped line when it passes the name test, none otherwise; the method `CheckNameLine` is proved equal to it |
| Analyzer.NameCandidates | parser/analyzer.py:65 | at most the first five lines are tried |
| Analyzer.Head500 | parser/analyzer.py:73 | the recogniser sees a prefix of at most 500 characters, the whole text when shorter |
| Analyzer.NamePicksFirstLine | parser/analyzer.py:64-70 | the name is the first of the first five lines that, stripped, is non-empty, short, and holds no e-mail, web or phone mark |
| Analyzer.NameFallsBack | parser/analyzer.py:72-78 | when none of the first five lines qualifies, the name is what the recogniser finds in the first 500 characters |
| Analyzer.FirstSomeNone | parser/analyzer.py:148-152 | the first-found search finds nothing exactly when every candidate is empty |
| Analyzer.FirstSomeAt | parser/analyzer.py:148-152 | the first-found search returns the first non-empty candidate |
| Analyzer.TrueIndices | parser/analyzer.py:133-165 | the selected line numbers are ascending and are exactly the flagged lines |
| Analyzer.SelectByIndices | parser/analyzer.py:133-165 | the entries kept are those of the flagged lines, one each, in line order |
| Analyzer.IsDegreeLine | parser/analyzer.py:134-138 | some degree alternative occurs in the lowered line; `SearchFromReaches`, `BaIsADegree` and the method `MatchesDegree` are about it |
| Analyzer.FieldOf | parser/analyzer.py:142-144 | the title case of the field word found by the leftmost search in the lowered line, none when no field word occurs; `SearchWordsLeftmost` characterises that search |
| Analyzer.SearchFromReaches | parser/analyzer.py:138 | a degree alternative matching at any later position makes the line a degree line |
| Analyzer.BaIsADegree | parser/analyzer.py:121 | any line containing "ba", in any case, is a degree line |
| Analyzer.WordChoiceAt | parser/analyzer.py:142 | at a position, the first alternative that matches is chosen, and none only when none matches |
| Analyzer.FirstWordFrom | parser/analyzer.py:142 | the search stops at the leftmost position where any field word matches |
| Analyzer.SearchWordsLeftmost | parser/analyzer.py:142-144 | the field is a field word occurring at a position before which no field word starts, and none is found only when no field word occurs |
| Analyzer.YearFrom | parser/analyzer.py:147-149 | the year search finds the leftmost position of 19 or 20 and two digits |
| Analyzer.FirstYear | parser/analyzer.py:149-151 | a year found is four characters long and starts with 19 or 20 followed by two digits |
| Analyzer.YearCandidates | parser/analyzer.py:148 | the year window is the degree line and up to two lines after it |
| Analyzer.YearFromWindow | parser/analyzer.py:147-152 | the year is that of the first line of the window holding one, and absent when none does |
| Analyzer.InstitutionAt | parser/analyzer.py:155-162 | the stripped previous line when longer than five characters; on the first line only, the stripped next line under the same rule and holding no year; `InstitutionIsNeighbour`, `InstitutionIgnoresNext` and the method `FindInstitution` are about it |
| Analyzer.EducationAt | parser/analyzer.py:139-162 | the entry of a degree line: the stripped line, its field, the year of its window and its institution; `EducationPerDegreeLine` and the method `EducationEntry` are about it |
| Analyzer.InstitutionIgnoresNext | parser/analyzer.py:155-159 | past the first line only the previous line decides the institution |
| Analyzer.InstitutionIsNeighbour | parser/analyzer.py:155-162 | the institution is longer than five characters: the stripped previous line, or for the first line the stripped next line when it holds no year |
| Analyzer.EducationPerDegreeLine | parser/analyzer.py:131-165 | one education entry per degree line, in line order, each built from that line |
| Analyzer.EducationOf | parser/analyzer.py:107-168 | one entry per degree line: the specification `ExtractEducation` is proved equal to and `EducationPerDegreeLine` is about |
| Analyzer.HasJobKeyword | parser/analyzer.py:198-199 | some job keyword occurs in the lowered line; the method `MatchesJob` and `KeptStops` are about it |
| Analyzer.DatesFrom | parser/analyzer.py:205 | `re.findall(date_pattern, s)` from a position: each match taken at the leftmost position, the search resuming at its end; `DatesFromNonEmpty`, `DateTokensEndInDigits` and `NoDigitsNoDates` are about it |
| Analyzer.ContainsDate | parser/analyzer.py:217-230 | `re.search(date_pattern, s)` without IGNORECASE: a date token starts somewhere; `MonthNeedsLowerCase`, `NoDateIn` and `MonthCaseSensitive` are about it |
| Analyzer.DateWindow | parser/analyzer.py:203-206 | the date tokens of lines `max(0, i-1)` to `min(i+3, n)-1`, in order, found with IGNORECASE; `ExperienceDateShape`, `PresentIsNoEndDate` and the method `CollectDates` are about it |
| Analyzer.MonthDateAt | parser/analyzer.py:190 | a month date ends in four digits |
| Analyzer.DateAt | parser/analyzer.py:190 | a date token ends in four digits |
| Analyzer.DatesFromNonEmpty | parser/analyzer.py:205 | `findall` returns some date exactly when a date token matches somewhere |
| Analyzer.DateTokensEndInDigits | parser/analyzer.py:205 | every date token found ends in four digits |
| Analyzer.CompanyAt | parser/analyzer.py:215-222 | the stripped previous line when longer than three characters and date-free; on the first line only, the next line under the same rule; `CompanyIsNeighbour`, `CompanyIgnoresNext` and the method `FindCompany` are about it |
| Analyzer.CompanyIgnoresNext | parser/analyzer.py:215-219 | past the first line only the previous line decides the company |
| Analyzer.CompanyIsNeighbour | parser/analyzer.py:215-222 | the company is longer than three characters, holds no date, and is the stripped previous line, or for the first line the stripped next line |
| Analyzer.KeptLineClean | parser/analyzer.py:227-231 | a kept description line is the stripped line, non-blank, without a job keyword and without a date |
| Analyzer.WindowEnd | parser/analyzer.py:226 | the description window ends after the title line and at most ten lines past it |
| Analyzer.MapAllAt | parser/analyzer.py:226-231 | each line's classification is that of the line |
| Analyzer.KeptFrom | parser/analyzer.py:226-231 | the stripped non-blank, keyword-free, date-free lines of a range, in order, up to the first blank or keyword line; `KeptBound`, `KeptStops`, `KeptComesFrom`, `KeptClean` and the method `KeptLines` are about it |
| Analyzer.DescriptionAt | parser/analyzer.py:224-234 | the kept lines of lines `i+1` to `min(i+10, n)-1` joined by spaces, none when none is kept; `DescriptionBound`, `DescriptionStops`, `DescriptionClean` and the method `CollectDescription` are about it |
| Analyzer.KeptBound | parser/analyzer.py:226-231 | no more lines are kept than the window holds |
| Analyzer.KeptStops | parser/analyzer.py:228-229 | a blank line or a line with a job keyword ends the description |
| Analyzer.KeptComesFrom | parser/analyzer.py:226-231 | every kept line comes from a kept-classified line of the window |
| Analyzer.DescriptionBound | parser/analyzer.py:226 | a description has at most nine lines |
| Analyzer.DescriptionStops | parser/analyzer.py:228-229 | the description takes only lines before the first blank or job-keyword line of the window |
| Analyzer.DescriptionClean | parser/analyzer.py:226-231 | each description line is a stripped line of the window, non-blank, with no job keyword and no date |
| Analyzer.KeptClean | parser/analyzer.py:226-231 | each line kept from a range is a stripped line of that range, non-blank, with no job keyword and no date |
| Analyzer.ExperienceAt | parser/analyzer.py:200-234 | the entry of a job line: the stripped line, start and end from two or more window dates or a date from exactly one, its company and description; `ExperienceDateShape`, `ExperiencePerJobLine`, `PresentIsNoEndDate` and the method `ExperienceEntry` are about it |
| Analyzer.ExperienceDateShape | parser/analyzer.py:203-212 | start and end dates come together and are the first two date tokens; a single date never comes with them; some date is set exactly when the window holds a date token |
| Analyzer.ExperienceOf | parser/analyzer.py:170-240 | one entry per job line: the specification `ExtractExperience` is proved equal to and `ExperiencePerJobLine` is about |
| Analyzer.NoDigitsNoDates | parser/analyzer.py:205 | text without a digit holds no date token |
| Analyzer.PresentIsNoEndDate | parser/analyzer.py:203-212 | for the sample lines "Senior Software Engineer" over "Jan 2020 - Present", the window holds the one date "Jan 2020", which becomes `date`, with no start or end date |
| Analyzer.ExperiencePerJobLine | parser/analyzer.py:192-237 | one experience entry per line with a job keyword, in line order, each built from that line |
| Analyzer.MonthIgnoringCase | parser/analyzer.py:205 | with IGNORECASE, "JAN 1850" is one date token |
| Analyzer.MonthNeedsLowerCase | parser/analyzer.py:217 | without IGNORECASE a month name starts with a lower-case letter |
| Analyzer.NoDateWithoutLowerOrYear | parser/analyzer.py:217 | without a lower-case letter or a year at a position, no date starts there |
| Analyzer.NoDateIn | parser/analyzer.py:217 | text with no lower-case letter and no year holds no date for the case-sensitive search |
| Analyzer.MonthCaseSensitive | parser/analyzer.py:217 | the case-sensitive search finds no date in "JAN 1850", so such a line can still be a company, although the window search counts it as a date |
| Analyzer.AnalysisOf | parser/analyzer.py:242-281 | the name of the whole text and each extractor's result on its scope: the specification `Analyze` is proved equal to and the scope lemmas are about |
| Analyzer.LookupSection | parser/analyzer.py:263-275 | a section body is found exactly when a section of that kind exists |
| Analyzer.LookupFinds | parser/analyzer.py:263-275 | the body found is that of a section of the kind |
| Analyzer.SectionBody | parser/analyzer.py:263-275 | `sections[k]` when sections were passed, are non-empty and hold the key, none otherwise; `LookupSection` and `LookupFinds` are about the lookup |
| Analyzer.Scope | parser/analyzer.py:263-278 | the text an extractor runs on: its section's body when there is one, the whole text otherwise; `ScopeRule` and `HeaderOnlyScope` are about it |
| Analyzer.ScopeRule | parser/analyzer.py:263-278 | an extractor runs on the body of its section when the sections were passed and hold one, and on the whole text otherwise |
| Analyzer.HeaderOnlyScope | parser/analyzer.py:263-278 | with only `header` sections, every extractor runs on the whole text |
| Analyzer.HeaderOnlyAnalysis | parser/analyzer.py:255-278 | with only `header` sections, `analyze` gives the same result as without sections |
| Analyzer.PipelineUsesCleanedText | app.py:144-151 | fed by preprocessing, `analyze` with the sections equals `analyze` without them |
| Analyzer.PipelineAtMostOneEntry | app.py:144-151 | fed by preprocessing, at most one education entry and one experience entry are found |
| Analyzer.FindYear | parser/analyzer.py:147-152 | the year loop returns the year of the window |
| Analyzer.MatchesDegree | parser/analyzer.py:137-138 | the pattern loop says whether the line is a degree line |
| Analyzer.FindInstitution | parser/analyzer.py:155-162 | the method returns the institution of the line |
| Analyzer.EducationEntry | parser/analyzer.py:133-165 | a degree line yields its education entry, any other line none |
| Analyzer.CollectDates | parser/analyzer.py:203-206 | the loop gathers the date tokens of the window lines in order |
| Analyzer.ClassifyLine | parser/analyzer.py:227-231 | the method classifies a description line as stop, skip or keep |
| Analyzer.KeptLines | parser/analyzer.py:225-231 | the loop collects the kept lines of the window up to the first stop |
| Analyzer.CollectDescription | parser/analyzer.py:225-234 | the description is the kept lines joined by spaces, absent when none is kept |
| Analyzer.MatchesJob | parser/analyzer.py:198-199 | the keyword loop says whether the line holds a job keyword |
| Analyzer.FindCompany | parser/analyzer.py:215-222 | the method returns the company of the line |
| Analyzer.ExperienceEntry | parser/analyzer.py:194-237 | a job line yields its experience entry, any other line none |
| Analyzer.CheckNameLine | parser/analyzer.py:66-70 | the method returns the stripped line when it looks like a name, and none otherwise |
| Analyzer.ResumeAnalyzer.constructor | parser/analyzer.py:20-50 | the analyzer holds the category table and its flattening, and keeps the recogniser given |
| Analyzer.ResumeAnalyzer.ExtractName | parser/analyzer.py:52-78 | the name returned is the first qualifying line among the first five, else what the recogniser finds |
| Analyzer.ResumeAnalyzer.ExtractSkills | parser/analyzer.py:80-105 | the skill list equals the sorted, de-duplicated title cases of the vocabulary entries found |
| Analyzer.ResumeAnalyzer.ExtractEducation | parser/analyzer.py:107-168 | the entries equal one entry per degree line, in line order |
| Analyzer.ResumeAnalyzer.ExtractExperience | parser/analyzer.py:170-240 | the entries equal one entry per job line, in line order |
| Analyzer.ResumeAnalyzer.Analyze | parser/analyzer.py:242-281 | the result holds the name of the whole text and each extractor's result on its scope |
| Exporter.RecordOf | app.py:148-154 | the record rendered: the analysis with the contact details added; `RecordStats` and `PipelineStats` are about it |
| Exporter.NameLines | parser/exporter.py:133-135 | the name line and a blank line when the name is truthy, nothing otherwise; `StatsMarksShown` and `AfterContactMark` are about it |
| Exporter.ContactLines | parser/exporter.py:138-149 | the contact heading, one bulleted line per truthy field in the order email, phone, LinkedIn, GitHub, and a blank line, when the contact details are truthy; the method `ContactSection` and `ContactSingleLine` are about it |
| Exporter.SkillsLines | parser/exporter.py:152-156 | the count line, one bullet per skill in order and a blank line, when the list is non-empty; `SkillsShown` and the method `SkillsSection` are about it |
| Exporter.EducationBlock | parser/exporter.py:162-169 | an entry's numbered head, its truthy institution, field and year lines, and a blank line; `EducationDetails`, `EducationNumbered` and the method `EducationEntryLines` are about it |
| Exporter.Truncated | parser/exporter.py:183 | a description over 200 characters cut to its first 200 and "..."; `TruncationRule` is about it |
| Exporter.DateLines | parser/exporter.py:178-181 | the duration line when start and end are truthy, else the date line when the date is truthy; `DateLinesShow` is about it |
| Exporter.ExperienceBlock | parser/exporter.py:175-185 | an entry's numbered head, its company, date and description lines, and a blank line; `ExperienceDetails`, `ExperienceNumbered` and the method `ExperienceEntryLines` are about it |
| Exporter.Repeat | parser/exporter.py:127 | `"=" * 60` is sixty `=` characters |
| Exporter.NumberedStep | parser/exporter.py:161-169 | numbering one more entry appends its block under the next number |
| Exporter.DisplayLines | parser/exporter.py:124-187 | the lines open with rule, banner, rule and a blank line, and close with the rule |
| Exporter.Display | parser/exporter.py:114-189 | the display lines joined by newlines: the specification `FormatForDisplay` is proved equal to and `DisplayFrame` and `DisplayRoundTrip` are about |
| Exporter.PlainRecordDisplay | parser/exporter.py:124-189 | a record with nothing truthy displays as the frame alone |
| Exporter.DisplayFrame | parser/exporter.py:127-189 | every display starts with rule, banner, rule and ends with a newline and the rule |
| Exporter.FrameJoin | parser/exporter.py:189 | joining lines that open with rule, banner, rule and close with the rule keeps that frame in the text |
| Exporter.SingleLinesConcat | parser/exporter.py:124-185 | lines without newlines stay so when concatenated |
| Exporter.BulletsSingleLine | parser/exporter.py:154-155 | bullets of newline-free skills are newline-free |
| Exporter.NumberedSingleLine | parser/exporter.py:161-185 | numbered blocks of newline-free lines are newline-free |
| Exporter.TruncatedSingleLine | parser/exporter.py:183 | truncation adds no newline |
| Exporter.EducationBlockSingleLine | parser/exporter.py:162-169 | an entry of newline-free values renders newline-free lines |
| Exporter.ExperienceBlockSingleLine | parser/exporter.py:175-185 | an entry of newline-free values renders newline-free lines |
| Exporter.ContactSingleLine | parser/exporter.py:138-149 | newline-free contact values render newline-free lines |
| Exporter.DisplayRoundTrip | parser/exporter.py:124-189 | for a record of newline-free values, splitting the display at newlines gives back exactly the lines built |
| Exporter.BulletsAt | parser/exporter.py:154-155 | one bullet line per skill, in order |
| Exporter.SkillsShown | parser/exporter.py:152-156 | a non-empty skill list is shown as its count line, one bullet per skill in order, and a blank line |
| Exporter.BlockParts | parser/exporter.py:152-185 | a section placed in the display shows its head, its body lines in order and its closing blank line |
| Exporter.EducationNumbered | parser/exporter.py:161-162 | entry `j` is headed by its number `j + 1` and its degree, after the earlier entries |
| Exporter.ExperienceNumbered | parser/exporter.py:174-175 | entry `j` is headed by its number `j + 1` and its title, after the earlier entries |
| Exporter.ShowsConcat | parser/exporter.py:162-185 | a caption shows in a concatenation exactly when it shows in a part |
| Exporter.ShowsDetail | parser/exporter.py:163-168 | a detail line shows its caption exactly when the value is truthy |
| Exporter.EducationShows | parser/exporter.py:162-169 | a caption shows in an education entry exactly when it shows in one of its detail lines |
| Exporter.EducationDetails | parser/exporter.py:163-168 | institution, field and year are each printed exactly when truthy |
| Exporter.ExperienceShows | parser/exporter.py:175-185 | a caption shows in an experience entry exactly when it shows in its company, date or description part |
| Exporter.DateLinesShow | parser/exporter.py:178-181 | a duration is printed exactly when both start and end are truthy; otherwise a single date exactly when it is truthy |
| Exporter.DescriptionLinesShow | parser/exporter.py:182-184 | a description is printed exactly when it is truthy |
| Exporter.ExperienceDetails | parser/exporter.py:176-184 | company, duration, single date and description are each printed exactly under their conditions |
| Exporter.TruncationRule | parser/exporter.py:183 | descriptions up to 200 characters are kept; longer ones become their first 200 characters and "..."; truncating twice equals truncating once |
| Exporter.EducationEntryLines | parser/exporter.py:162-169 | the method builds the entry's lines |
| Exporter.ExperienceEntryLines | parser/exporter.py:175-185 | the method builds the entry's lines |
| Exporter.ContactSection | parser/exporter.py:138-149 | the method builds the contact block: heading, one line per truthy field in order, blank line; nothing when the contact details are empty |
| Exporter.SkillsSection | parser/exporter.py:152-156 | the method builds the skills block |
| Exporter.EducationEntries | parser/exporter.py:161-169 | the loop numbers the entries from one |
| Exporter.EducationSection | parser/exporter.py:159-169 | the method builds the education block |
| Exporter.ExperienceEntries | parser/exporter.py:174-185 | the loop numbers the entries from one |
| Exporter.ExperienceSection | parser/exporter.py:172-185 | the method builds the experience block |
| Exporter.FormatForDisplay | parser/exporter.py:114-189 | the method's text is the specified display of the record |
| Exporter.OccursIn | parser/exporter.py:124-187 | a block placed between two others occurs at their join |
| Exporter.SectionsShown | parser/exporter.py:151-185 | the skills, education and experience blocks each occur in the display lines |
| Exporter.StatsCountsShown | parser/exporter.py:202-205 | each non-zero count of the statistics is the count its section heading prints |
| Exporter.AfterContactMark | parser/exporter.py:151-187 | the line after the name and contact blocks never opens with their marks |
| Exporter.StatsMarksShown | parser/exporter.py:206-207 | the statistics report a name exactly when the display shows the name line, and contact information exactly when it shows the contact heading after it |
| Exporter.CreateSummaryStats | parser/exporter.py:192-210 | the five statistics of a record: the specification `RecordStats`, `StatsCountsShown` and `StatsMarksShown` are about |
| Exporter.RecordStats | parser/exporter.py:202-210 | the statistics of an analysis record are its list lengths, whether any contact detail was found, and whether the name is truthy |
| Exporter.PipelineStats | app.py:144-154 | for any raw text, the statistics report at most seventy skills, at most one education and one experience entry, and contact information exactly when a contact detail was found in the cleaned text |

## Left out

- Character classes: `\s`, `strip()` and `split()` use Python's exact whitespace set, but `isprintable()` is approximated by control, format and private-use ranges, and `\d`, `\w`, letters, `lower()` and `title()` are modelled on ASCII only.
- Named-entity recognition (spaCy) is a parameter of the analyzer, a function from text to an optional name; loading the model and its failure are not modelled.
- Logging is left out; it has no effect on results.
- The section patterns are matched as the listed words and phrases; the trailing optional `s` of "certifications?", "licenses?" and "awards?" adds nothing, since the shorter word already matches.
- The section dictionary is a sequence of sections in insertion order; no key appears twice.
- Record fields are optional values: a key that is present with value None is treated like a missing key, where Python would print "None".
- `extract_text` and the other file readers in `parser/extractor.py`, the Streamlit interface of `app.py`, `generate_report.py`, and `export_to_json` and `export_to_csv` are not part of this model: they are file and user-interface I/O.
- Exporter.DisplayRoundTrip: holds only for records whose values hold no newline; a value with a newline splits into more lines than were built.
