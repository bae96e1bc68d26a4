# Jury survey recoding: a verified model

The system helps a trial consultant turn a mock-jury survey into an SPSS
recode script. It works in four stages:

1. It reads the statements an attorney highlighted in yellow in a PDF.
2. It matches each statement to the column of an SPSS `.sav` file whose
   variable label says the same thing.
3. It keeps a recode configuration per statement and per neutral
   question: which codes count as favourable to which party.
4. From those settings it writes the `recode … into …` syntax.

A small script beside it, `leaning.py`, reads juror rows out of a PDF table.

This project models those stages in Dafny and proves what each promises.
They are modelled as follows:

- **PDF highlights** (`PdfPages`, `PdfSpans`, `PdfMerge`, `PdfStatements`,
  `PdfExtract`): finding pages that contain a text, and selecting pages by
  number. The yellow rectangles of a page. The text spans that meet one of
  them, with numeric spans dropped. Spans merged into lines by vertical
  position. Duplicates removed, keeping the first of each (page, text). The
  text cut into statements at periods.
- **Label matching** (`LabelMatch`, `SpssProcessor`): the label-to-column
  mapping, where a later row wins but the first row fixes the position; the
  whitespace and hyphen normalisation; exact, then substring, lookup; and
  `find_all_matches`, which sorts the two parties' questions into matched
  and unmatched.
- **Script generation** (`SpssSyntax`, `SavHandlers`): both generators, the
  current `SPSSSyntaxGenerator` and the older `SAVHandler`, as classes whose
  methods append to their script and tracking lists.
- **Recode settings** (`RecodeValues`, `UserRecodePrepping`,
  `RecodeDefaults`, `PdfDefaults`, `NeutralRecode`, `NeutralHelpers`,
  `FilterNeutral`): the three versions of `_initialize_recode_settings`;
  `_create_recode_config`; `update_recode_with_match`; adding a neutral
  question by hand; preparing the selected neutral questions for the
  generator; and finding the neutral questions the user changed.
- **Juror rows** (`Leaning`): `cleanText` and `parse_row`.

Streamlit's `st.session_state` is passed in and returned explicitly. A
Python dict whose insertion order matters is an `ODict`: a key list plus a
map. This makes `PutIfAbsent` and `Put` the two kinds of dict write that
the source uses. A configuration dict is a `Config`, a map from its field
names to Python values.

Some behaviour that the proofs bring out:

- The current generator writes `into C.r` while its labels name `Cr`. The
  older handler writes `into Cr.` (`SpssSyntax.TargetsAndLabels`).
- A party statement whose column has no value labels gets a continuous
  configuration, which has no `range1_start`. Both generators then raise
  `KeyError` on that statement (`SpssSyntax.ContinuousStatementRaises`).
  The placeholder and unknown configurations are written with `None` bounds
  (`SpssSyntax.PlaceholderLine`).
- In `parse_row` the star offset never applies: `cleanText` has already
  removed every `*`, so line 1 is never `"*"` (`Leaning.ParseRowLines`).
- A question made of whitespace only normalises to the empty string. That
  string is a substring of every label, so the question matches the first
  column (`LabelMatch.BlankQuestionMatchesFirst`).
- The two copies of `_get_value_range` and `update_recode_with_match` are
  identical. They are cited once each below.
- The handler's `_build_label_mapping`, `_normalize_text` and `_find_column`
  (sav_handler.py:23-57) are the matcher's, line for line. Both classes
  therefore use the one `LabelMatch` model, and every `LabelMatch` property
  holds for the handler too.

## Model

| member | source | states |
|---|---|---|
| PdfPages.FindPagesWithText | src/backend/file_extract/PDF_implementation.py:14-34 | the 0-based page numbers returned ascend, lie within the document, and name exactly the pages whose text is non-empty and contains the search text, ignoring case; a page without text is never reported, even for an empty search |
| PdfPages.InRangeSorted | src/backend/file_extract/PDF_implementation.py:108-110 | keeping only the page numbers below the page count keeps a sorted list sorted, and every kept number was a requested one |
| PdfPages.InRangeCount | src/backend/file_extract/PDF_implementation.py:108-110 | each in-range page number is kept as often as it was requested; numbers out of range are never kept |
| PdfPages.SelectPages | src/backend/file_extract/PDF_implementation.py:108-110 | the pages copied are the requested ones in ascending order, repeats kept, those beyond the document dropped |
| PdfSpans.FindYellowRects | src/backend/file_extract/PDF_implementation.py:126-134 | one rectangle per drawing with a fill of r > 0.8, g > 0.8 and b < 0.5, in drawing order, and nothing else |
| PdfSpans.IsYellow | src/backend/file_extract/PDF_implementation.py:128-133 | the yellow test of one drawing: a fill with r > 0.8, g > 0.8 and b < 0.5; what it selects is stated by `FindYellowRects` and `YellowRectsExactly` |
| PdfSpans.YellowRectsExactly | src/backend/file_extract/PDF_implementation.py:126-134 | a drawing contributes a rectangle if and only if it has a fill with r > 0.8, g > 0.8 and b < 0.5 |
| PdfSpans.MeetsYellow | src/backend/file_extract/PDF_implementation.py:146-148 | the inner loop reports a hit if and only if the span's box meets some yellow rectangle (the loop stops at the first) |
| PdfSpans.ExtractLineSpans | src/backend/file_extract/PDF_implementation.py:143-157 | the loop over a line's spans emits exactly the highlighted spans that the function `Emit` selects, in order |
| PdfSpans.ExtractBlockSpans | src/backend/file_extract/PDF_implementation.py:141-157 | over a block's lines, the emitted highlights are those of all its spans in reading order |
| PdfSpans.ExtractHighlightedSpans | src/backend/file_extract/PDF_implementation.py:136-159 | over all text blocks of a page, the emitted highlights are those of every span in block, line, span order |
| PdfSpans.EmittedHighlights | src/backend/file_extract/PDF_implementation.py:144-156 | every emitted highlight has non-empty stripped text that is not numeric, carries page `page_num + 1` and its span's top, and comes from a span meeting a yellow rectangle |
| PdfSpans.NotNumericWithOtherChar | src/backend/file_extract/PDF_implementation.py:256-259 | a span holding any character other than digits, whitespace and `%` is never numeric |
| PdfSpans.IsNumericSpan | src/backend/file_extract/PDF_implementation.py:256-259 | `_is_numeric_span`: the stripped text without statistics and spaces is all digits and non-empty; its cases are stated by the lemmas beside it |
| PdfSpans.PercentWithoutSpaceKept | src/backend/file_extract/PDF_implementation.py:256-259 | a span with a `%` and no whitespace is kept: the statistics pattern needs whitespace before the number |
| PdfSpans.PercentAloneKept | src/backend/file_extract/PDF_implementation.py:256-259 | the span "45%" is not numeric |
| PdfSpans.DigitsAreNoise | src/backend/file_extract/PDF_implementation.py:256-259 | a span of digits only is numeric and so dropped |
| PdfSpans.SpacedPercentIsNoise | src/backend/file_extract/PDF_implementation.py:256-259 | digits, a space, digits and `%` form a numeric span: the percentage is removed and the digits remain |
| PdfSpans.NumberWithPercentIsNoise | src/backend/file_extract/PDF_implementation.py:256-259 | the span "12 34%" is numeric |
| PdfSpans.RemoveSpacedPercentAlone | src/backend/file_extract/PDF_implementation.py:258 | a space, digits and `%` are removed entirely by the substitution |
| PdfSpans.RemovePercentKeeps | src/backend/file_extract/PDF_implementation.py:258 | the substitution never removes a character that cannot be part of the pattern |
| PdfSpans.RemoveBlanks | src/backend/file_extract/PDF_implementation.py:259 | removing spaces keeps every other character |
| PdfMerge.SortByPos | src/backend/file_extract/PDF_implementation.py:164 | the spans sorted by (top, left edge) are ordered by that key and are a permutation of the input |
| PdfMerge.SortStable | src/backend/file_extract/PDF_implementation.py:164 | the sort is stable: for every (top, left edge) key, the spans with that key come out in the order they came in |
| PdfMerge.InsertStable | src/backend/file_extract/PDF_implementation.py:164 | inserting a span puts it before the spans of equal key and leaves the spans of every other key in order |
| PdfMerge.MergeSpansOnLine | src/backend/file_extract/PDF_implementation.py:161-189 | the method's result is the fold `MergeLines` over the sorted spans |
| PdfMerge.MergeLines | src/backend/file_extract/PDF_implementation.py:166-187 | no spans give no lines; otherwise there is at least one line and no more lines than spans |
| PdfMerge.MergeExtend | src/backend/file_extract/PDF_implementation.py:169-184 | a further span joins the last line, separated by a space, when its top is within the threshold of that line's top, and opens a new line otherwise |
| PdfMerge.MergeKeepsText | src/backend/file_extract/PDF_implementation.py:169-187 | joining the merged lines' texts with spaces gives exactly the spans' texts joined with spaces: merging loses and reorders no text |
| PdfMerge.MergeLineTops | src/backend/file_extract/PDF_implementation.py:176-184 | successive lines' tops are at least the threshold apart, and each line's top is the top of one of the spans |
| PdfMerge.MergeOnePage | src/backend/file_extract/PDF_implementation.py:170-183 | when all spans lie on one page, so do all merged lines |
| PdfMerge.MergeTopsAscend | src/backend/file_extract/PDF_implementation.py:164-184 | on spans sorted by position, each line's top is at least the threshold above the previous line's |
| PdfStatements.RemoveDuplicates | src/backend/file_extract/PDF_implementation.py:191-202 | the loop's result is `Dedup` of the highlights |
| PdfStatements.Dedup | src/backend/file_extract/PDF_implementation.py:191-202 | the highlights kept are never more than those given; its partner lemmas below state which are kept |
| PdfStatements.DedupAtFirstOccurrences | src/backend/file_extract/PDF_implementation.py:191-202 | the result consists of the highlights at the first occurrences of their (page, text) keys, in input order |
| PdfStatements.DedupKeys | src/backend/file_extract/PDF_implementation.py:191-202 | the set of (page, text) keys is unchanged |
| PdfStatements.DedupDistinct | src/backend/file_extract/PDF_implementation.py:191-202 | no two highlights of the result share a key |
| PdfStatements.DedupOfDistinct | src/backend/file_extract/PDF_implementation.py:191-202 | highlights with distinct keys come back unchanged |
| PdfStatements.DedupIdempotent | src/backend/file_extract/PDF_implementation.py:191-202 | removing duplicates twice is the same as once |
| PdfStatements.StatementShape | src/backend/file_extract/PDF_implementation.py:253 | every statement is a non-empty, stripped, period-free text followed by one period |
| PdfStatements.StatementsFollowText | src/backend/file_extract/PDF_implementation.py:253 | the text is its pieces joined by periods; the statements are the non-blank pieces, stripped and with a period added, one each and in order |
| PdfStatements.CleanAndSplit | src/backend/file_extract/PDF_implementation.py:243-255 | every statement produced from the joined, cleaned highlights is a non-empty, stripped, period-free text followed by one period |
| PdfExtract.YellowRectsFound | src/backend/file_extract/PDF_implementation.py:126-134 | the rectangles `_find_yellow_rectangles` reports are the page model's yellow rectangles |
| PdfExtract.PageLinesOnPage | src/backend/file_extract/PDF_implementation.py:60-72 | all merged lines of a page carry that page's 1-based number |
| PdfExtract.AllLinesInPageOrder | src/backend/file_extract/PDF_implementation.py:54-72 | the highlights collected over the pages stay in page order, each within the document's pages |
| PdfExtract.Statements | src/backend/file_extract/PDF_implementation.py:36-80 | every statement the pipeline yields has the shape of a statement |
| PdfExtract.ExtractHighlightedStatements | src/backend/file_extract/PDF_implementation.py:36-80 | the statements are those cut from the merged highlights of every page, in page order, with duplicates removed and the statistics cleanup applied |
| LabelMatch.Normalize | src/backend/sav/spss_match_processor.py:26-39 | a normalised text has only plain spaces, no double space, no space beside a hyphen and no outer whitespace |
| LabelMatch.NormalizeFixesNormal | src/backend/sav/spss_match_processor.py:26-39 | a text already in that form is left unchanged |
| LabelMatch.NormalizeIdempotent | src/backend/sav/spss_match_processor.py:26-39 | normalising twice is the same as once |
| LabelMatch.NormalizeKeepsNonSpace | src/backend/sav/spss_match_processor.py:26-39 | normalisation keeps the non-whitespace characters and their order |
| LabelMatch.NormalizeAllSpace | src/backend/sav/spss_match_processor.py:26-39 | a text of whitespace only normalises to the empty string |
| LabelMatch.CollapsePlain | src/backend/sav/spss_match_processor.py:36 | collapsing whitespace runs leaves only plain spaces |
| LabelMatch.CollapseNoDouble | src/backend/sav/spss_match_processor.py:36 | collapsing whitespace runs leaves no two spaces in a row |
| LabelMatch.DropAfterNoAfter | src/backend/sav/spss_match_processor.py:37 | after the substitution no hyphen is followed by whitespace |
| LabelMatch.DropBeforeNoBefore | src/backend/sav/spss_match_processor.py:38 | after the substitution no hyphen is preceded by whitespace |
| LabelMatch.BuildLabelMapping | src/backend/sav/spss_match_processor.py:14-24 | the loop's mapping is `BuildMapping` of the label rows |
| LabelMatch.BuildMapping | src/backend/sav/spss_match_processor.py:14-24 | the mapping built is well formed: its key list has no repeats and names exactly its keys |
| LabelMatch.MappingKeys | src/backend/sav/spss_match_processor.py:14-24 | the mapping's keys are exactly the labels that occur in the rows |
| LabelMatch.MappingLastWins | src/backend/sav/spss_match_processor.py:14-24 | a label maps to the column of its last row |
| LabelMatch.MappingOrder | src/backend/sav/spss_match_processor.py:14-24 | the keys are in the order of each label's first row |
| LabelMatch.FindColumn | src/backend/sav/spss_match_processor.py:41-61 | a question that is a label verbatim gets that label's column; any column found is the column of some label |
| LabelMatch.FindColumnSubstring | src/backend/sav/spss_match_processor.py:56-61 | otherwise the result is none exactly when no normalised label contains the normalised question, and else the column of the first label in key order that does |
| LabelMatch.BlankQuestionMatchesFirst | src/backend/sav/spss_match_processor.py:56-61 | a whitespace-only question that is not itself a label matches the first label's column |
| LabelMatch.LookupColumn | src/backend/sav/spss_match_processor.py:41-61 | the method's result is `FindColumn` of the mapping and the question |
| LabelMatch.ScanKeys | src/backend/sav/spss_match_processor.py:56-61 | the scan stops at the first key whose normalised form contains the question |
| SpssProcessor.PartitionCounts | src/backend/sav/spss_match_processor.py:81-94 | matched plus unmatched account for every question once |
| SpssProcessor.PartitionFrom | src/backend/sav/spss_match_processor.py:81-94 | every matched entry is a question of that party with a truthy column, and every unmatched entry one without |
| SpssProcessor.PartitionCovers | src/backend/sav/spss_match_processor.py:81-94 | each question with a truthy column is matched and each other question is unmatched |
| SpssProcessor.PartitionOrder | src/backend/sav/spss_match_processor.py:81-94 | matched and unmatched keep the questions' input order |
| SpssProcessor.MatchProcessor.constructor | src/backend/sav/spss_base_abstract.py:21-35 | the processor keeps the labels and party names; its mapping is the label mapping and nothing is tracked yet |
| SpssProcessor.MatchProcessor.ResetTracking | src/backend/sav/spss_base_abstract.py:111-114 | matched and unmatched become empty and nothing else changes |
| SpssProcessor.MatchProcessor.GetMatchedQuestions | src/backend/sav/spss_base_abstract.py:81-88 | returns the matched list |
| SpssProcessor.MatchProcessor.GetUnmatchedQuestions | src/backend/sav/spss_base_abstract.py:90-97 | returns the unmatched list |
| SpssProcessor.MatchProcessor.GetResult | src/backend/sav/spss_base_abstract.py:99-109 | the result holds the current matched and unmatched lists |
| SpssProcessor.MatchProcessor.FindColumn | src/backend/sav/spss_match_processor.py:41-61 | the column is the one the label lookup gives for the question |
| SpssProcessor.MatchProcessor.Track | src/backend/sav/spss_match_processor.py:81-94 | one party's questions are appended, in order, to matched or unmatched according to their column |
| SpssProcessor.MatchProcessor.FindAllMatches | src/backend/sav/spss_match_processor.py:63-96 | after a reset, the first party's questions and then the second's are sorted into matched and unmatched, and the result returns both lists |
| SpssSyntax.TargetsAndLabels | src/backend/sav/spss_syntax.py:106-114 | the handler recodes into `Cr.`, while the generator's target is `C.r` and not the `Cr` its labels name |
| SpssSyntax.BlockSplit | src/backend/sav/spss_syntax.py:106-114 | a block cut at newlines gives back its lines, the recode, the variable label, the value labels and `execute.`, then an empty line |
| SpssSyntax.Block | src/backend/sav/spss_syntax.py:106-114 | the text of one block: the recode line, the two label lines and `execute.`, each ended by a line break; `BlockSplit` states its lines |
| SpssSyntax.FieldText | src/backend/sav/spss_syntax.py:107-109 | Python's `str` of a field value in the f-string: strings as they are, integers in decimal, whole floats with `.0`, `None`, `True`, `False`, lists and dicts |
| SpssSyntax.WholeRealText | src/backend/sav/spss_syntax.py:107-109 | a whole float such as 50.0 is written with `.0`, as Python writes it |
| SpssSyntax.NoneBoundsLine | src/backend/sav/spss_syntax.py:107-110 | a configuration whose four bounds are `None` is written `(None thru None=b1) (None thru None=b2)` |
| SpssSyntax.PlaceholderLine | src/frontend/Components/recode_prepping.py:75-104 | the party placeholder of the older initialiser has all six fields and is written with `None` bounds |
| SpssSyntax.ContinuousConfigLacksRanges | src/frontend/Components/user_recoding/recode_prepping.py:134-150 | a configuration built for a truthy column without value labels has no `range1_start`, so its block raises |
| SpssSyntax.OtherConfigsHaveRanges | src/frontend/Components/user_recoding/recode_prepping.py:152-184 | every other configuration built has all six fields the block reads |
| SpssSyntax.ProcessCounts | src/backend/sav/spss_syntax.py:79-87 | one matched entry per block, in block order; without a `KeyError` matched plus unmatched cover every question once |
| SpssSyntax.ProcessKeyError | src/backend/sav/spss_syntax.py:79-87 | processing raises exactly when some recoded question's settings lack a range field, and then stops at the first such question after every earlier one has been tracked |
| SpssSyntax.ProcessStopped | src/backend/sav/spss_syntax.py:79-87 | once a question has raised, the later questions change nothing |
| SpssSyntax.ProcessRecodedFrom | src/backend/sav/spss_syntax.py:79-84 | each block is for a question with a truthy column and settings, and uses that question's own column |
| SpssSyntax.ProcessCovers | src/backend/sav/spss_syntax.py:81-87 | without a `KeyError`, a question is matched when its column is truthy and it has settings, and unmatched otherwise |
| SpssSyntax.UnmatchedNotRecoded | src/backend/sav/spss_syntax.py:86-87 | every unmatched entry is a question of that party that was not recoded |
| SpssSyntax.ContinuousStatementRaises | src/backend/sav/spss_syntax.py:82-83 | a party statement with a truthy column whose settings are the continuous configuration makes processing raise a `KeyError` |
| SpssSyntax.SyntaxGenerator.constructor | src/backend/sav/spss_syntax.py:21-31 | a fresh processor over the labels and party names, "Plaintiff" and "Defense" unless given, with nothing tracked and an empty script |
| SpssSyntax.SyntaxGenerator.ProcessQuestion | src/backend/sav/spss_syntax.py:80-114 | a question with a truthy column and settings holding the six range fields appends its block and a matched entry; one whose settings lack a field raises a `KeyError` and changes nothing; any other appends an unmatched entry |
| SpssSyntax.SyntaxGenerator.ProcessQuestions | src/backend/sav/spss_syntax.py:65-87 | the script grows by the blocks of the recoded questions and the lists by `Process` of the questions, which stops at the first `KeyError` |
| SpssSyntax.SyntaxGenerator.GenerateRecodeScript | src/backend/sav/spss_syntax.py:33-63 | after a reset of tracking and script, the first party's and then the second's questions are processed under the two party names; the result is `None` (the escaping `KeyError`) when either raises, and otherwise holds the script of both parties' blocks in matched order and both lists, so it depends only on the arguments and the label table |
| SpssSyntax.SyntaxGenerator.GetScript | src/backend/sav/spss_syntax.py:116-118 | returns the script |
| SavHandlers.SavHandler.constructor | src/backend/sav/sav_handler.py:8-21 | the handler keeps the label rows, builds its mapping, and starts with an empty script and lists |
| SavHandlers.SavHandler.FindColumn | src/backend/sav/sav_handler.py:37-57 | the same lookup as the match processor |
| SavHandlers.SavHandler.ProcessQuestion | src/backend/sav/sav_handler.py:76-108 | a question with a truthy column and settings holding the six range fields appends its block in the handler's template and a matched entry; settings lacking a field raise a `KeyError` and change nothing; any other question appends an unmatched entry |
| SavHandlers.SavHandler.ProcessQuestions | src/backend/sav/sav_handler.py:86-108 | the script grows by the recoded questions' blocks and the lists by `Process`, which stops at the first `KeyError` |
| SavHandlers.SavHandler.GenerateRecodeScript | src/backend/sav/sav_handler.py:110-141 | after a reset, the plaintiff and then the defense questions are processed, tagged 'Plaintiff' and 'Defense'; the result is `None` when either raises a `KeyError`, and otherwise holds their blocks in the handler's template, in matched order, so it depends only on the arguments and the label table |
| SavHandlers.SavHandler.GetMatchedQuestions | src/backend/sav/sav_handler.py:143-145 | returns the matched list |
| SavHandlers.SavHandler.GetUnmatchedQuestions | src/backend/sav/sav_handler.py:147-149 | returns the unmatched list |
| SavHandlers.SavHandler.GetScript | src/backend/sav/sav_handler.py:151-153 | returns the script |
| RecodeValues.GetValueRange | src/frontend/Components/recode_prepping.py:42-58 | codes exist exactly for a column with value labels, and are then that column's codes in ascending order |
| RecodeValues.WithMatch | src/frontend/Components/user_recoding/recode_prepping.py:195-200 | a match sets the column and the four bounds from the first four codes and leaves every other field as it was |
| RecodeValues.UpdateRecodeWithMatch | src/frontend/Components/user_recoding/recode_prepping.py:189-200 | only a statement with settings and a column of at least four codes changes, and only its entry; key order is kept |
| RecodeValues.Get | src/frontend/Components/user_recoding/filter_neutralstatements.py:27-31 | `dict.get`: the stored value when the key is there, `None` otherwise |
| UserRecodePrepping.ConfigKind | src/frontend/Components/user_recoding/recode_prepping.py:124-186 | continuous exactly for a truthy column without codes; categorical for four or more codes, or two or three with the label included; unknown otherwise |
| UserRecodePrepping.CreateRecodeConfig | src/frontend/Components/user_recoding/recode_prepping.py:124-186 | every configuration holds the party, the matched column, the favourable `becomes` for range 1, the unfavourable one for range 2, and a type that is continuous, categorical or unknown |
| UserRecodePrepping.ConfigLabelFields | src/frontend/Components/user_recoding/recode_prepping.py:136-174 | the column and label fields are there exactly when the label is included, and the original codes exactly for a labelled categorical configuration |
| UserRecodePrepping.ConfigRanges | src/frontend/Components/user_recoding/recode_prepping.py:142-184 | continuous splits at 50 with `<=` and `>`; four codes give ranges 0..1 and 2..3; two or three give 0..0 and 1..1; unknown has no bounds |
| UserRecodePrepping.InitializePartyRecodes | src/frontend/Components/user_recoding/recode_prepping.py:65-100 | each listed statement without settings gets its party configuration, in order; nothing is overwritten |
| UserRecodePrepping.InitializePlaintiffRecodes | src/frontend/Components/user_recoding/recode_prepping.py:65-81 | the plaintiff statements are set up as party `name1`, favourable 1 and unfavourable 2 |
| UserRecodePrepping.InitializeDefenseRecodes | src/frontend/Components/user_recoding/recode_prepping.py:84-100 | the defense statements are set up as party `name2`, favourable 2 and unfavourable 1 |
| UserRecodePrepping.PartyRecodesKeep | src/frontend/Components/user_recoding/recode_prepping.py:72-81 | existing settings are kept and keep their positions; the keys afterwards are the old ones and the statements |
| UserRecodePrepping.PartyRecodesNew | src/frontend/Components/user_recoding/recode_prepping.py:72-81 | a new statement gets the configuration built from its own matched column |
| UserRecodePrepping.StatementConfigFields | src/frontend/Components/user_recoding/recode_prepping.py:74-81 | a party statement's configuration names the party, the column `_find_column` gives and the party's `becomes`, with no column or label field |
| UserRecodePrepping.BothPartiesKeepPlaintiff | src/frontend/Components/user_recoding/recode_prepping.py:52-62 | a statement listed for both parties keeps its plaintiff configuration |
| UserRecodePrepping.InitializeNeutralRecodes | src/frontend/Components/user_recoding/recode_prepping.py:103-121 | every general question's label entry of `all_questions` is written with its neutral configuration, in order |
| UserRecodePrepping.NeutralRecodesLastWins | src/frontend/Components/user_recoding/recode_prepping.py:115-121 | a label ends with the configuration of its last general question |
| UserRecodePrepping.NeutralRecodesOthers | src/frontend/Components/user_recoding/recode_prepping.py:115-121 | entries for other labels are untouched |
| UserRecodePrepping.InitializeRecodeSettings | src/frontend/Components/user_recoding/recode_prepping.py:52-62 | the plaintiff then the defense initialiser on the settings, and the neutral one on `all_questions` |
| RecodeDefaults.InitializePartyDefaults | src/frontend/Components/recode_prepping.py:75-104 | each listed statement without settings gets the party placeholder, in order |
| RecodeDefaults.InitializeNeutralDefaults | src/frontend/Components/recode_prepping.py:107-121 | each general question with at least four codes and no settings gets a neutral configuration from its first four codes |
| RecodeDefaults.InitializeRecodeSettings | src/frontend/Components/recode_prepping.py:61-121 | plaintiff, defense, then neutral defaults, each inserted only where absent |
| RecodeDefaults.InitializedKeeps | src/frontend/Components/recode_prepping.py:61-121 | existing settings are untouched and keep their positions |
| RecodeDefaults.InitializedName1 | src/frontend/Components/recode_prepping.py:75-89 | a new plaintiff statement gets party `name1`, no column, no bounds, favourable 1 and unfavourable 2 |
| RecodeDefaults.InitializedName2 | src/frontend/Components/recode_prepping.py:92-104 | a new defense statement that is not a plaintiff statement gets party `name2`, favourable 2 and unfavourable 1 |
| RecodeDefaults.InitializedNeutralOnlyWithCodes | src/frontend/Components/recode_prepping.py:107-121 | any other new entry is a general question whose column has at least four codes |
| RecodeDefaults.InitializedNeutralAdded | src/frontend/Components/recode_prepping.py:107-121 | every general question with at least four codes has settings afterwards |
| RecodeDefaults.NeutralDefaultFields | src/frontend/Components/recode_prepping.py:112-121 | the neutral configuration names party neutral and its column; its bounds follow the ascending codes; it recodes to 1 and 2 |
| PdfDefaults.InsertDefaults | src/frontend/Components/pdf_extractor.py:73-96 | each highlighted statement without settings gets the fixed ranges, in order |
| PdfDefaults.InitializeRecodeSettings | src/frontend/Components/pdf_extractor.py:70-96 | plaintiff defaults then defense defaults, each only where absent |
| PdfDefaults.DefaultedKeeps | src/frontend/Components/pdf_extractor.py:70-96 | existing settings are kept and keep their positions; the keys afterwards are the old ones and the highlighted statements |
| PdfDefaults.DefaultedName1 | src/frontend/Components/pdf_extractor.py:73-83 | a new plaintiff statement gets 1 thru 2 into 1 and 3 thru 4 into 2, even when it is also a defense statement |
| PdfDefaults.DefaultedName2 | src/frontend/Components/pdf_extractor.py:86-96 | a new statement for the defense only gets 1 thru 2 into 2 and 3 thru 4 into 1 |
| PdfDefaults.NothingHighlighted | src/frontend/Components/pdf_extractor.py:73-96 | without highlights nothing changes |
| NeutralRecode.FilterQuestions | src/frontend/Components/user_recoding/neutral_statement_recode.py:66-75 | the loop keeps the questions whose lowercased column or label contains the lowercased query |
| NeutralRecode.FilteredExactly | src/frontend/Components/user_recoding/neutral_statement_recode.py:66-75 | the result is every matching question, at its own position and in input order |
| NeutralRecode.FilteredMembers | src/frontend/Components/user_recoding/neutral_statement_recode.py:66-75 | a pair is in the result exactly when it is a question that matches |
| NeutralRecode.LabelOnlyForNames | src/frontend/Components/user_recoding/neutral_statement_recode.py:78-92 | the label is searched only for the party names, never for the column patterns |
| NeutralRecode.IsPartyQuestion | src/frontend/Components/user_recoding/neutral_statement_recode.py:78-92 | a question is a party question when its column or label holds a party name, or its column a party pattern, ignoring case; an empty party name makes every question one |
| NeutralRecode.PlaintiffLabelNotParty | src/frontend/Components/user_recoding/neutral_statement_recode.py:78-92 | a label saying "Plaintiff" on a column with no pattern or name is not a party question |
| NeutralRecode.AddNeutralQuestion | src/frontend/Components/user_recoding/neutral_statement_recode.py:95-145 | the chosen configuration is stored under the label; the dict stays well formed |
| NeutralRecode.NeutralQuestion | src/frontend/Components/user_recoding/neutral_statement_recode.py:104-145 | no configuration exactly when the column has value labels with fewer than two codes; otherwise one that names the column and label, is selected, and carries the original codes exactly when there are value labels |
| NeutralRecode.AddNeutralOthers | src/frontend/Components/user_recoding/neutral_statement_recode.py:95-145 | only the label's entry can change, and no key moves |
| NeutralRecode.AddNeutralContinuous | src/frontend/Components/user_recoding/neutral_statement_recode.py:107-119 | a column without value labels is added as continuous and selected: at most 50 into 1, above 50 into 2 |
| NeutralRecode.AddNeutralBinary | src/frontend/Components/user_recoding/neutral_statement_recode.py:120-131 | two codes give a binary question whose map sends the lower code to 1 and the higher to 2 |
| NeutralRecode.AddNeutralCategorical | src/frontend/Components/user_recoding/neutral_statement_recode.py:132-145 | three or more codes give a categorical question recoding the lowest code to 1 and the second lowest to 2 |
| NeutralRecode.AddNeutralNothing | src/frontend/Components/user_recoding/neutral_statement_recode.py:95-145 | a column with value labels but fewer than two codes adds nothing |
| RecodeValues.GetOr | src/frontend/Components/user_recoding/neutral_question_helpers.py:23-60 | `dict.get` with a default: the stored value when present, the default otherwise |
| NeutralHelpers.PrepareNeutralQuestionsForSyntax | src/frontend/Components/user_recoding/neutral_question_helpers.py:5-62 | the loop inserts, for each selected label without settings, the settings built from its data, in selection order; no selection changes nothing |
| NeutralHelpers.PrepareEntry | src/frontend/Components/user_recoding/neutral_question_helpers.py:23-60 | the settings built field by field in the loop body are `Prepared` of the question's data |
| NeutralHelpers.PreparedKeeps | src/frontend/Components/user_recoding/neutral_question_helpers.py:19-21 | existing settings are untouched; the keys afterwards are the old ones and the selected labels |
| NeutralHelpers.PreparedAdded | src/frontend/Components/user_recoding/neutral_question_helpers.py:19-62 | a selected label without settings gets the settings built from its data |
| NeutralHelpers.Prepared | src/frontend/Components/user_recoding/neutral_question_helpers.py:23-60 | the settings name party neutral, the data's column (`None` without one) and its type, categorical by default |
| NeutralHelpers.PreparedContinuous | src/frontend/Components/user_recoding/neutral_question_helpers.py:30-38 | a continuous question added by hand arrives with its operators, 50 and becomes 1 and 2 |
| NeutralHelpers.PreparedBinary | src/frontend/Components/user_recoding/neutral_question_helpers.py:39-51 | a binary question becomes two single-code ranges recoded with its binary map: 1 and 2 |
| NeutralHelpers.PreparedCategorical | src/frontend/Components/user_recoding/neutral_question_helpers.py:52-60 | a categorical question arrives with its ranges unchanged |
| NeutralHelpers.PreparedDefaults | src/frontend/Components/user_recoding/neutral_question_helpers.py:52-60 | data with only a column is categorical with 1 thru 1 into 1 and 2 thru 2 into 2 |
| NeutralHelpers.PreparedBinaryTooFew | src/frontend/Components/user_recoding/neutral_question_helpers.py:39-51 | a binary question with fewer than two codes gets only party, column and type |
| NeutralHelpers.GetNeutralQuestionsForSyntax | src/frontend/Components/user_recoding/neutral_question_helpers.py:65-75 | no selection gives no labels; otherwise the selected labels in selection order, and so exactly the selected ones |
| NeutralHelpers.CountMatchesLabels | src/frontend/Components/user_recoding/neutral_question_helpers.py:78-82 | the count of selected questions is the number of labels the getter returns |
| NeutralHelpers.CountSelectedNeutral | src/frontend/Components/user_recoding/neutral_question_helpers.py:78-82 | no selection counts none; otherwise the number of selected questions |
| FilterNeutral.SliceFrom | src/frontend/Components/user_recoding/filter_neutralstatements.py:18-21 | Python's `keys[n:]`: from the n-th key, from the end when n is negative, clamped at both ends |
| FilterNeutral.AllEqual | src/frontend/Components/user_recoding/filter_neutralstatements.py:37-44 | with every key present, the chain holds exactly when every field has its value |
| FilterNeutral.AllEqualPresent | src/frontend/Components/user_recoding/filter_neutralstatements.py:37-44 | a chain that reaches a verdict is true exactly when every key is there with its value |
| FilterNeutral.CheckStatement | src/frontend/Components/user_recoding/filter_neutralstatements.py:24-45 | one statement counts as changed exactly when the verdict says so |
| FilterNeutral.Verdict | src/frontend/Components/user_recoding/filter_neutralstatements.py:24-45 | the verdict on one statement: skipped, changed, or the `KeyError` of a missing field; `VerdictChanged` states when it is changed |
| FilterNeutral.FilterUnchangedNeutralStatements | src/frontend/Components/user_recoding/filter_neutralstatements.py:4-48 | the loop collects, in key order, the examined statements that count as changed |
| FilterNeutral.VerdictChanged | src/frontend/Components/user_recoding/filter_neutralstatements.py:24-45 | changed means neutral, a non-empty column with at least two codes, and ranges other than the initial single-code ones |
| FilterNeutral.ChangedExactly | src/frontend/Components/user_recoding/filter_neutralstatements.py:4-48 | a statement is reported exactly when it is examined and changed |
| FilterNeutral.ChangedInOrder | src/frontend/Components/user_recoding/filter_neutralstatements.py:23-48 | the result follows key order and names each statement once |
| FilterNeutral.InitialRangesUnchanged | src/frontend/Components/user_recoding/filter_neutralstatements.py:37-44 | a neutral question left at its initial ranges is not reported |
| FilterNeutral.ChangedBecomesCounts | src/frontend/Components/user_recoding/filter_neutralstatements.py:37-44 | changing one `becomes` makes it reported |
| Leaning.CleanNoStarOrPeriod | leaning.py:34-35 | the cleaned text holds no `*` and no `.` |
| Leaning.CleanText | leaning.py:34-35 | cleaning never lengthens a text |
| Leaning.CleanPlain | leaning.py:34-35 | text without `(`, `*` or `.` is left as it is |
| Leaning.CleanSplit | leaning.py:34-35 | cleaning distributes over a cut just before a `(` |
| Leaning.CleanRemovesCid | leaning.py:34-35 | a `(cid:N)` code anywhere is removed and the text around it is cleaned on its own |
| Leaning.ParseIntToString | leaning.py:26 | `int` reads back every integer's decimal form |
| Leaning.ParseInt | leaning.py:26 | `int()` of a blank text raises |
| Leaning.ParseRow | leaning.py:18-33 | a missing row, and only a missing row, gives `None`; every cell is read as a juror or raises |
| Leaning.NoStarLine | leaning.py:21-23 | no line of a cleaned row is `*` |
| Leaning.FieldPresent | leaning.py:25-31 | `line.split(': ')[1]` exists exactly when the line contains `": "` |
| Leaning.ReadJurorFields | leaning.py:23-33 | a juror is read exactly when there are nine lines, the field lines hold `": "` and the age is an integer; its fields are the name line, the values after `": "` and the occupation line |
| Leaning.ParseRowLines | leaning.py:21-24 | the second cleaned line of a cell is never `*`, so the fields are read from line 1 on |

## Left out

- PDF and DOCX I/O are outside the model. That covers opening files, `page.get_text`, `get_drawings`, `insert_pdf` and writing; pages, drawings and text dictionaries are inputs.
- `docx_to_pdf` (COM automation of Word) is not modelled.
- Floating-point coordinates are Dafny reals. `Rect.intersects` is modelled as two non-empty boxes whose interiors overlap.
- The statistics regexes of `_clean_and_split_statements` are the `cleanup` parameter. The later steps are modelled: joining, splitting at periods and stripping.
- `print` calls and logging are left out: they change no state.
- `str.lower`, `str.isspace`, `str.isdigit`, `\s` and `\d` are modelled for ASCII only. Unicode case mapping and digits are not.
- Streamlit is left out: widgets, `st.session_state` and reruns. Session state is passed and returned as values, so aliasing between session entries is not modelled.
- `_render_recode_prepping` (user_recoding/recode_prepping.py:7-39 and recode_prepping.py:6-39) and `_extract_arguments` (pdf_extractor.py:35-67) are left out. They orchestrate file reads, page searches, page splits and messages around members the model does have: `FindPagesWithText`, `SelectPages`, `ExtractHighlightedStatements` and the `InitializeRecodeSettings` variants.
- `_generate_continuous_preview` (neutral_statement_recode.py:362-384) is left out. It builds the preview text a widget shows and feeds nothing back into the settings or the script.
- The `y_threshold` parameter of `_merge_spans_on_line` (PDF_implementation.py:161) is the constant `PdfMerge.YThreshold`, fixed at the default 2. The only call (PDF_implementation.py:70) passes no other value.
- The source as written cannot run these paths, and the model assumes the evidently intended code:
  - `SPSSProcessor` declares the abstract method `get_all_general_question` (spss_base_abstract.py:77-80), and no subclass implements it. Constructing `SPSSMatchProcessor` or `SPSSSyntaxGenerator` therefore raises `TypeError`. The model's classes `SpssProcessor.MatchProcessor` and `SpssSyntax.SyntaxGenerator` are concrete.
  - The initialisers call the plural `get_all_general_questions()` (user_recoding/recode_prepping.py:105, recode_prepping.py:72), which is defined nowhere and would raise `AttributeError`. Its result is the `general` parameter of the neutral initialisers.
  - spss_match_processor.py:3 imports `.Spss_base_abstract`, while the file is `spss_base_abstract.py`. On a case-sensitive file system that import fails. The model takes the base class as present.
- PdfMerge.MergeSpansOnLine: Python's `list.sort` sorts the caller's list in place. The model returns the sorted copy and does not capture that the caller sees it.
- A `KeyError` raised part-way through `prepare_neutral_questions_for_syntax` or `filter_unchanged_neutral_statements` is not modelled. Such inputs are excluded by the preconditions `ColumnsPresent` (neutral_question_helpers.py:23) and `Examinable` (filter_neutralstatements.py:37-44). The `KeyError` of the script generators is modelled.
- SpssSyntax.FieldText: a float is written as Python writes a whole float below 10^16, as its integer part followed by `.0`. Other floats (fractions, exponent form) are not written as Python would. Codes are integers in the model, so the float codes `pyreadstat` may give are not modelled.
- SpssSyntax.FieldText: a dict of codes is written in ascending key order. Python writes it in insertion order, which is ascending for the binary maps the model builds.
- NeutralHelpers.PrepareNeutralQuestionsForSyntax: a non-list `original_values` is read as empty.
- Python's `1 == 1.0` is not modelled. `VInt(50)` and `VReal(50.0)` are different values.
- FilterNeutral.CheckStatement: only a non-empty string counts as a truthy column. Other truthy values are not keys of the value labels, so they lead to no codes either way.
- Leaning: `int()` is modelled on an optional sign and ASCII digits with underscores between digit groups. Surrounding whitespace is stripped; other Unicode digits are not accepted.
- An `IndexError` in `parse_row` is the `Raises` result.
- `leaning.extract` (pdfplumber tables and the CSV loop) is left out: it is I/O.
- The abstract base classes (`sav_abstract.py`, `PDF_abstract.py`) are left out: they declare only signatures, and the concrete classes are modelled.
