# Document categorization core, modelled in Dafny

SparkMLDocCategorization runs in three steps.

1. It parses markdown documents into records: the file name, up to six headings and the document's words.
2. A Spark job counts the words of each document and writes one training row per document.
3. An ML.NET job clusters the documents with k-means, choosing the cluster count with the smallest average distance. It then names each cluster after the words and title phrases seen most often in its documents.

This project models the deterministic core of those steps:

- the markdown walk and the choice of headings;
- the heading slots of a parse record, and the comma-separated rows written for the Spark job and for training;
- the text helpers: stripping characters outside `[\w @-]`, normalising whitespace, and the null checks;
- the word matrix: its counting setter, its title-phrase parsing and its high-to-low ranking;
- the category matrix and the category title it derives;
- the categorization loop and the category summary;
- the reading-time text and the training-row loop of the Spark step;
- the count-based progress reporter.

Objects whose fields the source updates in place are Dafny classes: `WordMatrix`, `CategoryMatrix`, `FileDataParse`, `ProgressHelper` and the markdown walker. Each method is specified by a function on the abstract state, and the properties are proved about those functions.

A word matrix's dictionary is modelled as a `Tally`: its keys in insertion order, which is the order a `Dictionary` with no removals enumerates them, together with the map of counts.

Notes on following the code:

- The comment on `GetCategoryTitle` speaks of the top 5 words. The code takes 10, and so does the model.
- `Weight` computes `length ^ 2 * count`. In C# that is `length` XOR `2 * count`, not a square, and it is modelled as written. `WeightOfWord` and `WeightOfPhraseOfTwo` give the values: a word seen `c` times weighs `2c + 1`, and a two-word phrase weighs `2c + 2` when `c` is even and `2c - 2` when `c` is odd. `WeightPrefersWords` shows the consequence: at equal counts a single word outranks a two-word phrase exactly when the count is odd, although the comment says phrases should weigh more.
- C# `string.Length` counts UTF-16 code units. The length rules (a heading of five, a Spark word of four, the ordering of title words and headings by length) use `Utf16Length`, which counts two for a character above U+FFFF.
- `new ProgressHelper(totalInputs, Console.Write)` (`DocMLCategorization/Program.cs:143`) throws when there are fewer than nine model inputs (`StopsSucceedIff`, `FirstRepeatedStop`). A categorization run over fewer than nine documents therefore ends before any row is labelled or any summary is written. `Categorize` models the loop that follows a successful construction.
- The duplicate-key message is the one of .NET Core's `Dictionary.Add`, which the program targets (it uses `Split(string)` and `[^1]`): "An item with the same key has already been added. Key: " followed by the key.
- In `Parse`, the de-duplication keeps, for each heading text, only the candidates at the greatest level that text has. The model follows that code.

## Model

| member | source | states |
|---|---|---|
| Text.TrimShape | Common/Extensions.cs:94 | `Trim` leaves no whitespace at either end, and is empty exactly when its input is blank |
| Text.TrimNoOp | Common/Extensions.cs:94 | a string with no whitespace at either end is its own trim |
| Text.Utf16Length | Common/FileDataParse.cs:128 | `Length` counts between one and two code units per character |
| Text.Utf16LengthIsCount | Common/FileDataParse.cs:128 | `Length` equals the number of characters exactly when none is above U+FFFF |
| Text.NatToStringRoundTrip | Common/FileDataLabel.cs:108 | the decimal text of a count reads back as that count |
| Extensions.StripNonAlpha | Common/Extensions.cs:17 | every character left is a word character, a space, `@` or `-` |
| Extensions.StripNonAlphaKeeps | Common/Extensions.cs:17 | a string made only of kept characters is left unchanged |
| Extensions.StripNonAlphaIdempotent | Common/Extensions.cs:17 | stripping twice is stripping once, and stripping never lengthens |
| Extensions.ExtractWordsShape | Common/Extensions.cs:24-26 | blank input gives ""; other input gives a space followed by its kept characters in order, so never a double quote or a comma |
| Extensions.Featurized | Common/Extensions.cs:33-34 | the column name followed by the suffix `Featurized` |
| Extensions.FeaturizedColumnsAreNew | Common/Extensions.cs:33-34 | distinct columns get distinct featurised names; a featurised name equals a column only when that column is another's name with the suffix |
| Pipeline.FeatureColumnsAreNew | DocMLCategorization/Program.cs:73-88 | the seven featurised columns `Title` to `Top20Words` have distinct names, and none of them is a loaded column |
| Extensions.NormalizeWhiteSpace | Common/Extensions.cs:41-95 | the in-place collapse followed by `Trim` gives the normalised text, never longer than the input |
| Extensions.CollapseInPlace | Common/Extensions.cs:43-92 | the write index never passes the read index; the first `index` cells hold the input with each whitespace run cut to its first character |
| Extensions.CollapseShape | Common/Extensions.cs:49-92 | the collapsed text has no two adjacent whitespace characters |
| Extensions.CollapseKeeps | Common/Extensions.cs:49-92 | text with no whitespace run is left unchanged |
| Extensions.CollapseKeepsText | Common/Extensions.cs:49-92 | collapsing keeps every non-whitespace character, in order |
| Extensions.NormalizedWhiteSpaceShape | Common/Extensions.cs:41-95 | the result has no adjacent whitespace, none at either end, and the input's non-whitespace characters in order |
| Extensions.NormalizedAddsNothing | Common/Extensions.cs:41-95 | no non-whitespace character appears that was not in the input |
| Extensions.NormalizedWhiteSpaceIdempotent | Common/Extensions.cs:41-95 | normalising twice is normalising once |
| Extensions.CheckNotNull | Common/Extensions.cs:103-109 | an `ArgumentNullException` naming the argument exactly when the value is null |
| Extensions.ForEach | Common/Extensions.cs:117-125 | a null list throws first, then a null action; otherwise the action runs on every element, in order |
| Csv.Terminate | Common/FileDataParse.cs:170 | the line followed by CRLF |
| Csv.ReadJoinedFields | Common/FileDataParse.cs:163-170 | fields free of double quotes (and bare fields free of commas) read back from their comma-joined line |
| Csv.RowReadsBack | Common/FileDataParse.cs:170 | a row of such fields is a line that reads back as their texts, followed by CRLF |
| Csv.ReadQuotedRow | Common/FileDataLabel.cs:75-90 | quoted values free of double quotes read back, even when they contain commas |
| Csv.EmbeddedQuoteBreaksRow | Common/FileDataParse.cs:163 | a double quote inside a value is not escaped, and the row no longer reads |
| Csv.RowHasOneLineBreak | Common/FileDataParse.cs:170 | with no CR or LF in the columns, the closing CRLF is the row's only line break |
| Labels.QuoteUnlessQuoted | Common/FileDataLabel.cs:107 | the result starts with a double quote; a value already starting with one is kept, any other is quoted |
| Labels.QuoteUnlessQuotedIdempotent | Common/FileDataLabel.cs:107 | applying the quoting rule twice is applying it once |
| Labels.DataFollowsHeaders | Common/FileDataLabel.cs:75-112 | `Data` has the eleven columns of `Headers`, and each holds the field its header names |
| Labels.OnlyNumbersUnquoted | Common/FileDataLabel.cs:107-111 | exactly the word count and the predicted label are written without a leading quote |
| Labels.DecimalIsBare | Common/FileDataLabel.cs:108-111 | the decimal text of a number holds no comma and no double quote |
| Labels.DataRoundTrip | Common/FileDataLabel.cs:95-119 | with no double quote in its texts, the row reads back as the record's values |
| Labels.HalfQuotedBreaksRow | Common/FileDataLabel.cs:107 | a text opening with a double quote and never closing it is written as it is, and the row no longer reads |
| Labels.DataHasOneLineBreak | Common/FileDataLabel.cs:95-119 | with no CR or LF in its texts, a row has one line break, at its end |
| Parsing.DataFollowsHeaders | Common/FileDataParse.cs:176-228 | in both the Spark row and the training row, each column holds the field its header names |
| Parsing.OnlyWordCountBare | Common/FileDataParse.cs:214-228 | only the word count is written unquoted in the training row |
| Parsing.ModelHeaderMatchesLoadColumns | DocMLCategorization/FileData.cs:15-69 | the training header starts with the ten columns training loads, in `LoadColumn` order, followed by `Words` |
| Parsing.TempDataRoundTrip | Common/FileDataParse.cs:184-195 | with no double quote in its values, the Spark row reads back as the record's values |
| Parsing.ModelDataRoundTrip | Common/FileDataParse.cs:214-228 | with no double quote in its texts, the training row reads back as the record's values |
| Parsing.Cleaned | Common/FileDataParse.cs:127 | the cleaned heading holds no double quote and is no longer than the heading |
| Parsing.Place | Common/FileDataParse.cs:122-155 | the slot counter never decreases and never passes 6 |
| Parsing.AddHeadingTo | Common/FileDataParse.cs:120-156 | the slot counter never decreases and never passes 6 |
| Parsing.SetSlotOnlyThatSlot | Common/FileDataParse.cs:133-155 | the `switch` changes the slot chosen by the counter and no other field |
| Parsing.FillsInOrder | Common/FileDataParse.cs:117-156 | successive headings fill the free slots in order with the kept headings, cleaned, until six are full; nothing else changes |
| Parsing.AcceptedAreClean | Common/FileDataParse.cs:127-131 | every kept heading is at least five UTF-16 code units long and has no double quote |
| Parsing.SurrogatePairCountsTwice | Common/FileDataParse.cs:128 | a four-character heading with one character above U+FFFF has length 5 and is kept |
| Parsing.SlotsFillFromTheTop | Common/FileDataParse.cs:117-156 | starting from the default record, the first slots hold kept headings and the rest stay empty |
| Parsing.FullStaysFull | Common/FileDataParse.cs:122-125 | once six headings are in, no later heading changes anything |
| Parsing.FileDataParse.constructor | Common/FileDataParse.cs:10-77 | `default(FileDataParse)`: counter 0 and every field empty |
| Parsing.FileDataParse.AddHeading | Common/FileDataParse.cs:120-156 | the record and counter after the call are the step `AddHeadingTo` of the old ones, and the counter stays within 0..6 |
| Parsing.FileDataParse.SetSlotField | Common/FileDataParse.cs:133-155 | the slot chosen by the counter receives the heading, and the counter is unchanged |
| Markdown.FirstTextRunAt | Common/MarkdownParser.cs:80 | the position of the first text run among a header's inlines, or none when there is none |
| Markdown.Walker.constructor | Common/MarkdownParser.cs:50-51 | an empty word builder and an empty title list |
| Markdown.Walker.RecurseBlock | Common/MarkdownParser.cs:71-125 | appends the block's words and heading candidates, in document order |
| Markdown.Walker.RecurseBlocks | Common/MarkdownParser.cs:104 | appends the words and candidates of each block in turn |
| Markdown.Walker.RecurseItems | Common/MarkdownParser.cs:96-98 | appends the words and candidates of every list item's blocks in turn |
| Markdown.Walker.RecurseRows | Common/MarkdownParser.cs:107-108 | appends the words of every cell of every row; a table adds no candidate |
| Markdown.Walker.RecurseCells | Common/MarkdownParser.cs:107-108 | appends the words of every inline of every cell |
| Markdown.Walker.RecurseInline | Common/MarkdownParser.cs:135-179 | appends the inline's words, skips code spans, and adds no candidate |
| Markdown.Walker.RecurseInlines | Common/MarkdownParser.cs:86 | appends the words of each inline in turn |
| Markdown.Walk | Common/MarkdownParser.cs:50-52 | the document's words and heading candidates, from an empty builder and list |
| Markdown.HeadingLeTotalPreorder | Common/MarkdownParser.cs:58 | ordering by level, then by UTF-16 length with the longest first, is a total preorder |
| Markdown.SurvivorsAreDeepest | Common/MarkdownParser.cs:56 | every survivor of the de-duplication is a candidate at the greatest level of its text |
| Markdown.SurvivorsCoverTexts | Common/MarkdownParser.cs:56 | every candidate text survives, at a level at least that candidate's |
| Markdown.SurvivorsOnePerText | Common/MarkdownParser.cs:56 | two survivors with the same text are the same candidate |
| Markdown.DeepestKept | Common/MarkdownParser.cs:56 | of a text at levels 1, 2 and 2, only one copy at level 2 survives |
| Markdown.SelectionShape | Common/MarkdownParser.cs:56-59 | at most six headings are selected, one per text, each at its greatest level, sorted; a survivor left out ranks after every selected one; with six or fewer survivors, all are selected; survivors of equal level and length keep their order, which decides who takes the sixth slot |
| Markdown.InlineWordsClean | Common/MarkdownParser.cs:135-179 | the words an inline adds hold no double quote and no comma |
| Markdown.BlocksWordsClean | Common/MarkdownParser.cs:71-125 | the words of a document hold no double quote and no comma |
| Markdown.NormalizedStaysClean | Common/MarkdownParser.cs:53 | normalising whitespace keeps them free of both |
| Markdown.ParseOutcome | Common/MarkdownParser.cs:27-62 | a null file name throws; empty contents or a failed parse give the default record; otherwise the file name and normalised words are set, and the selected headings fill the slots in order |
| Markdown.ParsedRowReadsBack | Common/MarkdownParser.cs:49-59 | when the file name has no double quote, the parsed record's Spark row reads back field by field |
| Markdown.Parse | Common/MarkdownParser.cs:27-62 | the record returned is a fresh, valid record equal to `ParseResult`, or the same failure |
| Markdown.AddSelected | Common/MarkdownParser.cs:58-59 | the selected headings are handed to `AddHeading` in order |
| WordCounting.CleanWord | Common/WordMatrix.cs:39 | the key holds no double quote, and a word without one is its own key |
| WordCounting.TouchValid | Common/WordMatrix.cs:37-51 | the setter keeps keys unique, listed in insertion order, non-blank, quote-free and with counts of at least 1; old keys keep their place and at most one is appended |
| WordCounting.TouchCount | Common/WordMatrix.cs:37-51 | the setter adds 1 to the count of its cleaned, non-blank key and changes no other count, whatever value is assigned |
| WordCounting.TouchAllCount | Common/WordMatrix.cs:37-51 | after a run of sets, each non-blank key's count has grown by its number of occurrences, and blank keys stay at 0 |
| WordCounting.TouchAllValid | Common/WordMatrix.cs:37-51 | a run of sets keeps the dictionary valid and the old keys first, in their order |
| WordCounting.PhraseStep | Common/WordMatrix.cs:64-77 | part `idx` adds the phrase of the first `idx + 1` parts, unless the part strips to blank or to "-" |
| WordCounting.PhrasesUpToShape | Common/WordMatrix.cs:64-77 | each title phrase is a prefix of the joined title, and each is strictly longer than the one before |
| WordCounting.TitlePhrasesShape | Common/WordMatrix.cs:63-77 | the phrases of a title are prefixes of the title without its double quotes, strictly growing in length |
| WordCounting.TitleCountsOnce | Common/WordMatrix.cs:59-80 | parsing one title adds at most 1 to any count |
| WordCounting.WordModeKeys | Common/WordMatrix.cs:82-85 | in word mode each non-blank token's count grows by its number of occurrences, and no key gains a space |
| WordCounting.HyphenatedTitle | Common/WordMatrix.cs:69-76 | "a - b" yields the phrases "a" and "a - b": the lone hyphen adds no phrase of its own |
| WordCounting.WordXorDoubled | Common/WordMatrix.cs:96-97 | for a count `c` below 2^30, `1 ^ 2 * c` is `2c + 1` |
| WordCounting.PhraseOfTwoXorDoubled | Common/WordMatrix.cs:96-97 | for a count `c` below 2^30, `2 ^ 2 * c` is `2c + 2` when `c` is even and `2c - 2` when it is odd |
| WordCounting.WeightOfWord | Common/WordMatrix.cs:94-98 | a word without a space, seen `c` times, weighs `2c + 1` |
| WordCounting.WeightOfPhraseOfTwo | Common/WordMatrix.cs:94-98 | a phrase of two space-free words, seen `c` times, weighs `2c + 2` for even `c` and `2c - 2` for odd `c` |
| WordCounting.WeightPrefersWords | Common/WordMatrix.cs:94-98 | at equal counts, a single word weighs more than a two-word phrase exactly when the count is odd |
| WordCounting.RankLeTotalPreorder | Common/WordMatrix.cs:20-22 | ordering by count, then by weight, both descending, is a total preorder |
| WordCounting.Entries | Common/WordMatrix.cs:21 | one (word, count) pair per key, in insertion order |
| WordCounting.RankedSpec | Common/WordMatrix.cs:20-22 | the ranking is a permutation of the entries, sorted, with counts from high to low, and stable |
| WordCounting.RankedEntries | Common/WordMatrix.cs:20-22 | every ranked entry is a key with its own count of at least 1 |
| WordCounting.WordMatrix.constructor | Common/WordMatrix.cs:14-15 | an empty, valid dictionary |
| WordCounting.WordMatrix.Get | Common/WordMatrix.cs:34-35 | the count of a key; 0 exactly when the word is not a key |
| WordCounting.WordMatrix.Set | Common/WordMatrix.cs:37-51 | the new state is the setter step applied to the old one, and stays valid |
| WordCounting.WordMatrix.ParseWords | Common/WordMatrix.cs:59-86 | the setter applied to each title phrase (title mode) or to each token (word mode), in order |
| WordCounting.WordMatrix.TouchPhrases | Common/WordMatrix.cs:64-77 | the setter applied to the title phrases, in order |
| WordCounting.WordMatrix.AddPhrase | Common/WordMatrix.cs:66-76 | one pass of the title loop: the phrase of part `idx` is set, unless skipped |
| WordCounting.WordMatrix.TouchTokens | Common/WordMatrix.cs:82-85 | the setter applied to each token, in order |
| WordCounting.WordMatrix.WordsHighToLow | Common/WordMatrix.cs:20-22 | a permutation of the entries, sorted by count and then by weight, both descending; it is `Ranked` of the dictionary, so ties keep their insertion order (`RankedSpec`) |
| Categories.Opened | Common/CategoryMatrix.cs:28-31 | once asked for, a category always has a dictionary |
| Categories.TitleEntriesSpec | Common/CategoryMatrix.cs:42-50 | the title words are the ten best-ranked entries (all of them when fewer), ordered by UTF-16 length, longest first; words of equal length keep their rank order |
| Categories.TitleEntriesOutrank | Common/CategoryMatrix.cs:45-47 | each of the ten kept entries ranks at least as high as every entry left out |
| Categories.TitleWordsAreKeys | Common/CategoryMatrix.cs:42-50 | each title word is a key of the dictionary, with its own count |
| Categories.EmptyCategoryTitle | Common/CategoryMatrix.cs:42-50 | a category with no words has the empty title |
| Categories.CategoryTitleRoundTrip | Common/CategoryMatrix.cs:43-50 | when no key has a comma, splitting the title at commas gives back the title words |
| Categories.CategoryMatrix.constructor | Common/CategoryMatrix.cs:16-17 | no categories |
| Categories.CategoryMatrix.Get | Common/CategoryMatrix.cs:24-35 | an existing category's matrix is returned and nothing changes; a missing one gets a fresh, empty matrix, added under that category |
| Categories.CategoryMatrix.GetCategoryTitle | Common/CategoryMatrix.cs:42-50 | the category is opened, and the title is the comma-joined title words of its dictionary |
| Categorization.ByDistanceTotalPreorder | DocMLCategorization/Program.cs:116 | ordering by average distance is a total preorder |
| Categorization.ClosestIsLeastDistance | DocMLCategorization/Program.cs:91-116 | the chosen count is in 2..20 with the least average distance, and every smaller count has a strictly larger one |
| Categorization.ClosestTried | DocMLCategorization/Program.cs:116 | the first entry of the stable sort by distance is a count that was tried, with its own distance |
| Categorization.ClosestBeatsAll | DocMLCategorization/Program.cs:116 | no count that was tried has a smaller distance |
| Categorization.ClosestBeatsSmaller | DocMLCategorization/Program.cs:116 | on a tie, the smallest count wins |
| Categorization.ChooseClusterCount | DocMLCategorization/Program.cs:91-116 | the loop over 2..20 and the choice give the count with the least distance, the smallest one on a tie |
| Categorization.CategorizeStep | DocMLCategorization/Program.cs:147-163 | one more row adds its title to its label's list, its label on first sight, its `Data` line, and its words to its cluster |
| Categorization.GroupedKeys | DocMLCategorization/Program.cs:150-153 | the summary has a list for a label exactly when some row has that label |
| Categorization.GroupedTitles | DocMLCategorization/Program.cs:150-155 | each label's list holds the titles of its rows, in row order |
| Categorization.GroupSizes | DocMLCategorization/Program.cs:150-155 | each label's list holds as many titles as there are rows with that label |
| Categorization.FedRowTouches | DocMLCategorization/Program.cs:157-160 | a row opens its cluster and adds its words to that cluster only |
| Categorization.FedKeys | DocMLCategorization/Program.cs:147-163 | the clusters afterwards are the old ones plus the row labels, and clusters with no rows are unchanged |
| Categorization.FedCategory | DocMLCategorization/Program.cs:147-163 | a labelled cluster ends as its dictionary with the words of its own rows added, in row order |
| Categorization.FeedRow | DocMLCategorization/Program.cs:157-160 | the category matrix's state after one row is `FedRow` of the old state |
| Categorization.ParseRowWords | DocMLCategorization/Program.cs:159-160 | only the row's own cluster changes: its top words in word mode, then its title in title mode |
| Categorization.Categorize | DocMLCategorization/Program.cs:145-163 | the summary is the titles grouped by label, the labels in order of first sight, the categorized lines are the rows' `Data`, and the clusters are fed by every row |
| Categorization.LabelLeTotalPreorder | DocMLCategorization/Program.cs:167 | the numeric order of labels is a total preorder |
| Categorization.EveryClusterTitled | DocMLCategorization/Program.cs:167-169 | every cluster that has a dictionary has a title |
| Categorization.WriteSummary | DocMLCategorization/Program.cs:165-174 | the summary lines are the labels' sections in ascending label order, and the clusters are unchanged |
| Categorization.WriteSections | DocMLCategorization/Program.cs:167-174 | one section per label, in the given order |
| Categorization.WriteCategory | DocMLCategorization/Program.cs:169-173 | a label's header with its cluster's title, then its titles sorted, each after a tab |
| Categorization.AddSection | DocMLCategorization/Program.cs:169-173 | a header line, then each title sorted, each after a tab, appended to the lines so far |
| Categorization.SummaryLinesLength | DocMLCategorization/Program.cs:165-174 | one header per label plus one line per title |
| Categorization.SummaryShape | DocMLCategorization/Program.cs:145-174 | the labels are written strictly ascending, each once with its list, and the summary has one line per distinct label plus one per row |
| Progress.StopsUpToSucceeds | Common/ProgressHelper.cs:80-91 | the stop dictionary is built exactly when the nine stop keys are distinct |
| Progress.StopsUpToKeys | Common/ProgressHelper.cs:80-91 | its keys are exactly the floors of `k * total / 10` |
| Progress.StopsUpToLabels | Common/ProgressHelper.cs:80-91 | the key of stop `k` holds the label `k * 10` followed by "%" |
| Progress.FailurePersists | Common/ProgressHelper.cs:80-91 | once a duplicate key throws, later entries are never added and the initializer fails with that entry's exception |
| Progress.StopKeysIncrease | Common/ProgressHelper.cs:77-91 | from nine items on, the stop keys strictly increase |
| Progress.StopsSucceedIff | Common/ProgressHelper.cs:70-91 | after clamping, the constructor succeeds exactly when the total is at least 9; below that, two stops share a key |
| Progress.DistinctKeysFromNine | Common/ProgressHelper.cs:77-91 | the nine stop keys are pairwise distinct exactly when the total is at least 9 |
| Progress.FirstRepeatedStop | Common/ProgressHelper.cs:80-91 | for a total of 1 to 8 the initializer throws `ArgumentException` with the message ending in "Key: 0" (up to 4 items), "Key: 1" (5 and 6), "Key: 2" (7) or "Key: 4" (8) |
| Progress.Emission | Common/ProgressHelper.cs:130-141 | an increment sends at most one message: the stop's label, or a dot |
| Progress.ReachedSpec | Common/ProgressHelper.cs:80-91 | stop `k` has been reached by item `n` exactly when `k` is at most the count of stops reached |
| Progress.RunLabels | Common/ProgressHelper.cs:130-141 | after `n` increments, the labels sent (dots aside) are the labels of the stops reached, in order |
| Progress.FullRunReportsEveryStop | Common/ProgressHelper.cs:77-141 | from ten items on, a full run sends every label from 10% to 90% once, in order |
| Progress.ProgressHelper.Create | Common/ProgressHelper.cs:66-92 | the total is clamped to at least 1; the constructor throws exactly when the stop keys collide, with the `ArgumentException` that names the first repeated key; otherwise it holds those stops and an increment of a hundredth of the total |
| Progress.ProgressHelper.Increment | Common/ProgressHelper.cs:102-112 | the index grows by one, the increment's message is appended, and the messages sent stay equal to `Run` |
| SparkWords.ParseTimeShape | SparkWordsProcessor/Program.cs:231-252 | under one minute or at it: "< 1 minute"; under an hour: the whole minutes; from an hour on: the whole hours, plus the remaining whole minutes unless there are none |
| SparkWords.WholeMinutes | SparkWordsProcessor/Program.cs:150-154 | the whole minutes of reading are the word count over 225, rounded down |
| SparkWords.ReadingTimeBuckets | SparkWordsProcessor/Program.cs:150-154 | up to 225 words: under a minute; below 13500: count/225 minutes; from there on, hours and minutes |
| SparkWords.ReadingTimeExamples | SparkWordsProcessor/Program.cs:150-154 | 13500 words read in "1 hours", and 14000 words in "1 hours and 2 minutes" |
| SparkWords.KeptWords | SparkWordsProcessor/Program.cs:134-137 | a word is kept exactly when it is four or more UTF-16 code units long and is not a stop word |
| SparkWords.CleanFieldIsClean | SparkWordsProcessor/Program.cs:206-212 | a cleaned field holds no double quote and no comma |
| SparkWords.CollectRows | SparkWordsProcessor/Program.cs:197-221 | one training line per row with a non-blank title, in row order |
| SparkWords.TrainingLineReadsBack | SparkWordsProcessor/Program.cs:203-217 | when the file name and reading time have no double quote, each training line reads back as its record's values |

## Left out

- I/O is not modelled; `FilesHelper` is not part of this model. Appending to the categorized list is the returned `categorized` sequence, and `WriteCategorySummary` is the returned summary lines. The training lines are returned, not appended to a file.
- Console output is not modelled. The progress reporter's `action` is modelled as the sequence of messages sent to it.
- The progress calls inside the categorization and Spark loops are not modelled. The reporter itself is modelled in `Progress`.
- Time-based progress (`ProgressHelper.cs:49-58`, `117-125`) reads the clock, and is not modelled.
- Progress.ProgressHelper.Create: the null check of `action` is not modelled, because the action is the message sequence.
- Progress.ProgressHelper.Create: the stops are computed in doubles in the source and as exact integer floors (`k * total / 10`) here. Double rounding is not modelled.
- Progress.ProgressHelper.Increment: `Index` is an unbounded natural, so the 32-bit wrap-around after 2^31 increments is not modelled.
- The ML.NET pipeline, k-means training and featurization are not modelled. The average distance for each cluster count is a parameter of `ChooseClusterCount`. The distances are real numbers, so NaN and other IEEE effects are not modelled.
- The predicted rows are a parameter of `Categorize`; the score arrays of `FileDataLabel` and `FileDataParse` are not modelled.
- The culture-sensitive string comparison `OrderBy(t => t)` of titles is the parameter `titleLe`.
- The order in which `summary.Keys` is enumerated is the sequence of labels in order of first sight. It does not affect the output, which is sorted by label.
- The markdown library is not modelled. Its parse of the contents is a parameter: a tree of the block and inline kinds the walk distinguishes, or `None` when the parse throws. `TitleTrim` belongs to that library and is the parameter `titleTrim`.
- The regular-expression class `\w` is exact for ASCII and Latin-1. Above U+00FF it is approximated by block ranges. Characters above U+FFFF are never kept, because .NET matches each half of their surrogate pair on its own.
- A null string is modelled as "", except where the source checks for null (`CheckNotNull`, a link reference's tooltip).
- `StopWords` loading and `DocRepoParser` are not part of this model. The stop list is a parameter of `KeptWords`.
- The Spark SQL job (split, explode, group, count, row numbering, joins) is not modelled. Its collected rows are the parameter of `CollectRows`.
- `ParseTime` works on doubles in the source and on exact reals here. `%` on a positive double is modelled as the remainder after the whole hours.
- WordCounting.Weight: its contract states only the 32-bit range of the result. What it computes is stated by `WeightOfWord` and `WeightOfPhraseOfTwo` for counts below 2^30; phrases of three or more words are covered only by that range.
- WordCounting.Touch: counts are unbounded naturals. In the source they are `int`, and the increment at `WordMatrix.cs:37-51` wraps after 2^31 increments of one key; that wrap is not modelled.
- Labels.QuoteUnlessQuoted: `StartsWith("\"")` in the source is culture-sensitive and skips ignorable leading characters, so "\u00AD\"x" counts as quoted there. The model tests the first character ordinally.
- The round trip of `TempHeader` through Spark's CSV reader is not modelled. `ReadFields` is a reader for the rows as written, used to state what survives.
