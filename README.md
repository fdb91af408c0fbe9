# Cyber Insight Hub — a verified model of the dashboard's data pipeline

Cyber Insight Hub is a React dashboard of cyber-security incidents. It loads a
Markdown-style table of incident records. The user narrows the records by
country, year, attack type and target industry. The page then shows headline
figures and four charts computed from the records that remain.

This project models that data pipeline in Dafny and proves what each step
produces:

- `CsvParser` (`csv_parser.dfy`) models `parseCSV`:
  - trim the text and split it into lines;
  - skip the header and separator lines;
  - skip blank lines and `|---` lines;
  - split each row on `|`, trim the cells and drop the empty ones;
  - build a `CyberThreat` from the first ten cells, with `parseInt` and
    `parseFloat` for the numeric columns.

  The loop is a `method` proved against the functional specification
  `Records(DataLines(lines))`.
- `IndexPage` (`index_page.dfy`) models the page state of `Index.tsx`:
  - a `Dashboard` class holding `data` and `filteredData`;
  - `handleFilterChange`, proved against the reference filter `Select`;
  - the headline figures: count, total loss, total affected users and mean
    resolution time;
  - the de-duplicated, sorted option lists of the filter panel.
- `Charts` (`charts_section.dfy`) models the four reductions of
  `ChartsSection.tsx`, each a loop followed by its sort or cut:
  - attacks per year, in ascending year order when every year is a number;
  - attack types, in order of first occurrence;
  - the ten countries with the most attacks;
  - industries by number of attacks.
- Supporting modules:
  - `Text`: `trim` with ECMAScript's white-space set, `split`, `startsWith`,
    and string order.
  - `Numbers`: `parseInt`, `parseFloat`, `String(n)`, and sums in which
    `NaN` is absorbing.
  - `Grouping`: the search-then-update reduction, with JavaScript's `===`
    on a key that may be `NaN`.
  - `Sorting`: `Array.prototype.sort` as a stable insertion sort under a
    comparator.
  - `Totals`: sums of natural-number weights.
  - `Wrappers`: `Option`, `Min`, `Max`.

How JavaScript semantics are modelled:

- **Numbers.** A JavaScript number is `Option<int>` or `Option<real>`, with
  `None` for `NaN`.
- **Equality.** Under `===`, a `NaN` year never equals anything. The charts
  therefore give every record whose year is `NaN` a group of its own. The
  reductions take a `comparable` predicate that decides this: `IsNumber` for
  years, `AnyKey` for strings.
- **Sets.** `new Set` treats every `NaN` as the same value, so duplicates
  are removed with `AnyKey`.
- **Comparators.** `compareFn(a, b) > 0` is modelled as `after(a, b)`.
- **Default `sort()`.** It compares the `String` of each element, as in
  `LexLess(ShowNumber(a), ShowNumber(b))` for years.

## Model

The data types:

- `CsvParser.CyberThreat` is the record of `src/utils/csvParser.ts:1-12`.
  Its numeric fields are `Option` values, with `None` for `NaN`.
- `IndexPage.Filters` holds the criteria of `handleFilterChange` at
  `src/pages/Index.tsx:33-38`. An absent criterion is `None`.
- `Grouping.Tally` and `Grouping.LossTally` are the chart groups built at
  `src/components/ChartsSection.tsx:19-66`.

| member | source | states |
|---|---|---|
| CsvParser.ParseCsv | src/utils/csvParser.ts:19-49 | the result is the records of the lines from the third on, in line order; there are at most max(0, lines - 2) of them; a record is in the result iff some line from the third on parses to it |
| CsvParser.ParseLines | src/utils/csvParser.ts:20-47 | the loop from line 2 yields exactly `Records(DataLines(lines))`, at most max(0, lines - 2) records, each coming from some line at index 2 or more |
| CsvParser.Records | src/utils/csvParser.ts:23-47 | definition of the records the loop collects, line by line; RecordsOrigin, RecordsAppend and RecordCountBound state its properties |
| CsvParser.DataLines | src/utils/csvParser.ts:22-23 | definition of the lines the loop visits, from index 2 on; DataLinesOrigin states its property |
| CsvParser.ParseRow | src/utils/csvParser.ts:24-46 | definition of one iteration: no record for a blank line, a `|---` line or fewer than ten cells, otherwise a record built from the cells; BlankRowIgnored, SeparatorRowIgnored, ShortRowDropped, ParseRowLine and RecordsOfLine state its cases |
| CsvParser.RowRecords | src/utils/csvParser.ts:33-46 | definition of what one iteration pushes: the parsed record, or nothing; RecordsOfLine states its cases |
| CsvParser.Collect | src/utils/csvParser.ts:23-47 | definition of the loop's accumulation: each line's pushes appended in line order; CollectAppend, CollectOrigin and CollectLength state its properties |
| CsvParser.ToRecord | src/utils/csvParser.ts:34-45 | definition of the column-to-field mapping; RowFields and ExtraCellsIgnored state its properties |
| CsvParser.Lines | src/utils/csvParser.ts:19 | `text.trim().split('\n')` has at least one line |
| CsvParser.DropEmpty | src/utils/csvParser.ts:31 | only non-empty cells of the input remain, and none is added |
| CsvParser.DropEmptyAppend | src/utils/csvParser.ts:31 | filtering commutes with concatenation |
| CsvParser.Cells | src/utils/csvParser.ts:28-31 | every cell of a row is non-empty, trimmed and free of `|` |
| CsvParser.TrimAll | src/utils/csvParser.ts:30 | definition of `.map(v => v.trim())`; TrimAllPadded states what it does to a written row |
| CsvParser.RecordsStep | src/utils/csvParser.ts:23-47 | one more loop iteration appends exactly the records of line i |
| CsvParser.RecordsAppend | src/utils/csvParser.ts:23-47 | the records of consecutive blocks of lines are concatenated in order |
| CsvParser.RecordsOfLine | src/utils/csvParser.ts:24-46 | a single line gives one record if it parses, none otherwise |
| CsvParser.RecordsOrigin | src/utils/csvParser.ts:23-47 | a record is produced iff some line parses to it |
| CsvParser.DataLinesOrigin | src/utils/csvParser.ts:23 | the records of the data lines are exactly those of lines at index 2 or more |
| CsvParser.DropTwoOrigin | src/utils/csvParser.ts:23 | a value comes from a line after the first two exactly when it comes from the lines with those two dropped |
| CsvParser.RecordCountBound | src/utils/csvParser.ts:23-47 | at most one record per line after the first two |
| CsvParser.CollectAppend | src/utils/csvParser.ts:23-47 | the accumulated output of a concatenation is the concatenation of the outputs |
| CsvParser.CollectOrigin | src/utils/csvParser.ts:23-47 | an output element comes from some input element, and every output of an input element appears |
| CsvParser.CollectLength | src/utils/csvParser.ts:33-46 | at most one output per input when each input gives at most one |
| CsvParser.Padded | src/utils/csvParser.ts:28-31 | helper for the round trip: the cells of a written row, each with one space on either side; its contract gives only one piece per cell |
| CsvParser.JoinEndsWithSeparator | src/utils/csvParser.ts:29 | a row ending in an empty piece ends with the separator |
| CsvParser.RowLineEmpty | src/utils/csvParser.ts:29 | a table row without cells is a lone `|` |
| CsvParser.RowLineStart | src/utils/csvParser.ts:29 | a table row starts with `| ` |
| CsvParser.RowLineEnd | src/utils/csvParser.ts:29 | a table row ends with `|` |
| CsvParser.PiecesOfRowLine | src/utils/csvParser.ts:29 | splitting a table row on `|` gives an empty piece, the padded cells, and an empty piece |
| CsvParser.TrimAllPadded | src/utils/csvParser.ts:30 | trimming those pieces recovers the cells |
| CsvParser.DropEmptyBorders | src/utils/csvParser.ts:31 | the empty pieces at either border of a row are discarded |
| CsvParser.CellsOfRowLine | src/utils/csvParser.ts:28-31 | the cells read from a table row are exactly its non-empty cells |
| CsvParser.ParseRowLine | src/utils/csvParser.ts:28-46 | a table row gives a record iff it has at least 10 non-empty cells, built from those cells |
| CsvParser.RowFields | src/utils/csvParser.ts:34-45 | the field mapping: text columns 0, 2, 3, 6, 7, 8 are copied; year, affected users and resolution time use `parseInt`; financial loss uses `parseFloat` |
| CsvParser.ExtraCellsIgnored | src/utils/csvParser.ts:33-45 | cells past the tenth do not change the record |
| CsvParser.ShortRowDropped | src/utils/csvParser.ts:33 | a row with fewer than 10 cells gives no record |
| CsvParser.SeparatorRowIgnored | src/utils/csvParser.ts:25 | a line starting with `|---` after trimming gives no record |
| CsvParser.BlankRowIgnored | src/utils/csvParser.ts:25 | a line that is empty after trimming gives no record |
| CsvParser.Render | src/utils/csvParser.ts:34-44 | a record is written as its ten columns |
| CsvParser.ShowIntPlain | src/utils/csvParser.ts:36 | a written integer has no `|` and no white space at its ends |
| CsvParser.DropEmptyNone | src/utils/csvParser.ts:31 | cells that are all non-empty are kept as they are |
| CsvParser.RecordRoundTrip | src/utils/csvParser.ts:28-45 | a record with integral numbers and plain text cells, written as a table row and parsed, is the same record |
| Numbers.DigitValue | src/utils/csvParser.ts:36 | a digit's value is below the radix |
| Numbers.DigitRun | src/utils/csvParser.ts:36 | `parseInt` reads the longest prefix of digits and stops at the first non-digit |
| Numbers.ParseInt | src/utils/csvParser.ts:36 | definition of `parseInt` without a radix: leading white space, a sign, a `0x` prefix, then the longest run of digits, `NaN` when there is none; ParseIntShowInt and IndexPage.ParseIntNaN state its results |
| Numbers.ParseFloat | src/utils/csvParser.ts:39 | definition of `parseFloat`: leading white space, a sign, then the longest decimal literal, `NaN` when there is none; ParseFloatShowInt states its result |
| Numbers.ShowInt | src/pages/Index.tsx:65 | definition of `String(n)` for an integer; ParseIntShowInt states that `parseInt` reads it back |
| Numbers.ShowNumber | src/pages/Index.tsx:65 | definition of `String(x)` for a year that may be `NaN`; IndexPage.ParseShowNumber and IndexPage.ShowNumberInjective state its properties |
| Numbers.SumReal | src/pages/Index.tsx:58 | definition of a `reduce` sum from 0 with `NaN` absorbing; SumRealAppend and SumRealDefined state its properties |
| Numbers.SumInt | src/pages/Index.tsx:59-61 | definition of the same sum on integers; SumIntAppend, SumIntDefined and SumIntBounds state its properties |
| Numbers.AddReal | src/pages/Index.tsx:58 | definition of `+` on numbers with `NaN` absorbing; SumRealDefined and SumRealAppend state what the sums built from it do |
| Numbers.AddInt | src/pages/Index.tsx:59-61 | definition of the same `NaN`-absorbing `+` on the integer-valued fields, one concept with AddReal; SumIntDefined and SumIntAppend state what the sums built from it do |
| Numbers.Pow10 | src/utils/csvParser.ts:39 | helper for `parseFloat`: a power of ten; its contract gives only positivity |
| Numbers.Scale | src/utils/csvParser.ts:39 | helper for `parseFloat`: ten to an exponent of either sign, exactly; its contract gives only positivity |
| Numbers.DigitChar | src/utils/csvParser.ts:36 | the digit character of d reads back as d |
| Numbers.ShowNat | src/pages/Index.tsx:65 | `String(n)` of a natural number is a non-empty run of digits |
| Numbers.ShowNatValue | src/pages/Index.tsx:65 | the digits `String(n)` writes have value n |
| Numbers.DigitRunAfterDigits | src/utils/csvParser.ts:36 | a digit run covers a whole leading numeral |
| Numbers.NoHexPrefix | src/utils/csvParser.ts:36 | a written decimal number never starts with the `0x` prefix `parseInt` reads as hexadecimal |
| Numbers.MagnitudeOfShowNat | src/utils/csvParser.ts:36 | `parseInt` reads the magnitude of a written natural number back |
| Numbers.ParseIntShowInt | src/utils/csvParser.ts:36 | `parseInt(String(n) + t) == n` whenever t does not continue the numeral |
| Numbers.FloatMagnitudeOfShowNat | src/utils/csvParser.ts:39 | `parseFloat` reads a written natural number back |
| Numbers.ParseFloatShowInt | src/utils/csvParser.ts:39 | `parseFloat(String(n)) == n` for an integer n |
| Numbers.SumRealSingle | src/pages/Index.tsx:58 | the sum of one loss is that loss |
| Numbers.SumRealAppend | src/pages/Index.tsx:58 | the sum over a concatenation is the sum of the sums |
| Numbers.SumIntAppend | src/pages/Index.tsx:59-61 | the sum over a concatenation is the sum of the sums |
| Numbers.SumRealDefined | src/pages/Index.tsx:58 | the sum is a number iff every term is one |
| Numbers.SumIntDefined | src/pages/Index.tsx:59-61 | the sum is a number iff every term is one |
| Numbers.SumIntBounds | src/pages/Index.tsx:60-61 | n terms in [lo, hi] sum to a value in [n·lo, n·hi] |
| Text.TrailingWhiteSpace | src/utils/csvParser.ts:24 | the number of white-space characters at the end: all of them are white space and the character before them is not |
| Text.LeadingWhiteSpace | src/utils/csvParser.ts:24 | the number of white-space characters at the start: all of them are white space and the character after them is not |
| Text.Trim | src/utils/csvParser.ts:19 | the result is the middle of the input, with no white space at either end, and everything removed is white space |
| Text.TrimKeepsOut | src/utils/csvParser.ts:30 | trimming adds no character |
| Text.TrimTrimmed | src/utils/csvParser.ts:24 | trimming a trimmed string changes nothing |
| Text.TrimIdempotent | src/utils/csvParser.ts:19-24 | trimming twice is trimming once |
| Text.TrimPadded | src/utils/csvParser.ts:30 | trimming a trimmed cell padded with one space on each side gives the cell back, the empty cell included |
| Text.Split | src/utils/csvParser.ts:19 | `split` always gives at least one piece and no piece holds the separator |
| Text.Join | src/utils/csvParser.ts:29 | definition of `join`, the inverse of `split` used to write rows; JoinSplit and SplitJoin state the round trip |
| Text.StartsWith | src/utils/csvParser.ts:25 | definition of `startsWith`; CsvParser.SeparatorRowIgnored uses it |
| Text.LexLess | src/pages/Index.tsx:64-67 | definition of the string order of the default `sort()`; LexIrreflexive, LexTransitive, LexTotal and LexAsymmetric state its properties |
| Text.JoinSplit | src/utils/csvParser.ts:29 | joining the pieces with the separator gives the text back |
| Text.SplitNoSeparator | src/utils/csvParser.ts:29 | a text without the separator is one piece |
| Text.SplitAfterPiece | src/utils/csvParser.ts:29 | splitting peels off the piece before the first separator |
| Text.SplitJoin | src/utils/csvParser.ts:29 | splitting joined pieces gives the pieces back |
| Text.LexIrreflexive | src/pages/Index.tsx:64-67 | no string sorts before itself |
| Text.LexTransitive | src/pages/Index.tsx:64-67 | string order is transitive |
| Text.LexTotal | src/pages/Index.tsx:64-67 | distinct strings are ordered one way or the other |
| Text.LexAsymmetric | src/pages/Index.tsx:64-67 | string order is asymmetric |
| Totals.Total | src/components/ChartsSection.tsx:19-66 | definition of the sum of the groups' counts; TotalAppend, TotalSingle and TotalUpdate state its properties |
| Totals.TotalAppend | src/components/ChartsSection.tsx:19-66 | the total over a concatenation is the sum of the totals |
| Totals.TotalSingle | src/components/ChartsSection.tsx:19-66 | the total of one group is its weight |
| Totals.TotalUpdate | src/components/ChartsSection.tsx:22 | replacing a group changes the total by the change in its weight |
| Sorting.InsertionPoint | src/components/ChartsSection.tsx:29 | a new element goes after every element it does not precede, and before the first one that sorts after it |
| Sorting.Insert | src/components/ChartsSection.tsx:29 | definition of one insertion step of the sort; its contract gives only the length, and InsertAt, InsertMultiset and InsertSorted state what it does |
| Sorting.SortBy | src/components/ChartsSection.tsx:29 | definition of `Array.prototype.sort` under a comparator; its contract gives only the length, and SortPermutation, SortSorted and SortStable state what it does |
| Sorting.InsertAt | src/components/ChartsSection.tsx:29 | insertion places the element at its insertion point |
| Sorting.InsertMultiset | src/components/ChartsSection.tsx:29 | insertion adds the element to the multiset |
| Sorting.SortPermutation | src/components/ChartsSection.tsx:29 | the sorted list is a permutation of the input |
| Sorting.InsertIndex | src/components/ChartsSection.tsx:29 | after insertion, the elements before the insertion point stay where they were, the new element sits at the insertion point, and the rest move up one place |
| Sorting.NotAfterBehind | src/components/ChartsSection.tsx:53 | in a sorted list the new element sorts after none of the elements from its insertion point on |
| Sorting.InsertSorted | src/components/ChartsSection.tsx:53 | insertion into a sorted list keeps it sorted |
| Sorting.SortSorted | src/components/ChartsSection.tsx:53 | under an irreflexive, transitive comparator no element sorts after a later one |
| Sorting.TiesWith | src/components/ChartsSection.tsx:66 | the elements tied with e are a selection of the list |
| Sorting.TiesAppend | src/components/ChartsSection.tsx:66 | ties over a concatenation are concatenated |
| Sorting.TiesSingle | src/components/ChartsSection.tsx:66 | a single element is tied or not |
| Sorting.AfterInsertionPoint | src/components/ChartsSection.tsx:66 | in a sorted list everything from the insertion point on sorts after the new element |
| Sorting.NoTies | src/components/ChartsSection.tsx:66 | elements all sorting after x are not tied with anything tied with x |
| Sorting.TiesBehind | src/components/ChartsSection.tsx:66 | nothing behind the insertion point is tied with the new element |
| Sorting.InsertTiesSplit | src/components/ChartsSection.tsx:66 | the elements tied with a given one, after an insertion, are those before the insertion point, then the new element if tied, then those behind it |
| Sorting.InsertTies | src/components/ChartsSection.tsx:66 | insertion appends the new element to the elements tied with it, provided none of them lies behind its insertion point |
| Sorting.SortStable | src/components/ChartsSection.tsx:53-66 | the sort is stable: elements that tie keep their input order |
| Sorting.InsertTotal | src/components/ChartsSection.tsx:29 | insertion adds its weight to the total |
| Sorting.SortTotal | src/components/ChartsSection.tsx:29 | sorting does not change the total of the counts |
| Sorting.NoDuplicatesMultiset | src/pages/Index.tsx:64-67 | an element of a duplicate-free list occurs at most once |
| Sorting.TwoOccurrences | src/pages/Index.tsx:64-67 | two equal positions make two occurrences |
| Sorting.PermutationNoDuplicates | src/pages/Index.tsx:64-67 | a permutation of a duplicate-free list is duplicate-free |
| Sorting.SecondOccurrence | src/pages/Index.tsx:64-67 | an element occurring twice has a second position |
| Grouping.Find | src/components/ChartsSection.tsx:20 | `acc.find` returns the first group whose key is `===` to the record's key, or none |
| Grouping.Same | src/components/ChartsSection.tsx:20 | definition of `===` on a key that may be `NaN`: both keys comparable and equal |
| Grouping.Bump | src/components/ChartsSection.tsx:33-38 | definition of one counting step: the found group's count goes up by one, or a group with count 1 is appended; BumpInvariant states what it keeps |
| Grouping.Tallied | src/components/ChartsSection.tsx:32-40 | definition of the counting reduction; TalliedInvariant, TalliedKeys and TalliedGroups state its properties |
| Grouping.LossBump | src/components/ChartsSection.tsx:20-26 | definition of one loss step: as Bump, with the record's loss added to the group's loss; LossBumpCounts and LossBumpMatches state its properties |
| Grouping.LossTallied | src/components/ChartsSection.tsx:19-28 | definition of the loss reduction; LossTalliedCounts, LossTalliedLosses and LossTalliedGroups state its properties |
| Grouping.Occurrences | src/components/ChartsSection.tsx:35 | no key occurs more often than there are records |
| Grouping.Firsts | src/pages/Index.tsx:64-67 | de-duplication never lengthens a list |
| Grouping.FindUnique | src/components/ChartsSection.tsx:20 | the first match is the only position that meets the conditions of `find` |
| Grouping.FindAppend | src/components/ChartsSection.tsx:25 | a search in a list with one group appended finds the same group or the new one |
| Grouping.OccurrenceWitness | src/components/ChartsSection.tsx:35 | a key that occurs has a record with it |
| Grouping.OccurrencesSnoc | src/components/ChartsSection.tsx:35 | one more record adds one occurrence of its own key only |
| Grouping.BumpFoundKeys | src/components/ChartsSection.tsx:33-38 | bumping a found group keeps the keys; otherwise the key is appended |
| Grouping.BumpDistinct | src/components/ChartsSection.tsx:33-38 | one reduction step keeps group keys pairwise distinct under `===` |
| Grouping.BumpCounts | src/components/ChartsSection.tsx:33-38 | one reduction step keeps every count equal to its key's occurrences |
| Grouping.BumpComplete | src/components/ChartsSection.tsx:33-38 | one reduction step keeps a group for every record |
| Grouping.BumpInvariant | src/components/ChartsSection.tsx:33-38 | one reduction step keeps the whole invariant, including counts summing to the number of records |
| Grouping.TalliedInvariant | src/components/ChartsSection.tsx:32-40 | after the reduction the keys are distinct, counts equal occurrences, every record has a group, and counts sum to the record count |
| Grouping.TalliedKeys | src/components/ChartsSection.tsx:32-40 | the group keys are the record keys in order of first occurrence |
| Grouping.FirstsFind | src/pages/Index.tsx:64-67 | every comparable key is found among the first occurrences |
| Grouping.FirstsDistinct | src/pages/Index.tsx:64-67 | first occurrences are pairwise distinct |
| Grouping.FirstsMembers | src/pages/Index.tsx:64-67 | first occurrences hold exactly the same values as the input |
| Grouping.LossesOf | src/components/ChartsSection.tsx:23 | one loss per record with the key |
| Grouping.LossBumpCounts | src/components/ChartsSection.tsx:20-25 | one step of the loss reduction, with its losses dropped, is one step of the counting reduction |
| Grouping.LossTalliedCounts | src/components/ChartsSection.tsx:19-28 | the loss reduction groups and counts exactly as the counting reduction does |
| Grouping.LossBumpMatches | src/components/ChartsSection.tsx:21-25 | one step keeps each group's loss equal to the sum of its records' losses |
| Grouping.LossTalliedLosses | src/components/ChartsSection.tsx:19-28 | each group's loss is the sum of its records' losses |
| Grouping.TalliedGroups | src/components/ChartsSection.tsx:32-40 | each group counts its key's records, keys are distinct, every record has a group, and counts sum to the record count |
| Grouping.LossCountTotal | src/components/ChartsSection.tsx:19-28 | loss groups and their counts have the same total |
| Grouping.LossTalliedGroups | src/components/ChartsSection.tsx:43-52 | each loss group counts its records and sums their losses, keys are distinct, every comparable record has a group, and counts sum to the record count |
| Grouping.DistinctKeysPermuted | src/components/ChartsSection.tsx:53 | reordering groups keeps their keys distinct |
| IndexPage.Dashboard.constructor | src/pages/Index.tsx:11-12 | both record lists start empty |
| IndexPage.Dashboard.Load | src/pages/Index.tsx:19-20 | the loaded records become both the data and the filtered data |
| IndexPage.Dashboard.HandleFilterChange | src/pages/Index.tsx:33-55 | the four truthiness-guarded filters leave `data` unchanged and set `filteredData` to the records meeting every applied criterion, in order |
| IndexPage.Keep | src/pages/Index.tsx:42 | `filter` never lengthens a list |
| IndexPage.TruthyText | src/pages/Index.tsx:41 | definition of the `if (filters.country)` test, also used for attack type and industry: the criterion is present and not the empty string; SelectNone and KeepSelect state its role |
| IndexPage.TruthyYear | src/pages/Index.tsx:44 | definition of the `if (filters.year)` test: the year is present, not `NaN` and not 0; SelectNone and KeepSelect state its role |
| IndexPage.Matches | src/pages/Index.tsx:41-51 | definition of a record meeting every truthy criterion; SelectMembers states its role |
| IndexPage.Select | src/pages/Index.tsx:39-52 | definition of the filter chain the handler is proved against; SelectMembers, SelectSubsequence, SelectMultiplicity and SelectIdempotent state its properties |
| IndexPage.SelectNone | src/pages/Index.tsx:39-52 | with no truthy criterion the filtered data is all the data, in order |
| IndexPage.KeepSelect | src/pages/Index.tsx:41-52 | each guarded filter narrows by exactly one more criterion |
| IndexPage.SelectSame | src/pages/Index.tsx:39-52 | criteria selecting the same records give the same list |
| IndexPage.KeepSubsequence | src/pages/Index.tsx:42 | `filter` keeps a subsequence of its input |
| IndexPage.SelectSubsequence | src/pages/Index.tsx:39-52 | the filtered data is an order-preserving subsequence of the data |
| IndexPage.SelectMultiplicity | src/pages/Index.tsx:39-52 | a matching record keeps all its copies; a non-matching one keeps none |
| IndexPage.SelectMembers | src/pages/Index.tsx:39-52 | a record is in the filtered data iff it is in the data and meets every applied criterion |
| IndexPage.SelectIdempotent | src/pages/Index.tsx:39-52 | filtering twice with the same criteria is filtering once |
| IndexPage.AvgResolutionTime | src/pages/Index.tsx:60-62 | 0 for no records; otherwise a number iff the sum is, and then the mean times the count is the sum |
| IndexPage.TotalLoss | src/pages/Index.tsx:58 | definition of the total loss; TotalLossAppend and TotalLossDefined state its properties |
| IndexPage.TotalAffected | src/pages/Index.tsx:59 | definition of the total of affected users; TotalAffectedAppend states its property |
| IndexPage.TotalLossAppend | src/pages/Index.tsx:58 | the total loss of two lists is the sum of their totals |
| IndexPage.TotalAffectedAppend | src/pages/Index.tsx:59 | the total of affected users of two lists is the sum of their totals |
| IndexPage.TotalLossDefined | src/pages/Index.tsx:58 | the total loss is a number iff every record's loss is |
| IndexPage.MeanBounds | src/pages/Index.tsx:60-62 | the mean of n values lies between their least and greatest value whenever their sum does |
| IndexPage.AvgResolutionBounds | src/pages/Index.tsx:60-62 | the mean lies between the least and the greatest resolution time |
| IndexPage.TwoIncidentFigures | src/pages/Index.tsx:57-62 | two incidents with losses 1.5 and 2.5, 1000 and 500 users, and times 12 and 20 give 2, 4.0, 1500 and 16 |
| IndexPage.FirstsNoDuplicates | src/pages/Index.tsx:64-67 | `new Set` leaves no duplicates |
| IndexPage.TextOrder | src/pages/Index.tsx:64-67 | the default sort's comparison on strings is a strict order |
| IndexPage.UniqueTexts | src/pages/Index.tsx:64-67 | definition of `[...new Set(values)].sort()` for text; UniqueTextsSpec states its properties |
| IndexPage.UniqueCountries | src/pages/Index.tsx:64 | definition of the country options; UniqueCountriesSpec states its properties |
| IndexPage.UniqueAttackTypes | src/pages/Index.tsx:66 | definition of the attack-type options; UniqueTextsSpec states its properties |
| IndexPage.UniqueIndustries | src/pages/Index.tsx:67 | definition of the industry options; UniqueTextsSpec states its properties |
| IndexPage.UniqueTextsSpec | src/pages/Index.tsx:64-67 | a unique list has no duplicates, holds exactly the field's values, and is strictly ascending |
| IndexPage.UniqueCountriesSpec | src/pages/Index.tsx:64 | the countries list has no duplicates, holds exactly the records' countries, and is strictly ascending |
| IndexPage.ParseIntNaN | src/pages/Index.tsx:65 | `parseInt("NaN")` is `NaN` |
| IndexPage.ParseShowNumber | src/pages/Index.tsx:65 | `parseInt(String(y)) == y` for every year, `NaN` included |
| IndexPage.ShowNumberInjective | src/pages/Index.tsx:65 | distinct years have distinct strings |
| IndexPage.YearOrder | src/pages/Index.tsx:65 | the default sort's comparison on years is a strict order |
| IndexPage.UniqueYears | src/pages/Index.tsx:65 | definition of the year options, sorted by their strings; UniqueYearsSpec states its properties |
| IndexPage.UniqueYearsSpec | src/pages/Index.tsx:65 | the years list has no duplicates, holds exactly the records' years, and is strictly ascending by `String(year)` |
| Charts.CountGroups | src/components/ChartsSection.tsx:32-40 | the reduction loop yields exactly the groups of the reference reduction |
| Charts.LossGroups | src/components/ChartsSection.tsx:19-28 | the reduction loop with losses yields exactly the loss groups of the reference reduction |
| Charts.YearAfterOrder | src/components/ChartsSection.tsx:29 | `a.year - b.year > 0` is irreflexive and transitive |
| Charts.YearAfterNotWeak | src/components/ChartsSection.tsx:29 | once a year can be `NaN`, `a.year - b.year` is no strict weak order: 2021 sorts after 2020 while `NaN` sorts neither before 2021 nor after 2020 |
| Charts.YearAfter | src/components/ChartsSection.tsx:29 | definition of the year comparator `a.year - b.year > 0`, false whenever a year is `NaN`; its order properties are YearAfterOrder and YearAfterNotWeak |
| Charts.FewerAttacks | src/components/ChartsSection.tsx:53 | definition of the comparator `b.attacks - a.attacks > 0`; FewerAttacksOrder shows it is a strict weak order |
| Charts.FewerCount | src/components/ChartsSection.tsx:66 | definition of the comparator `b.count - a.count > 0`; FewerCountOrder shows it is a strict weak order |
| Charts.FewerAttacksOrder | src/components/ChartsSection.tsx:53 | `b.attacks - a.attacks > 0` is a strict weak order |
| Charts.FewerCountOrder | src/components/ChartsSection.tsx:66 | `b.count - a.count > 0` is a strict weak order |
| Charts.PermutedLossGroups | src/components/ChartsSection.tsx:29 | reordered loss groups still describe the records, and every record still has a group |
| Charts.PermutedGroups | src/components/ChartsSection.tsx:66 | reordered count groups still count the records, and every record still has a group |
| Charts.SortedLossGroups | src/components/ChartsSection.tsx:19-29 | sorting the loss groups by any comparator keeps them faithful, their keys distinct, a group for every record and a total count equal to the number of records |
| Charts.SortedGroups | src/components/ChartsSection.tsx:57-66 | sorting the count groups by any comparator keeps them a permutation of the groups, faithful, with distinct keys, complete and totalling the number of records |
| Charts.YearsAscending | src/components/ChartsSection.tsx:29 | year groups sorted by the year comparator with distinct keys have strictly ascending numeric years |
| Charts.RankedByAttacks | src/components/ChartsSection.tsx:53 | sorting by attacks gives non-increasing counts and keeps groups with equal counts in order |
| Charts.RankedByCount | src/components/ChartsSection.tsx:66 | sorting by count gives non-increasing counts and keeps groups with equal counts in order |
| Charts.YearlyData | src/components/ChartsSection.tsx:19-29 | the result is the sort of the loss reduction by year; each group counts its year's records and sums their losses; every numeric year has a group; when every year is a number, every group has one and the years are strictly ascending; counts sum to the record count; no records give no groups |
| Charts.YearOfSomeRecord | src/components/ChartsSection.tsx:19-28 | every year group's key is the year of some record |
| Charts.TotalAttacksByYear | src/pages/Index.tsx:57 | the attack count shown equals the total of the counts in the yearly chart |
| Charts.AttackTypeData | src/components/ChartsSection.tsx:32-40 | the types in order of first occurrence, each with its number of records, distinct, covering every record, counts summing to the record count |
| Charts.RankedCountries | src/components/ChartsSection.tsx:43-53 | sorting keeps the number of country groups; RankedCountriesSpec states the rest |
| Charts.RankedCountriesSpec | src/components/ChartsSection.tsx:43-53 | ranked groups count and sum their country's records, cover every record, have distinct keys and non-increasing counts, and ties keep first-occurrence order |
| Charts.CountryData | src/components/ChartsSection.tsx:43-54 | at most 10 groups, the first of the ranking; distinct countries, non-increasing counts, each group faithful; no country left out has more attacks than one shown; no records give no groups |
| Charts.IndustryData | src/components/ChartsSection.tsx:57-66 | a permutation of the industry groups, each counting its records, distinct, covering every record, non-increasing, counts summing to the record count, ties in first-occurrence order |

## Left out

- Reading the file: `fetch`, `response.text()` and the `catch` that returns
  an empty list (src/utils/csvParser.ts:14-18, 50-53) are I/O. `ParseCsv`
  starts from the text, and no step of the model can fail.
- Page life cycle: `useEffect`, `loadData`, the loading flag and the toasts
  (src/pages/Index.tsx:13-31). These are I/O and UI feedback.
  `Dashboard.Load` stands for the two state setters.
- React's state updates are modelled as immediate assignments. Batching and
  re-rendering are outside the model.
- Rendering is not part of this model: the JSX of `Index.tsx` and
  `ChartsSection.tsx`, `COLORS`, number formatting for display,
  `MetricCard`, `FilterPanel` and `OllamaChat`. These are presentational, or
  a network chat client.
- Floating point: numbers are exact integers and reals. Rounding to the
  nearest double is not modelled, nor is overflow to `Infinity`, nor
  `parseFloat("Infinity")`, which the model reads as `NaN`.
- `parseInt` is modelled without a radix argument, as it is called; the
  `0x` prefix is handled. `-0` is not distinguished from `0`.
- Strings are sequences of Unicode scalar values, not UTF-16 code units. The
  default sort's order equals code-unit order only for characters of the
  Basic Multilingual Plane.
- Every reduction is modelled on values. The source's `find` returns a group
  object that is then updated in place, and `sort` reorders the array in
  place. The groups are never shared, so no aliasing is lost.
- The groups are the generic `Tally` (key, count) and `LossTally`
  (key, count, loss). The source names these fields per chart:
  `year`/`count`/`loss`, `name`/`value`, `country`/`attacks`/`loss` and
  `industry`/`count`.
- `Array.prototype.sort` is modelled as a stable insertion sort. The
  ECMAScript standard fixes only stability and the comparator's outcome, and
  under a consistent comparator any stable sort gives this result. When a
  comparator is inconsistent, the order is implementation-defined. This
  happens for years that are `NaN`, whose difference is `NaN`. The model
  fixes one possible order.
- Charts.YearlyData: ascending year order is stated only when every record
  has a numeric year. Once a year is `NaN`, `a.year - b.year` is no strict
  weak order (YearAfterNotWeak), so the order of the whole chart, numeric
  years included, depends on the engine. An engine may leave
  `[2021, NaN, 2020]` as it is, while the model's insertion sort gives
  `[2020, 2021, NaN]`.
- Charts.YearlyData: completeness is stated for records with numeric years;
  each `NaN`-year record forms a group of its own with count 1, as
  `LossGroupOf` states.
- IndexPage.Filters: a year criterion of `None` stands both for an absent
  year and for `NaN`. Both are falsy and skip the year filter.

The code has three behaviours a reader might not expect:

- A criterion is skipped when it is falsy, not only when it is absent. An
  empty string, year 0 and `NaN` all apply no filter.
- Rows whose numeric cells do not parse are kept, with `NaN` fields.
  `parseInt` and `parseFloat` also accept a numeric prefix followed by
  other text.
- The year options use the default `sort()`, which is string order
  ("999" comes after "2020"). The year chart sorts numerically.
