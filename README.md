# RAINET batch scripts, modelled in Dafny

A model of three batch-processing scripts of RAINET, a toolkit for RNA–protein interaction analysis:

- **catRAPID stream filter and aggregator** (`ReadCatrapid.py`). It reads the filter files (wanted pairs, RNAs, proteins). It then streams the catRAPID prediction file line by line:
  - it records every protein and RNA seen;
  - it applies the cutoff → RNA → protein → pair filter cascade;
  - it adds each surviving record to per-protein and per-RNA histograms of rounded scores;
  - it spools the surviving lines into numbered shard files, one every `batchSize` input lines.

  At the end it writes one summary row per entity, with `NA` for an entity that has no survivor.
- **Enrichment filtering** (`FilterEnrichmentResults.py`). It selects transcripts from the per-RNA enrichment file using the significance flag and an optional observed/random ratio. From the results file it then:
  - filters the results and builds the `tx|annot` pair map;
  - writes the sorted RNA × annotation matrix and its annotation label and colour files;
  - ranks enriched pairs by specificity;
  - filters the retained results by specificity limits.
- **Per-protein target counting** (`protein_target_ratio.py`). It reads the transcript biotypes and counts each protein's targets by biotype, skipping untyped targets. It then builds each protein's row: counts, ratio and the 2×2 contingency table.

Files are given to the model as their lines, and output files are returned as texts. Numbers are exact decimals (`Numbers.Decimal`): histogram keys are scores in tenths, and means and medians are exact fractions. Each loop of the scripts is a `method` whose loop state is a record of the script's variables. Every step method is proved against a specification function of the lines read so far (`StateOf`, `ScoreFrequencies`, `Shards`, `CountsOf`, `SelectionOf`, `AnnotationDict`, `TypeMap`). The lemmas beside each specification function state what the scripts promise about their outputs.

Modules:

| module | file | models |
|---|---|---|
| `Results`, `Lines`, `Text`, `Numbers`, `StringOrder` | results.dfy, lines.dfy, text.dfy, numbers.dfy, order.dfy | Option/Result; reading a file line by line up to the first malformed line; Python `split`/`join`/`strip`/`replace`; `int()`/`float()` on decimal literals, `round(x, 1)`; `sorted()` of a set of strings |
| `Interactions`, `Histograms`, `Catrapid`, `CatrapidReport` | interaction.dfy, histogram.dfy, catrapid.dfy, catrapid_report.dfy | `ReadCatrapid.py` |
| `EnrichmentSelection`, `EnrichmentResults`, `EnrichmentMatrix`, `MatrixAnnotations`, `Specificity`, `FilterEnrichment` | enrichment_selection.dfy, enrichment_results.dfy, enrichment_matrix.dfy, annotation.dfy, specificity.dfy, filter_enrichment.dfy | `FilterEnrichmentResults.py` |
| `TargetRatio` | target_ratio.dfy | `protein_target_ratio.py` (transcript types and the counting part of `read_interaction_file`) |

## Model

| member | source | states |
|---|---|---|
| Interactions.ParseInteraction | branches/RNA_insertion/src/fr/tagc/rainet/core/execution/processing/catrapid/ReadCatrapid.py:184-189 | a parsed line gives a protein ID with no bar and no space, and an RNA ID with no space and no tab |
| Interactions.ParseLineOf | branches/RNA_insertion/src/fr/tagc/rainet/core/execution/processing/catrapid/ReadCatrapid.py:184-189 | a line `db` bar `PROT` bar `tag`, a space, then `RNA<tab>score…` parses to (PROT, RNA, score), whatever follows the score field |
| Interactions.NoSpaceRejected | branches/RNA_insertion/src/fr/tagc/rainet/core/execution/processing/catrapid/ReadCatrapid.py:184-187 | a line with no space has no second token and is malformed |
| Interactions.NoBarRejected | branches/RNA_insertion/src/fr/tagc/rainet/core/execution/processing/catrapid/ReadCatrapid.py:186 | a first token with no bar has no second bar-separated field and makes the line malformed |
| Lines.ParseAllIff | branches/RNA_insertion/src/fr/tagc/rainet/core/execution/processing/catrapid/ReadCatrapid.py:163-192 | the whole file is read exactly when every line parses, and then the records are the lines' parses in order |
| Lines.MalformedPrefix | branches/RNA_insertion/src/fr/tagc/rainet/core/execution/processing/catrapid/ReadCatrapid.py:163-192 | one malformed line makes the whole read fail |
| Numbers.ParseDecimalOfString | branches/RNA_insertion/src/fr/tagc/rainet/core/execution/processing/catrapid/ReadCatrapid.py:189 | reading the text of a decimal, with any surrounding blanks, gives the decimal back |
| Numbers.Round1Nearest | branches/RNA_insertion/src/fr/tagc/rainet/core/execution/processing/catrapid/ReadCatrapid.py:190 | `round(score, 1)` in tenths: exact for whole numbers, within half a tenth otherwise, and a tie is rounded away from zero |
| Catrapid.ReadIdFilter | branches/RNA_insertion/src/fr/tagc/rainet/core/execution/processing/catrapid/ReadCatrapid.py:80-102 | no file gives the empty set; otherwise the set is exactly the stripped lines of the file |
| Catrapid.IdFilterOfIds | branches/RNA_insertion/src/fr/tagc/rainet/core/execution/processing/catrapid/ReadCatrapid.py:84-98 | a file whose lines are IDs followed by a line end gives exactly the set of those IDs |
| Catrapid.ReadPairFilter | branches/RNA_insertion/src/fr/tagc/rainet/core/execution/processing/catrapid/ReadCatrapid.py:65-75 | no file gives the empty set; otherwise the set is exactly the keys of the file's lines |
| Catrapid.PairLineKeyOfPair | branches/RNA_insertion/src/fr/tagc/rainet/core/execution/processing/catrapid/ReadCatrapid.py:69 | a pair-file line `PROT<tab>RNA` gives the same key as the one built for that protein and RNA |
| Catrapid.ParseCutoff | branches/RNA_insertion/src/fr/tagc/rainet/core/execution/processing/catrapid/ReadCatrapid.py:122-126 | `OFF` means no cutoff; any other text is its decimal value, and text that is not a number is an error |
| Catrapid.PassesScoreValue | branches/RNA_insertion/src/fr/tagc/rainet/core/execution/processing/catrapid/ReadCatrapid.py:199-200 | with no cutoff every score passes; otherwise a score passes exactly when it is at least the cutoff, so a score equal to it is kept |
| Catrapid.Verdict | branches/RNA_insertion/src/fr/tagc/rainet/core/execution/processing/catrapid/ReadCatrapid.py:129-212 | a record is kept exactly when it passes every stage; each stage that drops it is reached only after the earlier stages passed; an empty allow-set is off |
| Catrapid.StricterKeepsFewer | branches/RNA_insertion/src/fr/tagc/rainet/core/execution/processing/catrapid/ReadCatrapid.py:129-212 | turning on a filter or shrinking an allow-set never adds a survivor |
| Catrapid.SeenIff | branches/RNA_insertion/src/fr/tagc/rainet/core/execution/processing/catrapid/ReadCatrapid.py:194-195 | an ID is in the universe exactly when some parsed line names it, whatever the filters |
| Catrapid.FrequenciesSeen | branches/RNA_insertion/src/fr/tagc/rainet/core/execution/processing/catrapid/ReadCatrapid.py:194-234 | every entity with a histogram is in the universe, so it gets exactly one output row |
| Catrapid.FrequencyIsSurvivorsAt | branches/RNA_insertion/src/fr/tagc/rainet/core/execution/processing/catrapid/ReadCatrapid.py:220-234 | the histogram count of an entity at a rounded score is the number of surviving records with that entity and that rounded score |
| Catrapid.SurvivorTenthsCount | branches/RNA_insertion/src/fr/tagc/rainet/core/execution/processing/catrapid/ReadCatrapid.py:220-234 | the survivors' rounded scores hold each value as often as the histogram counts it |
| Catrapid.MassIsSurvivors | branches/RNA_insertion/src/fr/tagc/rainet/core/execution/processing/catrapid/ReadCatrapid.py:226-304 | the sum of an entity's histogram counts is the number of surviving records that contain it |
| Catrapid.FrequenciesKeys | branches/RNA_insertion/src/fr/tagc/rainet/core/execution/processing/catrapid/ReadCatrapid.py:220-234 | an entity has a histogram exactly when it has a survivor, and then every count in it is positive |
| Catrapid.FrequenciesValid | branches/RNA_insertion/src/fr/tagc/rainet/core/execution/processing/catrapid/ReadCatrapid.py:220-234 | every histogram is non-empty and holds positive counts only |
| Catrapid.HistogramScores | branches/RNA_insertion/src/fr/tagc/rainet/core/execution/processing/catrapid/ReadCatrapid.py:268-297 | the expanded list of a histogram is in ascending order and is a permutation of the survivors' rounded scores |
| Catrapid.DroppedChangesNothing | branches/RNA_insertion/src/fr/tagc/rainet/core/execution/processing/catrapid/ReadCatrapid.py:198-212 | a record that a filter drops changes neither side's histograms |
| Catrapid.AddOccurrence | branches/RNA_insertion/src/fr/tagc/rainet/core/execution/processing/catrapid/ReadCatrapid.py:220-234 | adds one to the count of one score of one entity and changes nothing else |
| Catrapid.Tally | branches/RNA_insertion/src/fr/tagc/rainet/core/execution/processing/catrapid/ReadCatrapid.py:194-234 | after one record the universes and both sides' histograms are those of the records read so far |
| Catrapid.FlushIfDue | branches/RNA_insertion/src/fr/tagc/rainet/core/execution/processing/catrapid/ReadCatrapid.py:167-182 | a flush happens exactly when the number of input lines read is a positive multiple of the batch size; it closes the current shard and opens an empty one |
| Catrapid.Spool | branches/RNA_insertion/src/fr/tagc/rainet/core/execution/processing/catrapid/ReadCatrapid.py:167-216 | after one line the shards hold the kept lines read so far, cut every batch-size input lines |
| Catrapid.ReadLine | branches/RNA_insertion/src/fr/tagc/rainet/core/execution/processing/catrapid/ReadCatrapid.py:163-234 | one step of the reading loop keeps the loop invariant: line count, universes, histograms and shards are those of the lines read so far; a malformed line stops the read with its number |
| Catrapid.ScanLines | branches/RNA_insertion/src/fr/tagc/rainet/core/execution/processing/catrapid/ReadCatrapid.py:154-240 | the reading loop: fails at the first malformed line (with its number) or at the first line when the batch size is 0; otherwise line count, universes, histograms and shards are those of the whole file |
| Catrapid.PiecesAreKeptLines | branches/RNA_insertion/src/fr/tagc/rainet/core/execution/processing/catrapid/ReadCatrapid.py:198-216 | concatenating what each line adds to the buffer gives the surviving lines in input order |
| Catrapid.MergeShards | branches/RNA_insertion/src/fr/tagc/rainet/core/execution/processing/catrapid/ReadCatrapid.py:167-240 | concatenating the shards in number order gives back everything appended to the buffer, for any batch size |
| Catrapid.MergedShardsAreKeptLines | branches/RNA_insertion/src/fr/tagc/rainet/core/execution/processing/catrapid/ReadCatrapid.py:167-240 | the shards in number order concatenate to exactly the surviving lines in input order |
| Catrapid.ShardCount | branches/RNA_insertion/src/fr/tagc/rainet/core/execution/processing/catrapid/ReadCatrapid.py:155-240 | the number of shards is one plus the number of flushes, i.e. `(n - 1) / b + 1` for n input lines (1 for an empty file) |
| Histograms.Bump | branches/RNA_insertion/src/fr/tagc/rainet/core/execution/processing/catrapid/ReadCatrapid.py:224-226 | one more occurrence of one score; every other count unchanged |
| Histograms.ExpandCount | branches/RNA_insertion/src/fr/tagc/rainet/core/execution/processing/catrapid/ReadCatrapid.py:268-297 | the expanded list repeats each score as often as the histogram counts it |
| Histograms.ExpandLength | branches/RNA_insertion/src/fr/tagc/rainet/core/execution/processing/catrapid/ReadCatrapid.py:274-304 | the expanded list is as long as the histogram's mass |
| Histograms.ExpandSorted | branches/RNA_insertion/src/fr/tagc/rainet/core/execution/processing/catrapid/ReadCatrapid.py:268-297 | the expanded list is in ascending order, so the median is taken of a sorted list |
| Histograms.SumPermutation | branches/RNA_insertion/src/fr/tagc/rainet/core/execution/processing/catrapid/ReadCatrapid.py:270-299 | the sum (hence the mean) does not depend on the order of the scores |
| Histograms.AscendingUnique | branches/RNA_insertion/src/fr/tagc/rainet/core/execution/processing/catrapid/ReadCatrapid.py:271-300 | two ascending lists with the same elements are equal, so the median does not depend on the histogram's key order |
| Histograms.StatsOf | branches/RNA_insertion/src/fr/tagc/rainet/core/execution/processing/catrapid/ReadCatrapid.py:268-274 | count is the histogram's mass and is positive; mean is the sum of the expanded scores over ten times the count |
| CatrapidReport.RowMeaning | branches/RNA_insertion/src/fr/tagc/rainet/core/execution/processing/catrapid/ReadCatrapid.py:265-314 | an entity gets a scored row exactly when it has a survivor; the row's count is the number of survivors, its mean is their mean rounded score and its median the median of any ascending arrangement of them |
| CatrapidReport.SentinelColumns | branches/RNA_insertion/src/fr/tagc/rainet/core/execution/processing/catrapid/ReadCatrapid.py:278-314 | an entity with no survivor gets its ID and the filtered tag in all four value columns |
| CatrapidReport.HeaderColumns | branches/RNA_insertion/src/fr/tagc/rainet/core/execution/processing/catrapid/ReadCatrapid.py:263-290 | the two headers have the columns ID, mean, median, std and count |
| CatrapidReport.Summarize | branches/RNA_insertion/src/fr/tagc/rainet/core/execution/processing/catrapid/ReadCatrapid.py:265-318 | one row per entity of the universe, scored when it has a histogram and filtered out otherwise; the mean and count maps have exactly the entities that have a histogram |
| CatrapidReport.SummaryFacts | branches/RNA_insertion/src/fr/tagc/rainet/core/execution/processing/catrapid/ReadCatrapid.py:306-318 | the returned count map has exactly the proteins with a survivor, each with its survivor count, and the mean map their mean rounded score |
| CatrapidReport.Report | branches/RNA_insertion/src/fr/tagc/rainet/core/execution/processing/catrapid/ReadCatrapid.py:242-318 | the outputs (merged file, rows, returned maps) are those the records determine |
| CatrapidReport.ReadCatrapidFile | branches/RNA_insertion/src/fr/tagc/rainet/core/execution/processing/catrapid/ReadCatrapid.py:106-318 | fails exactly on a bad cutoff, a zero batch size with input, or a malformed line; otherwise every output is determined by the filters and the parsed records |
| CatrapidReport.Run | branches/RNA_insertion/src/fr/tagc/rainet/core/execution/processing/catrapid/ReadCatrapid.py:322-330 | the filter files are read first and their sets drive the reading of the catRAPID file |
| CatrapidReport.Listed | branches/RNA_insertion/src/fr/tagc/rainet/core/execution/processing/catrapid/ReadCatrapid.py:247 | the shards in the order the shell lists their file names |
| CatrapidReport.ShardTenBeforeTwo | branches/RNA_insertion/src/fr/tagc/rainet/core/execution/processing/catrapid/ReadCatrapid.py:175-247 | the name of shard 10 sorts before the name of shard 2 |
| CatrapidReport.GlobListsTenBeforeTwo | branches/RNA_insertion/src/fr/tagc/rainet/core/execution/processing/catrapid/ReadCatrapid.py:247 | in name order shard 10 is listed before shard 2 |
| CatrapidReport.GlobMergeMisorders | branches/RNA_insertion/src/fr/tagc/rainet/core/execution/processing/catrapid/ReadCatrapid.py:245-248 | with ten or more distinct shards of equal length, the merge in name order differs from the merge in number order |
| EnrichmentSelection.ParseRatioFilter | branches/RNA_insertion/src/fr/tagc/rainet/core/execution/analysis/EnrichmentAnalysis/FilterEnrichmentResults.py:633-634 | `OFF` switches the ratio filter off; any other text must be a number |
| EnrichmentSelection.ParsePerRnaOfLine | branches/RNA_insertion/src/fr/tagc/rainet/core/execution/analysis/EnrichmentAnalysis/FilterEnrichmentResults.py:117-121 | a line of exactly six tab fields, with numbers in the second and third, parses to its transcript, observed and random counts and significance flag |
| EnrichmentSelection.ParsePerRnaFieldCount | branches/RNA_insertion/src/fr/tagc/rainet/core/execution/analysis/EnrichmentAnalysis/FilterEnrichmentResults.py:121 | a line with any other number of fields is malformed |
| EnrichmentSelection.RatioBelowIsQuotientBelow | branches/RNA_insertion/src/fr/tagc/rainet/core/execution/analysis/EnrichmentAnalysis/FilterEnrichmentResults.py:134-146 | the ratio test is observed / random < minimum, with the near-zero constant as divisor when random is zero |
| EnrichmentSelection.PassesMeaning | branches/RNA_insertion/src/fr/tagc/rainet/core/execution/analysis/EnrichmentAnalysis/FilterEnrichmentResults.py:125-150 | a transcript is selected exactly when its flag is not `0` and either the ratio filter is off or its ratio is not below the minimum |
| EnrichmentSelection.PoolIff | branches/RNA_insertion/src/fr/tagc/rainet/core/execution/analysis/EnrichmentAnalysis/FilterEnrichmentResults.py:123 | every transcript read is in the pool |
| EnrichmentSelection.SelectedIff | branches/RNA_insertion/src/fr/tagc/rainet/core/execution/analysis/EnrichmentAnalysis/FilterEnrichmentResults.py:148-150 | a transcript is selected exactly when one of its lines passes both filters |
| EnrichmentSelection.SelectedInPool | branches/RNA_insertion/src/fr/tagc/rainet/core/execution/analysis/EnrichmentAnalysis/FilterEnrichmentResults.py:123-150 | the selected transcripts are in the pool |
| EnrichmentSelection.CountBounds | branches/RNA_insertion/src/fr/tagc/rainet/core/execution/analysis/EnrichmentAnalysis/FilterEnrichmentResults.py:110-146 | selected ≤ above-random count ≤ lines; the ratio-passed count is 0 when the filter is off |
| EnrichmentSelection.SumsAreTotals | branches/RNA_insertion/src/fr/tagc/rainet/core/execution/analysis/EnrichmentAnalysis/FilterEnrichmentResults.py:155-165 | the real and random totals are the sums of the observed and random counts of all lines |
| EnrichmentSelection.Tally | branches/RNA_insertion/src/fr/tagc/rainet/core/execution/analysis/EnrichmentAnalysis/FilterEnrichmentResults.py:117-160 | one line moves the counters, sets and sums to those of the lines read so far |
| EnrichmentSelection.ReadPerRna | branches/RNA_insertion/src/fr/tagc/rainet/core/execution/analysis/EnrichmentAnalysis/FilterEnrichmentResults.py:117-160 | one loop step: a malformed line stops the read; otherwise the state is that of the lines read so far |
| EnrichmentSelection.ScanPerRna | branches/RNA_insertion/src/fr/tagc/rainet/core/execution/analysis/EnrichmentAnalysis/FilterEnrichmentResults.py:113-160 | the loop reads every line or stops at the first malformed one, whose index it returns |
| EnrichmentSelection.ReadEnrichmentPerRnaFile | branches/RNA_insertion/src/fr/tagc/rainet/core/execution/analysis/EnrichmentAnalysis/FilterEnrichmentResults.py:91-188 | the header is skipped; the selection is that of all the other lines, or the number of the first malformed line |
| EnrichmentResults.ParseRecord | branches/RNA_insertion/src/fr/tagc/rainet/core/execution/analysis/EnrichmentAnalysis/FilterEnrichmentResults.py:236-251 | a line whose transcript is not selected is skipped before any other field is read; a kept record carries the transcript and the stripped line |
| EnrichmentResults.Cell | branches/RNA_insertion/src/fr/tagc/rainet/core/execution/analysis/EnrichmentAnalysis/FilterEnrichmentResults.py:251-262 | with the warning filter off the value is the chosen column; with it on, the value is kept for a kept line and replaced by the warning value otherwise |
| EnrichmentResults.CountsAddUp | branches/RNA_insertion/src/fr/tagc/rainet/core/execution/analysis/EnrichmentAnalysis/FilterEnrichmentResults.py:236-240 | skipped lines plus tested lines are all the lines |
| EnrichmentResults.PairMapKeys | branches/RNA_insertion/src/fr/tagc/rainet/core/execution/analysis/EnrichmentAnalysis/FilterEnrichmentResults.py:267-269 | the pair map has exactly one key (transcript, bar, annotation) per tested line |
| EnrichmentResults.PairMapValues | branches/RNA_insertion/src/fr/tagc/rainet/core/execution/analysis/EnrichmentAnalysis/FilterEnrichmentResults.py:267-269 | each key maps to its line's cell value, and the map has as many entries as tested lines |
| EnrichmentResults.RnasIff | branches/RNA_insertion/src/fr/tagc/rainet/core/execution/analysis/EnrichmentAnalysis/FilterEnrichmentResults.py:277 | the RNA set is exactly the transcripts of tested lines |
| EnrichmentResults.AnnotsIff | branches/RNA_insertion/src/fr/tagc/rainet/core/execution/analysis/EnrichmentAnalysis/FilterEnrichmentResults.py:278 | the annotation set is exactly the annotations of tested lines |
| EnrichmentResults.AnnotValuesIff | branches/RNA_insertion/src/fr/tagc/rainet/core/execution/analysis/EnrichmentAnalysis/FilterEnrichmentResults.py:273-275 | an annotation has a value list exactly when it was tested, and the list holds its lines' cell values |
| EnrichmentResults.CountAll | branches/RNA_insertion/src/fr/tagc/rainet/core/execution/analysis/EnrichmentAnalysis/FilterEnrichmentResults.py:284 | a value occurs in a list as often as its length exactly when every element is that value |
| EnrichmentResults.NonEnrichedIff | branches/RNA_insertion/src/fr/tagc/rainet/core/execution/analysis/EnrichmentAnalysis/FilterEnrichmentResults.py:282-285 | an annotation is non-enriched exactly when every one of its values is the warning value |
| EnrichmentResults.RetainedIff | branches/RNA_insertion/src/fr/tagc/rainet/core/execution/analysis/EnrichmentAnalysis/FilterEnrichmentResults.py:254-289 | a line is retained exactly when the warning filter is on and the line is kept; the retained count plus the below-minimum count is at most the tested count |
| EnrichmentResults.DistinctSnoc | branches/RNA_insertion/src/fr/tagc/rainet/core/execution/analysis/EnrichmentAnalysis/FilterEnrichmentResults.py:267-271 | appending a record to distinct pair keys keeps them distinct exactly when the record is skipped or its key is new |
| EnrichmentResults.DuplicateBlocks | branches/RNA_insertion/src/fr/tagc/rainet/core/execution/analysis/EnrichmentAnalysis/FilterEnrichmentResults.py:267-271 | a repeated pair key makes the read fail |
| EnrichmentResults.Step | branches/RNA_insertion/src/fr/tagc/rainet/core/execution/analysis/EnrichmentAnalysis/FilterEnrichmentResults.py:233-278 | one line moves the loop state to that of the records read so far |
| EnrichmentResults.ScanResults | branches/RNA_insertion/src/fr/tagc/rainet/core/execution/analysis/EnrichmentAnalysis/FilterEnrichmentResults.py:233-278 | reads every line, or stops at the first malformed line or the first repeated pair, with its line number; the state is that of all records |
| EnrichmentResults.WriteFiltered | branches/RNA_insertion/src/fr/tagc/rainet/core/execution/analysis/EnrichmentAnalysis/FilterEnrichmentResults.py:229-265 | the filtered file is the header followed by each retained line and a line end |
| EnrichmentResults.ReadEnrichmentResultsFile | branches/RNA_insertion/src/fr/tagc/rainet/core/execution/analysis/EnrichmentAnalysis/FilterEnrichmentResults.py:193-289 | the state and filtered text of the whole file, or the error of the first bad line |
| EnrichmentMatrix.ProductSize | branches/RNA_insertion/src/fr/tagc/rainet/core/execution/analysis/EnrichmentAnalysis/FilterEnrichmentResults.py:295 | the pairs drawn from n RNAs and m annotations are at most n·m |
| EnrichmentMatrix.PairKeysInProduct | branches/RNA_insertion/src/fr/tagc/rainet/core/execution/analysis/EnrichmentAnalysis/FilterEnrichmentResults.py:267-295 | every pair key joins a known RNA and a known annotation |
| EnrichmentMatrix.PairKeysFill | branches/RNA_insertion/src/fr/tagc/rainet/core/execution/analysis/EnrichmentAnalysis/FilterEnrichmentResults.py:295 | when the pair count is the product of the set sizes, the keys are all RNA × annotation combinations |
| EnrichmentMatrix.MatrixComplete | branches/RNA_insertion/src/fr/tagc/rainet/core/execution/analysis/EnrichmentAnalysis/FilterEnrichmentResults.py:295-350 | when the count check passes, every matrix cell has a value |
| EnrichmentMatrix.MatrixLineFields | branches/RNA_insertion/src/fr/tagc/rainet/core/execution/analysis/EnrichmentAnalysis/FilterEnrichmentResults.py:337-353 | the header line splits into `RNAs` and the columns; a row line splits into the RNA and its cells in column order |
| EnrichmentMatrix.WriteHeader | branches/RNA_insertion/src/fr/tagc/rainet/core/execution/analysis/EnrichmentAnalysis/FilterEnrichmentResults.py:337-340 | writes `RNAs`, then a tab and each column, then a line end |
| EnrichmentMatrix.WriteRow | branches/RNA_insertion/src/fr/tagc/rainet/core/execution/analysis/EnrichmentAnalysis/FilterEnrichmentResults.py:343-353 | a row is written exactly when every cell has a value; otherwise no data for the pair |
| EnrichmentMatrix.MatrixSnoc | branches/RNA_insertion/src/fr/tagc/rainet/core/execution/analysis/EnrichmentAnalysis/FilterEnrichmentResults.py:343-353 | each row adds its line to the matrix text |
| EnrichmentMatrix.WriteMatrix | branches/RNA_insertion/src/fr/tagc/rainet/core/execution/analysis/EnrichmentAnalysis/FilterEnrichmentResults.py:336-353 | the matrix text is written exactly when every cell has a value |
| EnrichmentMatrix.Keep | branches/RNA_insertion/src/fr/tagc/rainet/core/execution/analysis/EnrichmentAnalysis/FilterEnrichmentResults.py:331-334 | the kept items are exactly those with an annotation, in list order |
| EnrichmentMatrix.KeepSorted | branches/RNA_insertion/src/fr/tagc/rainet/core/execution/analysis/EnrichmentAnalysis/FilterEnrichmentResults.py:306-334 | keeping only annotated items leaves a sorted list sorted |
| EnrichmentMatrix.AnnotationFileFor | branches/RNA_insertion/src/fr/tagc/rainet/core/execution/analysis/EnrichmentAnalysis/FilterEnrichmentResults.py:313-325 | an annotation file is written exactly when the dictionary is non-empty, and then it describes the labels; with a palette free of repeats it fails exactly when an item has an empty annotation set or the distinct labels outnumber the colours |
| EnrichmentMatrix.LayOut | branches/RNA_insertion/src/fr/tagc/rainet/core/execution/analysis/EnrichmentAnalysis/FilterEnrichmentResults.py:306-334 | the row file fails exactly when it cannot be written; otherwise the column file fails exactly when it cannot be written; with both written, the no-annotation filter fails exactly when a non-empty row (column) list has no row (column) dictionary, where the code tests membership in `None`; otherwise the rows and columns kept come from the sorted lists |
| EnrichmentMatrix.LayoutSorted | branches/RNA_insertion/src/fr/tagc/rainet/core/execution/analysis/EnrichmentAnalysis/FilterEnrichmentResults.py:282-334 | rows and columns are sorted without repeats; the columns are exactly the enriched annotations when nothing is filtered |
| EnrichmentMatrix.WriteMatrixFiles | branches/RNA_insertion/src/fr/tagc/rainet/core/execution/analysis/EnrichmentAnalysis/FilterEnrichmentResults.py:295-366 | fails with the pair-count error exactly when the pair count is not the product of the transcript and annotation counts; then with the row, column or missing-list error exactly when the layout of the sorted transcripts and enriched annotations fails so; succeeds exactly when all of these can be written, and then the matrix is complete and written, and the summary counts the retained lines, columns and rows |
| StringOrder.Sort | branches/RNA_insertion/src/fr/tagc/rainet/core/execution/analysis/EnrichmentAnalysis/FilterEnrichmentResults.py:306-307 | `sorted()` of a set: strictly ascending and holding exactly the set |
| Specificity.SplitKey | branches/RNA_insertion/src/fr/tagc/rainet/core/execution/analysis/EnrichmentAnalysis/FilterEnrichmentResults.py:382 | a key splits exactly when it has exactly one bar, into the parts around it |
| Specificity.KeyRoundTrip | branches/RNA_insertion/src/fr/tagc/rainet/core/execution/analysis/EnrichmentAnalysis/FilterEnrichmentResults.py:382 | splitting a key built from a transcript and an annotation gives them back |
| Specificity.EnrichedIff | branches/RNA_insertion/src/fr/tagc/rainet/core/execution/analysis/EnrichmentAnalysis/FilterEnrichmentResults.py:381-384 | a pair counts exactly when its key is in the map with a value other than the warning value |
| Specificity.TalliedStep | branches/RNA_insertion/src/fr/tagc/rainet/core/execution/analysis/EnrichmentAnalysis/FilterEnrichmentResults.py:386-394 | adding a pair to the dictionaries keeps each list's size and contents those of the enrichments counted so far |
| Specificity.TallyEnrichments | branches/RNA_insertion/src/fr/tagc/rainet/core/execution/analysis/EnrichmentAnalysis/FilterEnrichmentResults.py:381-394 | fails exactly when some key is not a pair; otherwise each transcript's and annotation's list holds its enrichments |
| Specificity.RankAtLeastTwo | branches/RNA_insertion/src/fr/tagc/rainet/core/execution/analysis/EnrichmentAnalysis/FilterEnrichmentResults.py:403 | every counted pair has rank at least two |
| Specificity.TalliedCounts | branches/RNA_insertion/src/fr/tagc/rainet/core/execution/analysis/EnrichmentAnalysis/FilterEnrichmentResults.py:403 | the rank read from the dictionaries is transcript enrichments plus annotation enrichments |
| Specificity.BucketByRank | branches/RNA_insertion/src/fr/tagc/rainet/core/execution/analysis/EnrichmentAnalysis/FilterEnrichmentResults.py:399-407 | every counted pair is in the bucket of its rank, once |
| Specificity.BucketRanks | branches/RNA_insertion/src/fr/tagc/rainet/core/execution/analysis/EnrichmentAnalysis/FilterEnrichmentResults.py:405-407 | a bucket holds counted pairs of its rank only |
| Specificity.EmitOrdered | branches/RNA_insertion/src/fr/tagc/rainet/core/execution/analysis/EnrichmentAnalysis/FilterEnrichmentResults.py:421-423 | emitting the next rank's bucket keeps the output repeat-free and in non-decreasing rank |
| Specificity.OrderByRank | branches/RNA_insertion/src/fr/tagc/rainet/core/execution/analysis/EnrichmentAnalysis/FilterEnrichmentResults.py:421-423 | the pairs come out once each, in non-decreasing rank |
| Specificity.RowOf | branches/RNA_insertion/src/fr/tagc/rainet/core/execution/analysis/EnrichmentAnalysis/FilterEnrichmentResults.py:426 | a row's two counts add up to the pair's rank and are positive for a counted pair |
| Specificity.RankLineFields | branches/RNA_insertion/src/fr/tagc/rainet/core/execution/analysis/EnrichmentAnalysis/FilterEnrichmentResults.py:426 | a ranking line splits into transcript, annotation and the two counts |
| Specificity.WriteRanking | branches/RNA_insertion/src/fr/tagc/rainet/core/execution/analysis/EnrichmentAnalysis/FilterEnrichmentResults.py:417-428 | the ranking file is the header and one line per ranked pair, in order |
| Specificity.RankBySpecificity | branches/RNA_insertion/src/fr/tagc/rainet/core/execution/analysis/EnrichmentAnalysis/FilterEnrichmentResults.py:375-430 | fails exactly when a key is not a pair; otherwise every counted pair is ranked once, in non-decreasing rank, and the dictionaries hold each side's enrichments |
| Specificity.Verdict | branches/RNA_insertion/src/fr/tagc/rainet/core/execution/analysis/EnrichmentAnalysis/FilterEnrichmentResults.py:533-548 | a line missing its second field is an error; a line is kept exactly when each limit is off (-1) or the count is within it |
| Specificity.ScreenMeaning | branches/RNA_insertion/src/fr/tagc/rainet/core/execution/analysis/EnrichmentAnalysis/FilterEnrichmentResults.py:525-548 | screening succeeds exactly when every line has a verdict, and then keeps exactly the passing lines in order |
| Specificity.ScreenTallied | branches/RNA_insertion/src/fr/tagc/rainet/core/execution/analysis/EnrichmentAnalysis/FilterEnrichmentResults.py:525-548 | the screening gives the same result for any two tallies of the same enrichments |
| Specificity.VerdictTallied | branches/RNA_insertion/src/fr/tagc/rainet/core/execution/analysis/EnrichmentAnalysis/FilterEnrichmentResults.py:533-548 | the verdict on a line is the same for any two tallies of the same enrichments |
| Specificity.ScreenRaisesIff | branches/RNA_insertion/src/fr/tagc/rainet/core/execution/analysis/EnrichmentAnalysis/FilterEnrichmentResults.py:525-548 | the screening raises for one tally exactly when it raises for every tally of the same enrichments |
| Specificity.LimitsOffKeepAll | branches/RNA_insertion/src/fr/tagc/rainet/core/execution/analysis/EnrichmentAnalysis/FilterEnrichmentResults.py:539-540 | with both limits off every line is kept |
| Specificity.LooserKeepsMore | branches/RNA_insertion/src/fr/tagc/rainet/core/execution/analysis/EnrichmentAnalysis/FilterEnrichmentResults.py:538-548 | each limit at least as loose (off, or on and no smaller) keeps every line the stricter limits keep, including the -1 (off) default for either limit |
| Specificity.Tick | branches/RNA_insertion/src/fr/tagc/rainet/core/execution/analysis/EnrichmentAnalysis/FilterEnrichmentResults.py:539-548 | a kept line is written with a line end; a dropped one adds one to the not-passing count |
| Specificity.FilterBySpecificity | branches/RNA_insertion/src/fr/tagc/rainet/core/execution/analysis/EnrichmentAnalysis/FilterEnrichmentResults.py:516-552 | the header is always written, then the kept lines; the not-passing count is the number of dropped lines |
| MatrixAnnotations.ParseEntry | branches/RNA_insertion/src/fr/tagc/rainet/core/execution/analysis/EnrichmentAnalysis/FilterEnrichmentResults.py:500-503 | an entry's ID and annotation are tab-free |
| MatrixAnnotations.ParseEntryOfLine | branches/RNA_insertion/src/fr/tagc/rainet/core/execution/analysis/EnrichmentAnalysis/FilterEnrichmentResults.py:500-503 | a line `ID<tab>annotation…`, with blanks around it, parses to that ID and annotation |
| MatrixAnnotations.ParseEntryNoTab | branches/RNA_insertion/src/fr/tagc/rainet/core/execution/analysis/EnrichmentAnalysis/FilterEnrichmentResults.py:503 | a line with no tab is malformed |
| MatrixAnnotations.AnnotationDictIff | branches/RNA_insertion/src/fr/tagc/rainet/core/execution/analysis/EnrichmentAnalysis/FilterEnrichmentResults.py:505-507 | an ID is in the dictionary exactly when some line names it, and its set holds exactly the annotations of those lines |
| MatrixAnnotations.AnnotationSetsNonEmpty | branches/RNA_insertion/src/fr/tagc/rainet/core/execution/analysis/EnrichmentAnalysis/FilterEnrichmentResults.py:505-507 | no ID has an empty annotation set |
| MatrixAnnotations.ReadAnnotationFile | branches/RNA_insertion/src/fr/tagc/rainet/core/execution/analysis/EnrichmentAnalysis/FilterEnrichmentResults.py:494-511 | the dictionary of all lines, or the number of the first malformed line |
| MatrixAnnotations.LabelsSpec | branches/RNA_insertion/src/fr/tagc/rainet/core/execution/analysis/EnrichmentAnalysis/FilterEnrichmentResults.py:448-461 | position by position, the label list holds the label of each item |
| MatrixAnnotations.LabelMeaning | branches/RNA_insertion/src/fr/tagc/rainet/core/execution/analysis/EnrichmentAnalysis/FilterEnrichmentResults.py:450-461 | when sets are listed each member once: an item the dictionary lacks gets the no-annotation tag; several annotations with masking on give the overlap tag; a single annotation is the label; otherwise, for comma-free annotations, the label split at commas lists exactly the item's annotations |
| MatrixAnnotations.LabelsMeaning | branches/RNA_insertion/src/fr/tagc/rainet/core/execution/analysis/EnrichmentAnalysis/FilterEnrichmentResults.py:448-461 | the same, at every position of the label list of the sorted items |
| MatrixAnnotations.PalettesDistinct | branches/RNA_insertion/src/fr/tagc/rainet/core/execution/analysis/EnrichmentAnalysis/FilterEnrichmentResults.py:55-56 | neither palette repeats a colour |
| MatrixAnnotations.DistinctSpec | branches/RNA_insertion/src/fr/tagc/rainet/core/execution/analysis/EnrichmentAnalysis/FilterEnrichmentResults.py:463-469 | the categories are the labels in order of first appearance, without repeats |
| MatrixAnnotations.ColourInjective | branches/RNA_insertion/src/fr/tagc/rainet/core/execution/analysis/EnrichmentAnalysis/FilterEnrichmentResults.py:463-469 | distinct categories get distinct colours when the palette has no repeats |
| MatrixAnnotations.ColoursOfSpec | branches/RNA_insertion/src/fr/tagc/rainet/core/execution/analysis/EnrichmentAnalysis/FilterEnrichmentResults.py:476 | each shown label gets its category's colour |
| MatrixAnnotations.DistinctColourCount | branches/RNA_insertion/src/fr/tagc/rainet/core/execution/analysis/EnrichmentAnalysis/FilterEnrichmentResults.py:480 | there are as many distinct colours as distinct labels |
| MatrixAnnotations.ShownLabelsIff | branches/RNA_insertion/src/fr/tagc/rainet/core/execution/analysis/EnrichmentAnalysis/FilterEnrichmentResults.py:471-477 | a label is shown exactly when the no-annotation filter is off or it is not the no-annotation tag |
| MatrixAnnotations.ShownItemsIff | branches/RNA_insertion/src/fr/tagc/rainet/core/execution/analysis/EnrichmentAnalysis/FilterEnrichmentResults.py:471-490 | the returned set is exactly the items whose label is shown |
| MatrixAnnotations.ColourLineMeaning | branches/RNA_insertion/src/fr/tagc/rainet/core/execution/analysis/EnrichmentAnalysis/FilterEnrichmentResults.py:484-485 | the colour line gives the colour of each shown label, each category taking the palette colour at its first appearance, including filtered categories |
| MatrixAnnotations.ExplainsExcludes | branches/RNA_insertion/src/fr/tagc/rainet/core/execution/analysis/EnrichmentAnalysis/FilterEnrichmentResults.py:458-480 | each error happens only for its cause: an empty annotation set, more categories than colours, or a palette with repeats |
| MatrixAnnotations.LabelStep | branches/RNA_insertion/src/fr/tagc/rainet/core/execution/analysis/EnrichmentAnalysis/FilterEnrichmentResults.py:448-480 | one item: label it, give a new category the next colour, append the shown label and colour |
| MatrixAnnotations.LabelItems | branches/RNA_insertion/src/fr/tagc/rainet/core/execution/analysis/EnrichmentAnalysis/FilterEnrichmentResults.py:448-480 | the loop labels every item or stops at the first error, with its cause |
| MatrixAnnotations.WriteMatrixAnnotationFile | branches/RNA_insertion/src/fr/tagc/rainet/core/execution/analysis/EnrichmentAnalysis/FilterEnrichmentResults.py:436-490 | succeeds exactly when every item is labelled, the categories fit the palette and the colours agree; the file holds the shown labels and their colours |
| FilterEnrichment.ReadOptionalAnnotation | branches/RNA_insertion/src/fr/tagc/rainet/core/execution/analysis/EnrichmentAnalysis/FilterEnrichmentResults.py:556-564 | no file name gives the empty dictionary; otherwise the dictionary of the file |
| FilterEnrichment.ReadEnrichmentResults | branches/RNA_insertion/src/fr/tagc/rainet/core/execution/analysis/EnrichmentAnalysis/FilterEnrichmentResults.py:193-370 | the reading fails exactly when a line after the header does not read or a pair repeats; the matrix step fails exactly when its files cannot be written; otherwise the header, the state of all records, the filtered text, and matrix files laid out for the sorted transcripts and enriched annotations, complete, with the summary of the counts |
| FilterEnrichment.Run | branches/RNA_insertion/src/fr/tagc/rainet/core/execution/analysis/EnrichmentAnalysis/FilterEnrichmentResults.py:554-576 | each reading error exactly when its file is unreadable after the earlier files were read; after them, what ProcessResults states for the selection of the per-RNA file and the dictionaries read (empty when no file is named) |
| FilterEnrichment.ProcessResults | branches/RNA_insertion/src/fr/tagc/rainet/core/execution/analysis/EnrichmentAnalysis/FilterEnrichmentResults.py:569-576 | each error exactly when its step fails after the earlier ones succeeded: unreadable results, unwritable matrix files, a pair key without a bar, a line whose test raises; on success the state of the results for the selection, the laid-out matrix files, every enriched pair ranked once in non-decreasing rank with its row and the rank file text, both dictionaries tallied from the enriched pairs, and the filtered file of the header and the retained lines that pass the limits on those tallies |
| FilterEnrichment.ScreenedDetermined | branches/RNA_insertion/src/fr/tagc/rainet/core/execution/analysis/EnrichmentAnalysis/FilterEnrichmentResults.py:516-552 | two outcomes with the same results have the same filtered file and count of lines filtered out, whatever order the ranking took |
| TargetRatio.ParseTypeLine | branches/RNA_insertion/src/fr/tagc/rainet/core/execution/analysis/lncRNA_vs_mRNA/protein_target_ratio.py:53-55 | the ID and type of an entry are quote-free |
| TargetRatio.ParseTypeLineOfLine | branches/RNA_insertion/src/fr/tagc/rainet/core/execution/analysis/lncRNA_vs_mRNA/protein_target_ratio.py:45-57 | a line `"ID","kind","TYPE"` parses to that ID and type |
| TargetRatio.TypeMapKeys | branches/RNA_insertion/src/fr/tagc/rainet/core/execution/analysis/lncRNA_vs_mRNA/protein_target_ratio.py:51-57 | a transcript has a type exactly when some line names it |
| TargetRatio.TypeMapLast | branches/RNA_insertion/src/fr/tagc/rainet/core/execution/analysis/lncRNA_vs_mRNA/protein_target_ratio.py:57 | a transcript's type is that of the last line naming it |
| TargetRatio.ReadTranscriptTypes | branches/RNA_insertion/src/fr/tagc/rainet/core/execution/analysis/lncRNA_vs_mRNA/protein_target_ratio.py:43-61 | the type map of all lines, or the number of the first malformed line |
| TargetRatio.TypeStatsCounts | branches/RNA_insertion/src/fr/tagc/rainet/core/execution/analysis/lncRNA_vs_mRNA/protein_target_ratio.py:102-114 | `typeStats[p][t]` is the number of lines with protein p whose target has type t; the entry exists exactly when that number is positive; p has an entry exactly when it is in the protein set |
| TargetRatio.ProteinsIff | branches/RNA_insertion/src/fr/tagc/rainet/core/execution/analysis/lncRNA_vs_mRNA/protein_target_ratio.py:116 | a protein is in the protein set exactly when some line pairs it with a typed target |
| TargetRatio.TranscriptsIff | branches/RNA_insertion/src/fr/tagc/rainet/core/execution/analysis/lncRNA_vs_mRNA/protein_target_ratio.py:95-117 | a target is in the transcript set exactly when it is named and typed, in the missing set exactly when it is named and untyped |
| TargetRatio.ByTypeIff | branches/RNA_insertion/src/fr/tagc/rainet/core/execution/analysis/lncRNA_vs_mRNA/protein_target_ratio.py:108-111 | `transcriptSetType[t]` holds exactly the seen targets of type t |
| TargetRatio.UnknownChangesNothing | branches/RNA_insertion/src/fr/tagc/rainet/core/execution/analysis/lncRNA_vs_mRNA/protein_target_ratio.py:84-100 | a line with an untyped target only counts as a line and adds the target to the missing set |
| TargetRatio.InteractionsAreTargets | branches/RNA_insertion/src/fr/tagc/rainet/core/execution/analysis/lncRNA_vs_mRNA/protein_target_ratio.py:102-114 | with no repeated (protein, target) line, a count is the number of distinct targets of that type |
| TargetRatio.Count | branches/RNA_insertion/src/fr/tagc/rainet/core/execution/analysis/lncRNA_vs_mRNA/protein_target_ratio.py:84-117 | one line moves the counters and sets to those of the lines read so far |
| TargetRatio.ScanInteractions | branches/RNA_insertion/src/fr/tagc/rainet/core/execution/analysis/lncRNA_vs_mRNA/protein_target_ratio.py:80-117 | the counts of all lines, or the index of the first malformed one |
| TargetRatio.CountTargets | branches/RNA_insertion/src/fr/tagc/rainet/core/execution/analysis/lncRNA_vs_mRNA/protein_target_ratio.py:78-117 | the counts of the whole file, the line counter counting every line, skipped ones included; or the number of the first malformed line |
| TargetRatio.RowOf | branches/RNA_insertion/src/fr/tagc/rainet/core/execution/analysis/lncRNA_vs_mRNA/protein_target_ratio.py:138-165 | missing counts default to 0; the ratio is absent exactly when there is no lncRNA target; the table is the 2×2 contingency table; a type missing from the file is an error |
| TargetRatio.TableNonNegative | branches/RNA_insertion/src/fr/tagc/rainet/core/execution/analysis/lncRNA_vs_mRNA/protein_target_ratio.py:162-165 | with no repeated line each table cell is non-negative and each row adds up to the number of targets of its type |
| TargetRatio.AddRow | branches/RNA_insertion/src/fr/tagc/rainet/core/execution/analysis/lncRNA_vs_mRNA/protein_target_ratio.py:138-165 | one protein's row added, the rows so far being those of their proteins; fails exactly when a biotype of the table has no transcript, naming the lncRNA type first |
| TargetRatio.TargetRows | branches/RNA_insertion/src/fr/tagc/rainet/core/execution/analysis/lncRNA_vs_mRNA/protein_target_ratio.py:138-165 | one row per protein of `typeStats`; fails exactly when there is a protein and a biotype of the table has no transcript, naming the lncRNA type when both are missing |
| TargetRatio.ReadInteractionFile | branches/RNA_insertion/src/fr/tagc/rainet/core/execution/analysis/lncRNA_vs_mRNA/protein_target_ratio.py:64-165 | an unreadable-line error exactly when a line does not read; otherwise the counts of all lines and a row for every protein, or the missing type, lncRNA first |
| TargetRatio.ProteinTargetRatio | branches/RNA_insertion/src/fr/tagc/rainet/core/execution/analysis/lncRNA_vs_mRNA/protein_target_ratio.py:282-285 | an unreadable types file exactly when one of its lines lacks a third field; otherwise the interaction file read with the type map of that file |

Points where the model follows the code literally, rather than what a reader of the scripts' design might expect:
- Rounding is Python 2's `round`, which rounds a tie away from zero (`Numbers.Round1`), not half to even.
- A flush is due on the count of *input* lines read, filtered or not, not on the count of surviving records.
- A zero batch size makes the first line fail (`x % 0` raises); a negative one flushes at multiples of its absolute value.
- The ratio for a zero random count divides by the constant `1e-42` (`EnrichmentSelection.Divisor`). It is kept as that exact decimal, and `RatioBelowIsQuotientBelow` states the comparison it makes. It is not turned into an "undefined" case.
- `CatrapidReport.GlobMerge` models the script's name-order merge; the outputs use the number-order merge (see Findings).

## Left out

- File and process I/O. The scripts' files are modelled as sequences of lines, and output files as the texts written. Not modelled:
  - `open`/`write`/`close` and output folder names;
  - the shell `cat` and `rm` of the shards (modelled as concatenation; see Findings);
  - `Logger`, `Timer`, `print` (including the progress message every 10,000,000 lines) and the argparse `__main__` blocks.
- Floating point. Scores and counts are exact decimals, and `float()` is modelled on decimal literals only (sign, digits, optional point and digits, surrounding blanks). Exponents, `inf` and `nan` texts are not accepted.
- Numbers.Round1: rounds the exact decimal. Python 2's `round` works on the nearest binary double, so a tie that is not exact in binary (such as 2.675) can round the other way there.
- Statistics. numpy's standard deviation is not modelled. Mean and median are exact fractions over the rounded scores (`Histograms.StatsOf`), and the `%.2f` formatting of mean, median, std and ratio is not modelled.
- CatrapidReport.Summarize: produces the rows as maps from entity to row. The order in which a Python set lists the entities, which is the file's row order, is not modelled.
- Iteration orders of Python dicts and sets.
  - In `rank_by_specificity`, the pair map is read in an unspecified order (modelled as an arbitrary choice). Only the facts that do not depend on that order are stated: which pairs are ranked, the rank order, and the list sizes and contents.
  - In `_write_matrix_annotation_file`, `",".join(list(set))` lists each item's annotations in the iteration order of that item's set, which can depend on the order the members were added. The model takes that order as the `listing` parameter, a function of the item and its set, so two items with equal sets may be listed differently. It requires only that each set be listed exactly, each member once (`MatrixAnnotations.ListsSets`); the order itself is not modelled.
  - In `protein_target_ratio.py`, rows are a map from protein to row.
- Statistical tests in `protein_target_ratio.py`:
  - `fisher_exact_test`, `multiple_test_correction` and `correct_pvalues` (scipy and statsmodels) are calls into libraries that are not part of this model. The model stops at the contingency table.
  - The per-protein row's odds ratio, p-value and significance columns are left out.
- TargetRatio: the interaction-file score field is parsed as in `ReadCatrapid.py` (a decimal literal), and its value is otherwise unused.
- The ORM data classes (`RNA.py`, `ProteinBioplexAnnotation.py`) and the rest of the repository are not part of this model.
- The script objects are modelled on values rather than as classes:
  - the settings are parameters;
  - each loop is a method over a record of its variables (`Catrapid.Reader`, `EnrichmentResults.ResultsState`, `TargetRatio.Counts`).
- MatrixAnnotations.WriteMatrixAnnotationFile: reports a label whose colour list disagrees only as `ColoursDisagree`. That outcome is proved possible only with a palette that has repeats, which the script's fixed palettes do not have.

## Findings

| source | as written | input that shows it | evidently intended | confidence | as-written member | corrected member |
|---|---|---|---|---|---|---|
| branches/RNA_insertion/src/fr/tagc/rainet/core/execution/processing/catrapid/ReadCatrapid.py:247 | `cat temp_storedInteractions_*` merges the shards in the order the shell lists their names. `_10.tsv` sorts before `_2.tsv`, so from the tenth shard on the merged file is out of input order. | ten or more shards of equal length and distinct content, e.g. batch size 1 and ten surviving lines of the same length | the shards concatenated in number order, giving exactly the surviving lines in input order | not executed | CatrapidReport.GlobMergeMisorders | Catrapid.MergedShardsAreKeptLines |

`CatrapidReport.GlobMerge` models the merge as written: the shards in the order of their listed names. `ShardTenBeforeTwo` and `GlobListsTenBeforeTwo` show that in that order shard 10 comes before shard 2, and `GlobMergeMisorders` proves that the result then differs from the number-order merge. The model's outputs use `CatrapidReport.MergeInNumberOrder` instead. `Catrapid.MergedShardsAreKeptLines` proves that this merge is exactly the surviving lines in input order, for every batch size.
