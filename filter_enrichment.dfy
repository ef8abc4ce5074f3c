/**
  The whole of the enrichment filtering: the optional annotation files of rows and columns, the
  selection of transcripts, the reading of the results with its matrix files, the specificity
  ranking of the enriched pairs and the filtering of the retained lines by specificity.
  Files are given as their lines; a file name that is the empty text means no file.
 */
module FilterEnrichment {
  import opened Results
  import opened Text
  import opened Numbers
  import opened Lines
  import MatrixAnnotations
  import EnrichmentSelection
  import opened EnrichmentResults
  import EnrichmentMatrix
  import Specificity
  import StringOrder

  /** Everything `read_enrichment_results_file` returns and writes. */
  datatype ResultsFiles = ResultsFiles(read: ResultsRead, matrix: EnrichmentMatrix.MatrixFiles)

  datatype ReadError = ReadFailed(resultsError: ResultsError) | MatrixFailed(matrixError: EnrichmentMatrix.MatrixError)

  /**
    `read_enrichment_results_file`: the reading loop over the lines of the results file, then the
    matrix files of its state.
   */
  method ReadEnrichmentResults(lines: seq<string>, selected: set<string>, opts: Options,
                               s: EnrichmentMatrix.AnnotationSettings, listing: (string, set<string>) -> seq<string>,
                               countReal: Decimal, countRandom: Decimal)
    returns (r: Result<ResultsFiles, ReadError>)
    requires MatrixAnnotations.ListsSets(listing)
    ensures var parse := (line: string) => ParseRecord(selected, opts.valueColumn, line);
      var body := if lines == [] then [] else lines[1..];
      && (r.Err? && r.error.ReadFailed? <==> !(ParseAll(parse, body).Some? && DistinctPairs(ParseAll(parse, body).value)))
      && (r.Ok? ==>
            && r.value.read.header == (if lines == [] then "" else lines[0])
            && r.value.read.state == StateOf(ParseAll(parse, body).value, opts)
            && r.value.read.filteredText == r.value.read.header + Concat(Terminated(r.value.read.state.retained))
            && var st := r.value.read.state;
            && |st.pairs| == |st.rnas| * |st.annots|
            && EnrichmentMatrix.Complete(r.value.matrix.rows, r.value.matrix.cols, st.pairs)
            && r.value.matrix.matrix == EnrichmentMatrix.MatrixText(r.value.matrix.rows, r.value.matrix.cols, st.pairs)
            && r.value.matrix.summary == EnrichmentMatrix.Summary(countReal, countRandom, |st.retained|,
                                                                 |r.value.matrix.cols|, |r.value.matrix.rows|)
            && EnrichmentMatrix.LaidOut(r.value.matrix.rowFile, r.value.matrix.colFile, r.value.matrix.rows, r.value.matrix.cols,
                                        StringOrder.Sorted(st.rnas), EnrichmentMatrix.Columns(st, opts.warningValue), s, listing))
      && (r.Err? && r.error.MatrixFailed? <==>
            && ParseAll(parse, body).Some? && DistinctPairs(ParseAll(parse, body).value)
            && !EnrichmentMatrix.MatrixWritable(StateOf(ParseAll(parse, body).value, opts), opts.warningValue, s, listing))
      && (r.Err? && r.error.MatrixFailed? ==> !r.error.matrixError.NoDataForPair?)
  {
    var parse := (line: string) => ParseRecord(selected, opts.valueColumn, line);
    var body := if lines == [] then [] else lines[1..];
    var read := ReadEnrichmentResultsFile(lines, selected, opts);
    if read.Err? {
      return Err(ReadFailed(read.error));
    }
    ghost var recs := ParseAll(parse, body).value;
    var files := EnrichmentMatrix.WriteMatrixFiles(read.value.state, recs, opts, s, listing, countReal, countRandom);
    if files.Err? {
      return Err(MatrixFailed(files.error));
    }
    return Ok(ResultsFiles(read.value, files.value));
  }

  /** The command line settings. */
  datatype Settings = Settings(
    ratio: EnrichmentSelection.RatioFilter, opts: Options,
    rowAnnotationFile: string, colAnnotationFile: string,
    maskMultiple: int, noAnnotationTag: string, noAnnotationFilter: bool,
    limits: Specificity.Limits)

  /** The lines of the input files (those of an annotation file are read only when it is named). */
  datatype Inputs = Inputs(perRna: seq<string>, results: seq<string>, rowAnnotation: seq<string>, colAnnotation: seq<string>)

  datatype Outputs = Outputs(
    selection: EnrichmentSelection.Selection, files: ResultsFiles,
    ranking: Specificity.Ranking, filtered: string, notPassing: nat)

  datatype RunError =
    | RowAnnotationUnreadable(lineError: LineError)
    | ColAnnotationUnreadable(lineError: LineError)
    | PerRnaUnreadable(lineError: LineError)
    | ResultsFailed(readError: ReadError)
    | RankFailed(specificityError: Specificity.SpecificityError)
    | FilterFailed(specificityError: Specificity.SpecificityError)

  /** An annotation file when it is named, the empty dictionary otherwise. */
  method ReadOptionalAnnotation(name: string, lines: seq<string>) returns (r: Result<map<string, set<string>>, LineError>)
    ensures name == "" ==> r == Ok(map[])
    ensures name != "" ==> (r.Ok? <==> ParseAll(MatrixAnnotations.ParseEntry, lines).Some?)
    ensures name != "" && r.Ok? ==> r.value == MatrixAnnotations.AnnotationDict(ParseAll(MatrixAnnotations.ParseEntry, lines).value)
  {
    if name == "" {
      return Ok(map[]);
    }
    r := MatrixAnnotations.ReadAnnotationFile(lines);
  }

  /** The dictionary of an optional annotation file: empty when none is named, none when a line of the named file has no tab. */
  function OptionalAnnotation(name: string, lines: seq<string>): Option<map<string, set<string>>> {
    if name == "" then Some(map[])
    else
      match ParseAll(MatrixAnnotations.ParseEntry, lines)
      case None => None
      case Some(entries) => Some(MatrixAnnotations.AnnotationDict(entries))
  }

  /** The records of a results file for the transcripts `selected`: every line after the header
      read, with no pair twice; none otherwise. */
  function ResultRecords(lines: seq<string>, selected: set<string>, opts: Options): Option<seq<Record>> {
    var parse := (line: string) => ParseRecord(selected, opts.valueColumn, line);
    var body := if lines == [] then [] else lines[1..];
    if ParseAll(parse, body).Some? && DistinctPairs(ParseAll(parse, body).value) then ParseAll(parse, body) else None
  }

  /** The annotation settings of the matrix files for the dictionaries read. */
  function AnnotationSettingsOf(settings: Settings, rowAnnotation: map<string, set<string>>, colAnnotation: map<string, set<string>>)
    : EnrichmentMatrix.AnnotationSettings
  {
    EnrichmentMatrix.AnnotationSettings(rowAnnotation, colAnnotation, settings.maskMultiple, settings.noAnnotationTag,
                                        settings.noAnnotationFilter)
  }

  /**
    What the part of `run` after the selection gives: each error exactly when its step fails after
    the earlier ones succeeded; on success the state of the results file for the selected
    transcripts, the matrix files laid out for it, a ranking of exactly its enriched pairs in rank
    order, and the retained lines the specificity limits keep.
   */
  ghost predicate Processed(r: Result<Outputs, RunError>, results: seq<string>, selection: EnrichmentSelection.Selection,
                            settings: Settings, s: EnrichmentMatrix.AnnotationSettings, listing: (string, set<string>) -> seq<string>)
  {
    && (var recs := ResultRecords(results, selection.selected, settings.opts);
        && (r.Err? && r.error.ResultsFailed? && r.error.readError.ReadFailed? <==> recs.None?)
        && (recs.Some? ==>
              var st := StateOf(recs.value, settings.opts);
              var w := settings.opts.warningValue;
              var writable := EnrichmentMatrix.MatrixWritable(st, w, s, listing);
              && (r.Err? && r.error.ResultsFailed? && r.error.readError.MatrixFailed? <==> !writable)
              && (r.Err? && r.error.RankFailed? <==> writable && exists k :: k in st.pairs && Specificity.SplitKey(k).None?)
              && (r.Err? && r.error.FilterFailed? <==>
                    && writable && (forall k | k in st.pairs :: Specificity.SplitKey(k).Some?)
                    && Specificity.ScreenRaises(st.retained, Specificity.Enriched(st.pairs, w), settings.limits))))
    && (r.Ok? ==>
        var out := r.value;
        var st := out.files.read.state;
        var w := settings.opts.warningValue;
        var m := out.files.matrix;
        && out.selection == selection
        && ResultRecords(results, selection.selected, settings.opts).Some?
        && out.files.read.header == (if results == [] then "" else results[0])
        && st == StateOf(ResultRecords(results, selection.selected, settings.opts).value, settings.opts)
        && EnrichmentMatrix.LaidOut(m.rowFile, m.colFile, m.rows, m.cols, StringOrder.Sorted(st.rnas), EnrichmentMatrix.Columns(st, w), s, listing)
        && EnrichmentMatrix.Complete(m.rows, m.cols, st.pairs)
        && m.matrix == EnrichmentMatrix.MatrixText(m.rows, m.cols, st.pairs)
        && m.summary == EnrichmentMatrix.Summary(selection.countReal, selection.countRandom, |st.retained|, |m.cols|, |m.rows|)
        && NoDuplicates(out.ranking.ranked)
        && (forall p :: p in out.ranking.ranked <==> p in Specificity.Enriched(st.pairs, w))
        && (forall i, j | 0 <= i < j < |out.ranking.ranked| ::
              Specificity.Rank(Specificity.Enriched(st.pairs, w), out.ranking.ranked[i])
                <= Specificity.Rank(Specificity.Enriched(st.pairs, w), out.ranking.ranked[j]))
        && |out.ranking.rows| == |out.ranking.ranked|
        && (forall i | 0 <= i < |out.ranking.ranked| ::
              out.ranking.rows[i] == Specificity.RowOf(Specificity.Enriched(st.pairs, w), out.ranking.ranked[i]))
        && out.ranking.text == Specificity.RankHeader + Concat(Specificity.RankLines(out.ranking.rows))
        && Screened(out, w, settings.limits))
  }

  /**
    The last step of `run` on the outputs: both dictionaries are tallies of the enriched pairs, and
    the filtered file holds the header and the retained lines that pass the limits on them.
   */
  ghost predicate Screened(out: Outputs, w: string, lim: Specificity.Limits) {
    var st := out.files.read.state;
    && Specificity.Tallied(out.ranking.lncDict, Specificity.Enriched(st.pairs, w), false)
    && Specificity.Tallied(out.ranking.annotDict, Specificity.Enriched(st.pairs, w), true)
    && Specificity.Screen(st.retained, out.ranking.annotDict, out.ranking.lncDict, lim).Ok?
    && var kept := Specificity.Screen(st.retained, out.ranking.annotDict, out.ranking.lncDict, lim).value;
    && out.filtered == out.files.read.header + Concat(Terminated(kept))
    && out.notPassing == |st.retained| - |kept|
  }

  /**
    The filtered file does not depend on the order the ranking took: two outcomes with the same
    results have the same filtered file and the same count of lines filtered out.
   */
  lemma ScreenedDetermined(out: Outputs, out': Outputs, w: string, lim: Specificity.Limits)
    requires out.files.read == out'.files.read
    requires Screened(out, w, lim) && Screened(out', w, lim)
    ensures out.filtered == out'.filtered && out.notPassing == out'.notPassing
  {
    var st := out.files.read.state;
    Specificity.ScreenTallied(st.retained, Specificity.Enriched(st.pairs, w), lim,
                              out.ranking.annotDict, out.ranking.lncDict, out'.ranking.annotDict, out'.ranking.lncDict);
  }

  /** The part of `run` after the selection: the results with their matrix files, the ranking and the filtered file. */
  method ProcessResults(results: seq<string>, selection: EnrichmentSelection.Selection, settings: Settings,
                        s: EnrichmentMatrix.AnnotationSettings, listing: (string, set<string>) -> seq<string>)
    returns (r: Result<Outputs, RunError>)
    requires MatrixAnnotations.ListsSets(listing)
    ensures r.Err? ==> r.error.ResultsFailed? || r.error.RankFailed? || r.error.FilterFailed?
    ensures Processed(r, results, selection, settings, s, listing)
  {
    var files := ReadEnrichmentResults(results, selection.selected, settings.opts, s, listing,
                                       selection.countReal, selection.countRandom);
    if files.Err? {
      return Err(ResultsFailed(files.error));
    }
    var read := files.value.read;
    var ranking := Specificity.RankBySpecificity(read.state.pairs, settings.opts.warningValue);
    if ranking.Err? {
      return Err(RankFailed(ranking.error));
    }
    var lines := [read.header] + read.state.retained;
    Specificity.ScreenRaisesIff(read.state.retained, Specificity.Enriched(read.state.pairs, settings.opts.warningValue),
                                settings.limits, ranking.value.annotDict, ranking.value.lncDict);
    var filtered := Specificity.FilterBySpecificity(lines, ranking.value.annotDict, ranking.value.lncDict, settings.limits);
    if filtered.Err? {
      return Err(FilterFailed(filtered.error));
    }
    assert lines[1..] == read.state.retained;
    return Ok(Outputs(selection, files.value, ranking.value, filtered.value.0, filtered.value.1));
  }

  /**
    `run`: the row and column annotation files, the selection of transcripts, then the results
    with their matrix files, the ranking and the filtered file, each step on what the earlier ones
    returned. Each reading error is reported exactly when its file is unreadable after the earlier
    ones were read; the rest is that of the results for the selection and the dictionaries read.
   */
  method Run(inputs: Inputs, settings: Settings, listing: (string, set<string>) -> seq<string>) returns (r: Result<Outputs, RunError>)
    requires MatrixAnnotations.ListsSets(listing)
    ensures var row := OptionalAnnotation(settings.rowAnnotationFile, inputs.rowAnnotation);
      var col := OptionalAnnotation(settings.colAnnotationFile, inputs.colAnnotation);
      var perRna := ParseAll(EnrichmentSelection.ParsePerRna, EnrichmentSelection.Body(inputs.perRna));
      && (r.Err? && r.error.RowAnnotationUnreadable? <==> row.None?)
      && (r.Err? && r.error.ColAnnotationUnreadable? <==> row.Some? && col.None?)
      && (r.Err? && r.error.PerRnaUnreadable? <==> row.Some? && col.Some? && perRna.None?)
      && (row.Some? && col.Some? && perRna.Some? ==>
            var selection := EnrichmentSelection.SelectionOf(perRna.value, settings.ratio);
            var s := AnnotationSettingsOf(settings, row.value, col.value);
            Processed(r, inputs.results, selection, settings, s, listing))
  {
    var rowAnnotation := ReadOptionalAnnotation(settings.rowAnnotationFile, inputs.rowAnnotation);
    if rowAnnotation.Err? {
      return Err(RowAnnotationUnreadable(rowAnnotation.error));
    }
    var colAnnotation := ReadOptionalAnnotation(settings.colAnnotationFile, inputs.colAnnotation);
    if colAnnotation.Err? {
      return Err(ColAnnotationUnreadable(colAnnotation.error));
    }
    var selection := EnrichmentSelection.ReadEnrichmentPerRnaFile(inputs.perRna, settings.ratio);
    if selection.Err? {
      return Err(PerRnaUnreadable(selection.error));
    }
    var s := AnnotationSettingsOf(settings, rowAnnotation.value, colAnnotation.value);
    r := ProcessResults(inputs.results, selection.value, settings, s, listing);
  }
}
