/**
  The second half of reading the enrichment results: the check that every transcript was tested
  against every annotation, the matrix file (sorted transcripts as rows, sorted enriched
  annotations as columns, the pair value in each cell), the optional row and column annotation
  files, and the summary line.
 */
module EnrichmentMatrix {
  import opened Results
  import opened Text
  import opened Numbers
  import StringOrder
  import opened MatrixAnnotations
  import opened EnrichmentResults

  // ---------------------------------------------------------------------------------------------
  // Every pair is there

  /** All the keys `rna|annot` of a transcript and an annotation. */
  function Product(rnas: set<string>, annots: set<string>): set<string> {
    set r, a | r in rnas && a in annots :: r + "|" + a
  }

  /** The keys of one transcript. */
  function Row(r: string, annots: set<string>): set<string> {
    set a | a in annots :: r + "|" + a
  }

  lemma {:induction false} RowSize(r: string, annots: set<string>)
    ensures |Row(r, annots)| <= |annots|
    decreases |annots|
  {
    if annots != {} {
      var a :| a in annots;
      RowSize(r, annots - {a});
      assert Row(r, annots) == Row(r, annots - {a}) + {r + "|" + a};
    }
  }

  /** Taking one transcript out splits off its keys. */
  lemma ProductSplit(rnas: set<string>, r: string, annots: set<string>)
    requires r in rnas
    ensures Product(rnas, annots) == Product(rnas - {r}, annots) + Row(r, annots)
  {
    forall k | k in Product(rnas, annots)
      ensures k in Product(rnas - {r}, annots) + Row(r, annots)
    {
      var x, a :| x in rnas && a in annots && k == x + "|" + a;
      if x != r {
        assert k in Product(rnas - {r}, annots);
      }
    }
  }

  lemma MulStep(n: nat, m: nat)
    requires n >= 1
    ensures n * m == (n - 1) * m + m
  {
  }

  /** There are at most as many keys as transcripts times annotations (fewer when keys collide). */
  lemma {:induction false} ProductSize(rnas: set<string>, annots: set<string>)
    ensures |Product(rnas, annots)| <= |rnas| * |annots|
    decreases |rnas|
  {
    if rnas != {} {
      var r :| r in rnas;
      ProductSize(rnas - {r}, annots);
      RowSize(r, annots);
      ProductSplit(rnas, r, annots);
      MulStep(|rnas|, |annots|);
      assert |rnas - {r}| == |rnas| - 1;
    }
  }

  /** The pair keys read are keys of a transcript and an annotation read. */
  lemma PairKeysInProduct(recs: seq<Record>)
    ensures PairKeys(recs) <= Product(Rnas(recs), Annots(recs))
  {
    forall k | k in PairKeys(recs)
      ensures k in Product(Rnas(recs), Annots(recs))
    {
      var i :| 0 <= i < |recs| && recs[i].Test? && Key(recs[i]) == k;
      RnasIff(recs, recs[i].txID);
      AnnotsIff(recs, recs[i].annotID);
    }
  }

  /**
    When the pairs are distinct and their number is that of transcripts times annotations, as the
    reading asserts, every transcript read was tested against every annotation read: the matrix
    has a value in each cell.
   */
  lemma MatrixComplete(recs: seq<Record>, opts: Options)
    requires DistinctPairs(recs)
    requires |PairMap(recs, opts)| == |Rnas(recs)| * |Annots(recs)|
    ensures forall r, a | r in Rnas(recs) && a in Annots(recs) :: r + "|" + a in PairMap(recs, opts)
  {
    var all := Product(Rnas(recs), Annots(recs));
    PairKeysFill(recs, opts);
    forall r, a | r in Rnas(recs) && a in Annots(recs)
      ensures r + "|" + a in PairMap(recs, opts)
    {
      assert r + "|" + a in all;
    }
  }

  /** Under the same assertion the pair keys are all the keys of a transcript and an annotation. */
  lemma PairKeysFill(recs: seq<Record>, opts: Options)
    requires DistinctPairs(recs)
    requires |PairMap(recs, opts)| == |Rnas(recs)| * |Annots(recs)|
    ensures PairMap(recs, opts).Keys == Product(Rnas(recs), Annots(recs))
  {
    PairMapKeys(recs, opts);
    PairKeysInProduct(recs);
    ProductSize(Rnas(recs), Annots(recs));
    SubsetFull(PairMap(recs, opts).Keys, Product(Rnas(recs), Annots(recs)));
  }

  /** A subset at least as large as its superset is the superset. */
  lemma SubsetFull(a: set<string>, b: set<string>)
    requires a <= b && |a| >= |b|
    ensures a == b
  {
    assert b == a + (b - a);
    assert |b - a| == 0;
    assert b - a == {};
  }

  // ---------------------------------------------------------------------------------------------
  // The matrix text

  /** The values of a row or the names of the columns, each after a tab. */
  function Tabbed(s: seq<string>): (r: seq<string>)
    ensures |r| == |s| && forall i | 0 <= i < |s| :: r[i] == "\t" + s[i]
  {
    seq(|s|, i requires 0 <= i < |s| => "\t" + s[i])
  }

  /** Every cell of the matrix has a value. */
  predicate Complete(rows: seq<string>, cols: seq<string>, pairs: map<string, string>) {
    forall j, k | 0 <= j < |rows| && 0 <= k < |cols| :: rows[j] + "|" + cols[k] in pairs
  }

  /** The values of one row, column by column. */
  function RowValues(rna: string, cols: seq<string>, pairs: map<string, string>): (vs: seq<string>)
    requires forall k | 0 <= k < |cols| :: rna + "|" + cols[k] in pairs
    ensures |vs| == |cols| && forall k | 0 <= k < |cols| :: vs[k] == pairs[rna + "|" + cols[k]]
  {
    seq(|cols|, k requires 0 <= k < |cols| => pairs[rna + "|" + cols[k]])
  }

  /** The header line: `RNAs`, then each column name after a tab. */
  function HeaderLine(cols: seq<string>): string {
    "RNAs" + Concat(Tabbed(cols)) + "\n"
  }

  /** The line of one transcript: its name, then each of its values after a tab. */
  function RowLine(rna: string, cols: seq<string>, pairs: map<string, string>): string
    requires forall k | 0 <= k < |cols| :: rna + "|" + cols[k] in pairs
  {
    rna + Concat(Tabbed(RowValues(rna, cols, pairs))) + "\n"
  }

  function RowLines(rows: seq<string>, cols: seq<string>, pairs: map<string, string>): (ls: seq<string>)
    requires Complete(rows, cols, pairs)
    ensures |ls| == |rows|
  {
    seq(|rows|, j requires 0 <= j < |rows| => RowLine(rows[j], cols, pairs))
  }

  /** The matrix file. */
  function MatrixText(rows: seq<string>, cols: seq<string>, pairs: map<string, string>): string
    requires Complete(rows, cols, pairs)
  {
    HeaderLine(cols) + Concat(RowLines(rows, cols, pairs))
  }

  /** A name followed by tabbed fields is the tab join of the name and the fields. */
  lemma {:induction false} TabbedJoin(s: string, fields: seq<string>)
    ensures s + Concat(Tabbed(fields)) == Join([s] + fields, "\t")
    decreases |fields|
  {
    if fields != [] {
      var n := |fields| - 1;
      TabbedJoin(s, fields[..n]);
      assert Tabbed(fields)[..n] == Tabbed(fields[..n]);
      JoinSnoc([s] + fields[..n], fields[n], "\t");
      assert [s] + fields[..n] + [fields[n]] == [s] + fields;
    }
  }

  lemma {:induction false} JoinSnoc(parts: seq<string>, x: string, sep: string)
    requires parts != []
    ensures Join(parts + [x], sep) == Join(parts, sep) + sep + x
    decreases |parts|
  {
    if |parts| == 1 {
      assert (parts + [x])[1..] == [x];
    } else {
      JoinSnoc(parts[1..], x, sep);
      assert (parts + [x])[1..] == parts[1..] + [x];
    }
  }

  /**
    Read back with a split on tabs, the header line gives `RNAs` and the columns, and the line of a
    transcript gives its name and the value of each cell, when no name or value holds a tab.
   */
  lemma MatrixLineFields(rna: string, cols: seq<string>, pairs: map<string, string>)
    requires forall k | 0 <= k < |cols| :: rna + "|" + cols[k] in pairs
    requires '\t' !in rna && forall k | 0 <= k < |cols| :: '\t' !in cols[k] && '\t' !in pairs[rna + "|" + cols[k]]
    ensures Split(HeaderLine(cols)[..|HeaderLine(cols)| - 1], '\t') == ["RNAs"] + cols
    ensures var line := RowLine(rna, cols, pairs);
      Split(line[..|line| - 1], '\t') == [rna] + RowValues(rna, cols, pairs)
  {
    var vs := RowValues(rna, cols, pairs);
    TabbedJoin("RNAs", cols);
    TabbedJoin(rna, vs);
    var header, line := HeaderLine(cols), RowLine(rna, cols, pairs);
    assert header[..|header| - 1] == "RNAs" + Concat(Tabbed(cols));
    assert line[..|line| - 1] == rna + Concat(Tabbed(vs));
    forall i | 0 <= i < |["RNAs"] + cols|
      ensures '\t' !in (["RNAs"] + cols)[i]
    {
      if i > 0 {
        assert (["RNAs"] + cols)[i] == cols[i - 1];
      }
    }
    forall i | 0 <= i < |[rna] + vs|
      ensures '\t' !in ([rna] + vs)[i]
    {
      if i > 0 {
        assert ([rna] + vs)[i] == vs[i - 1];
      }
    }
    SplitJoin(["RNAs"] + cols, '\t');
    SplitJoin([rna] + vs, '\t');
  }

  datatype MatrixError =
    | PairsMismatch(pairs: nat, rnas: nat, annots: nat)  // the assertion on the number of pairs
    | RowAnnotation(error: AnnotationError)             // writing the row annotation file failed
    | ColumnAnnotation(error: AnnotationError)          // writing the column annotation file failed
    | NoAnnotationList                                  // filtering by a list that was not built
    | NoDataForPair(pair: string)                       // a cell without a value

  /** The line of one transcript, built cell by cell. */
  method WriteRow(rna: string, cols: seq<string>, pairs: map<string, string>) returns (r: Result<string, MatrixError>)
    ensures r.Ok? <==> forall k | 0 <= k < |cols| :: rna + "|" + cols[k] in pairs
    ensures r.Ok? ==> r.value == RowLine(rna, cols, pairs)
    ensures r.Err? ==> r.error.NoDataForPair?
  {
    var text := rna;
    for k := 0 to |cols|
      invariant forall m | 0 <= m < k :: rna + "|" + cols[m] in pairs
      invariant text == rna + Concat(Tabbed(RowValues(rna, cols[..k], pairs)))
    {
      var tag := rna + "|" + cols[k];
      if tag !in pairs {
        return Err(NoDataForPair(tag));
      }
      assert Tabbed(RowValues(rna, cols[..k + 1], pairs))[..k] == Tabbed(RowValues(rna, cols[..k], pairs));
      text := text + ("\t" + pairs[tag]);
    }
    assert cols[..|cols|] == cols;
    return Ok(text + "\n");
  }

  lemma CompleteSnoc(rows: seq<string>, rna: string, cols: seq<string>, pairs: map<string, string>)
    requires Complete(rows, cols, pairs)
    requires forall k | 0 <= k < |cols| :: rna + "|" + cols[k] in pairs
    ensures Complete(rows + [rna], cols, pairs)
  {
    forall j, k | 0 <= j < |rows| + 1 && 0 <= k < |cols|
      ensures (rows + [rna])[j] + "|" + cols[k] in pairs
    {
      if j < |rows| {
        assert (rows + [rna])[j] == rows[j];
      }
    }
  }

  /** The header line, column by column. */
  method WriteHeader(cols: seq<string>) returns (text: string)
    ensures text == HeaderLine(cols)
  {
    text := "RNAs";
    for k := 0 to |cols|
      invariant text == "RNAs" + Concat(Tabbed(cols[..k]))
    {
      assert Tabbed(cols[..k + 1])[..k] == Tabbed(cols[..k]);
      text := text + ("\t" + cols[k]);
    }
    assert cols[..|cols|] == cols;
    text := text + "\n";
  }

  /** The matrix of one more row is the matrix followed by the line of that row. */
  lemma MatrixSnoc(rows: seq<string>, rna: string, cols: seq<string>, pairs: map<string, string>)
    requires Complete(rows, cols, pairs)
    requires forall k | 0 <= k < |cols| :: rna + "|" + cols[k] in pairs
    ensures Complete(rows + [rna], cols, pairs)
    ensures MatrixText(rows + [rna], cols, pairs) == MatrixText(rows, cols, pairs) + RowLine(rna, cols, pairs)
  {
    CompleteSnoc(rows, rna, cols, pairs);
    var ls := RowLines(rows + [rna], cols, pairs);
    assert ls == RowLines(rows, cols, pairs) + [RowLine(rna, cols, pairs)];
  }

  /** The matrix file, header first, then one line per transcript; or the first cell without a value. */
  method WriteMatrix(rows: seq<string>, cols: seq<string>, pairs: map<string, string>) returns (r: Result<string, MatrixError>)
    ensures r.Ok? <==> Complete(rows, cols, pairs)
    ensures r.Ok? ==> r.value == MatrixText(rows, cols, pairs)
    ensures r.Err? ==> r.error.NoDataForPair?
  {
    var text := WriteHeader(cols);
    assert rows[..0] == [];
    for j := 0 to |rows|
      invariant Complete(rows[..j], cols, pairs)
      invariant text == MatrixText(rows[..j], cols, pairs)
    {
      var line := WriteRow(rows[j], cols, pairs);
      if line.Err? {
        return Err(line.error);
      }
      assert rows[..j + 1] == rows[..j] + [rows[j]];
      MatrixSnoc(rows[..j], rows[j], cols, pairs);
      text := text + line.value;
    }
    assert rows[..|rows|] == rows;
    return Ok(text);
  }

  // ---------------------------------------------------------------------------------------------
  // Layout

  /** The list comprehension keeping the items of a list that have an annotation. */
  function Keep(items: seq<string>, withAnnotation: set<string>): (r: seq<string>)
    ensures forall x :: x in r <==> x in items && x in withAnnotation
    decreases |items|
  {
    if items == [] then []
    else
      var n := |items| - 1;
      var init := Keep(items[..n], withAnnotation);
      assert forall x :: x in items <==> x in items[..n] || x == items[n];
      if items[n] in withAnnotation then init + [items[n]] else init
  }

  /** Keeping some items of a sorted list leaves it sorted. */
  lemma {:induction false} KeepSorted(items: seq<string>, withAnnotation: set<string>)
    requires StringOrder.StrictlySorted(items)
    ensures StringOrder.StrictlySorted(Keep(items, withAnnotation))
    decreases |items|
  {
    if items != [] {
      var n := |items| - 1;
      assert StringOrder.StrictlySorted(items[..n]);
      KeepSorted(items[..n], withAnnotation);
      var init := Keep(items[..n], withAnnotation);
      if items[n] in withAnnotation {
        forall i | 0 <= i < |init|
          ensures StringOrder.Less(init[i], items[n])
        {
          assert init[i] in items[..n];
        }
      }
    }
  }

  /** The matrix files and the counts of the summary. */
  datatype Summary = Summary(realEnrichments: Decimal, randomEnrichments: Decimal, filtered: nat, columns: nat, rows: nat)

  datatype MatrixFiles = MatrixFiles(
    rows: seq<string>, cols: seq<string>, matrix: string,
    rowFile: Option<AnnotationFile>, colFile: Option<AnnotationFile>, summary: Summary)

  /** The settings of the annotation files: each dictionary is off when empty. */
  datatype AnnotationSettings = AnnotationSettings(
    rowAnnotation: map<string, set<string>>, colAnnotation: map<string, set<string>>,
    maskMultiple: int, noAnnotationTag: string, noAnnotationFilter: bool)

  /** The sorted columns: the annotations read minus those without enrichment. */
  ghost function Columns(st: ResultsState, w: string): seq<string> {
    StringOrder.Sorted(st.annots - NonEnriched(st.annotValues, w))
  }

  /** The rows or columns that go into the matrix: all of them, or with the filter on, those listed. */
  function Shown(items: seq<string>, file: Option<AnnotationFile>, noAnnotationFilter: bool): seq<string>
    requires noAnnotationFilter && items != [] ==> file.Some?
  {
    if noAnnotationFilter && file.Some? then Keep(items, file.value.withAnnotation) else items
  }

  /** What the annotation file of a sorted list states, when the dictionary is not empty. */
  ghost predicate FileFor(file: Option<AnnotationFile>, items: seq<string>, dict: map<string, set<string>>,
                          palette: seq<string>, s: AnnotationSettings, listing: (string, set<string>) -> seq<string>)
  {
    (file.Some? <==> |dict| > 0) &&
    (file.Some? ==>
      && (forall k | 0 <= k < |items| :: Labelled(items[k], dict))
      && Describes(file.value, items, Labels(items, dict, s.maskMultiple, s.noAnnotationTag, listing), palette,
                   s.noAnnotationFilter, s.noAnnotationTag))
  }

  /**
    The annotation file of a sorted list can be written: its dictionary is empty (nothing is
    written), or every item has a label and the palette has a colour for each distinct label.
   */
  ghost predicate Writable(items: seq<string>, dict: map<string, set<string>>, palette: seq<string>,
                           s: AnnotationSettings, listing: (string, set<string>) -> seq<string>)
  {
    |dict| == 0 ||
    ((forall k | 0 <= k < |items| :: Labelled(items[k], dict)) &&
     |Distinct(Labels(items, dict, s.maskMultiple, s.noAnnotationTag, listing))| <= |palette|)
  }

  /**
    Writes the annotation file of a sorted list when its dictionary is not empty. With a palette
    free of repetitions, it fails exactly when the file cannot be written.
   */
  method AnnotationFileFor(items: seq<string>, dict: map<string, set<string>>, palette: seq<string>,
                           s: AnnotationSettings, listing: (string, set<string>) -> seq<string>)
    returns (r: Result<Option<AnnotationFile>, AnnotationError>)
    requires ListsSets(listing)
    ensures r.Ok? ==> FileFor(r.value, items, dict, palette, s, listing)
    ensures |dict| == 0 ==> r == Ok(None)
    ensures NoDuplicates(palette) ==> (r.Ok? <==> Writable(items, dict, palette, s, listing))
    ensures r.Err? && r.error.EmptyAnnotation? ==> r.error.item in items && !Labelled(r.error.item, dict)
    ensures r.Err? && r.error.TooManyCategories? ==> !Writable(items, dict, palette, s, listing)
  {
    if |dict| > 0 {
      var written := WriteMatrixAnnotationFile(items, dict, s.maskMultiple, s.noAnnotationTag, palette, s.noAnnotationFilter, listing);
      if written.Err? {
        if written.error.TooManyCategories? {
          DistinctPrefixShorter(Labels(items, dict, s.maskMultiple, s.noAnnotationTag, listing), written.error.position + 1);
        }
        return Err(written.error);
      }
      return Ok(Some(written.value));
    }
    return Ok(None);
  }

  /**
    The layout of the matrix for its sorted rows and columns: the annotation files of both, and
    the rows and columns that go into the matrix.
   */
  ghost predicate LaidOut(rowFile: Option<AnnotationFile>, colFile: Option<AnnotationFile>, rows: seq<string>, cols: seq<string>,
                          sortedRows: seq<string>, sortedCols: seq<string>, s: AnnotationSettings, listing: (string, set<string>) -> seq<string>)
  {
    && FileFor(rowFile, sortedRows, s.rowAnnotation, ColorsSet2, s, listing)
    && FileFor(colFile, sortedCols, s.colAnnotation, ColorsSet3, s, listing)
    && Chosen(rowFile, colFile, rows, cols, sortedRows, sortedCols, s.noAnnotationFilter)
  }

  /** The rows and columns that go into the matrix, out of the sorted ones. */
  predicate Chosen(rowFile: Option<AnnotationFile>, colFile: Option<AnnotationFile>, rows: seq<string>, cols: seq<string>,
                   sortedRows: seq<string>, sortedCols: seq<string>, noAnnotationFilter: bool)
  {
    && (noAnnotationFilter && sortedRows != [] ==> rowFile.Some?)
    && (noAnnotationFilter && sortedCols != [] ==> colFile.Some?)
    && rows == Shown(sortedRows, rowFile, noAnnotationFilter)
    && cols == Shown(sortedCols, colFile, noAnnotationFilter)
  }

  /** The no-annotation filter is on, but a list it needs was not built: rows (columns) with an empty row (column) dictionary. */
  predicate ListMissing(sortedRows: seq<string>, sortedCols: seq<string>, s: AnnotationSettings) {
    s.noAnnotationFilter && ((sortedRows != [] && |s.rowAnnotation| == 0) || (sortedCols != [] && |s.colAnnotation| == 0))
  }

  /**
    The row annotation file, then the column annotation file, each when its dictionary is not
    empty, then the rows and columns kept by the no-annotation filter; filtering by a list that
    was not built fails as soon as the list has an item.
   */
  method LayOut(sortedRows: seq<string>, sortedCols: seq<string>, s: AnnotationSettings, listing: (string, set<string>) -> seq<string>)
    returns (r: Result<(Option<AnnotationFile>, Option<AnnotationFile>, seq<string>, seq<string>), MatrixError>)
    requires ListsSets(listing)
    ensures r.Ok? ==> LaidOut(r.value.0, r.value.1, r.value.2, r.value.3, sortedRows, sortedCols, s, listing)
    ensures r.Ok? ==> (forall x | x in r.value.2 :: x in sortedRows) && (forall x | x in r.value.3 :: x in sortedCols)
    ensures r.Err? ==> r.error.RowAnnotation? || r.error.ColumnAnnotation? || r.error.NoAnnotationList?
    ensures r.Err? && r.error.RowAnnotation? <==> !Writable(sortedRows, s.rowAnnotation, ColorsSet2, s, listing)
    ensures r.Err? && r.error.ColumnAnnotation? <==>
      Writable(sortedRows, s.rowAnnotation, ColorsSet2, s, listing) && !Writable(sortedCols, s.colAnnotation, ColorsSet3, s, listing)
    ensures r == Err(NoAnnotationList) <==>
      && Writable(sortedRows, s.rowAnnotation, ColorsSet2, s, listing)
      && Writable(sortedCols, s.colAnnotation, ColorsSet3, s, listing)
      && ListMissing(sortedRows, sortedCols, s)
  {
    PalettesDistinct();
    var rowFile := AnnotationFileFor(sortedRows, s.rowAnnotation, ColorsSet2, s, listing);
    if rowFile.Err? {
      return Err(RowAnnotation(rowFile.error));
    }
    var colFile := AnnotationFileFor(sortedCols, s.colAnnotation, ColorsSet3, s, listing);
    if colFile.Err? {
      return Err(ColumnAnnotation(colFile.error));
    }
    if s.noAnnotationFilter && ((sortedRows != [] && rowFile.value.None?) || (sortedCols != [] && colFile.value.None?)) {
      return Err(NoAnnotationList);
    }
    var rows := Shown(sortedRows, rowFile.value, s.noAnnotationFilter);
    var cols := Shown(sortedCols, colFile.value, s.noAnnotationFilter);
    return Ok((rowFile.value, colFile.value, rows, cols));
  }

  /**
    The matrix files of a state can be written: the number of pairs is the product of the numbers
    of transcripts and annotations, both annotation files can be written and the no-annotation
    filter has the lists it needs.
   */
  ghost predicate MatrixWritable(st: ResultsState, w: string, s: AnnotationSettings, listing: (string, set<string>) -> seq<string>) {
    && |st.pairs| == |st.rnas| * |st.annots|
    && Writable(StringOrder.Sorted(st.rnas), s.rowAnnotation, ColorsSet2, s, listing)
    && Writable(Columns(st, w), s.colAnnotation, ColorsSet3, s, listing)
    && !ListMissing(StringOrder.Sorted(st.rnas), Columns(st, w), s)
  }

  /**
    Everything `read_enrichment_results_file` writes after the reading loop, for the loop's state
    over records whose pairs are distinct: the assertion on the number of pairs, then the
    annotation files of the sorted rows and columns, then the matrix and the summary.
   */
  method WriteMatrixFiles(st: ResultsState, ghost recs: seq<Record>, opts: Options, s: AnnotationSettings,
                          listing: (string, set<string>) -> seq<string>, countReal: Decimal, countRandom: Decimal)
    returns (r: Result<MatrixFiles, MatrixError>)
    requires st == StateOf(recs, opts) && DistinctPairs(recs)
    requires ListsSets(listing)
    ensures |st.pairs| != |st.rnas| * |st.annots| <==> r == Err(PairsMismatch(|st.pairs|, |st.rnas|, |st.annots|))
    ensures r.Err? ==> !r.error.NoDataForPair?
    ensures r.Err? && r.error.RowAnnotation? <==>
      |st.pairs| == |st.rnas| * |st.annots| && !Writable(StringOrder.Sorted(st.rnas), s.rowAnnotation, ColorsSet2, s, listing)
    ensures r.Err? && r.error.ColumnAnnotation? <==>
      && |st.pairs| == |st.rnas| * |st.annots|
      && Writable(StringOrder.Sorted(st.rnas), s.rowAnnotation, ColorsSet2, s, listing)
      && !Writable(Columns(st, opts.warningValue), s.colAnnotation, ColorsSet3, s, listing)
    ensures r == Err(NoAnnotationList) <==>
      && |st.pairs| == |st.rnas| * |st.annots|
      && Writable(StringOrder.Sorted(st.rnas), s.rowAnnotation, ColorsSet2, s, listing)
      && Writable(Columns(st, opts.warningValue), s.colAnnotation, ColorsSet3, s, listing)
      && ListMissing(StringOrder.Sorted(st.rnas), Columns(st, opts.warningValue), s)
    ensures r.Ok? <==> MatrixWritable(st, opts.warningValue, s, listing)
    ensures r.Ok? ==>
      var m := r.value;
      && LaidOut(m.rowFile, m.colFile, m.rows, m.cols, StringOrder.Sorted(st.rnas), Columns(st, opts.warningValue), s, listing)
      && Complete(m.rows, m.cols, st.pairs)
      && m.matrix == MatrixText(m.rows, m.cols, st.pairs)
      && m.summary == Summary(countReal, countRandom, |st.retained|, |m.cols|, |m.rows|)
  {
    if |st.pairs| != |st.rnas| * |st.annots| {
      return Err(PairsMismatch(|st.pairs|, |st.rnas|, |st.annots|));
    }
    MatrixComplete(recs, opts);
    var sortedRows := StringOrder.Sort(st.rnas);
    var sortedCols := StringOrder.Sort(st.annots - NonEnriched(st.annotValues, opts.warningValue));
    var layout := LayOut(sortedRows, sortedCols, s, listing);
    if layout.Err? {
      return Err(layout.error);
    }
    var (rowFile, colFile, rows, cols) := layout.value;
    assert Complete(rows, cols, st.pairs) by {
      forall j, k | 0 <= j < |rows| && 0 <= k < |cols|
        ensures rows[j] + "|" + cols[k] in st.pairs
      {
        assert rows[j] in sortedRows && cols[k] in sortedCols;
      }
    }
    var matrix := WriteMatrix(rows, cols, st.pairs);
    assert matrix.Ok?;
    var summary := Summary(countReal, countRandom, |st.retained|, |cols|, |rows|);
    return Ok(MatrixFiles(rows, cols, matrix.value, rowFile, colFile, summary));
  }

  /** Rows and columns of the matrix are sorted, and the columns are annotations with an enrichment. */
  lemma LayoutSorted(st: ResultsState, recs: seq<Record>, opts: Options, m: MatrixFiles, noAnnotationFilter: bool)
    requires st == StateOf(recs, opts)
    requires Chosen(m.rowFile, m.colFile, m.rows, m.cols, StringOrder.Sorted(st.rnas), Columns(st, opts.warningValue), noAnnotationFilter)
    ensures StringOrder.StrictlySorted(m.rows) && StringOrder.StrictlySorted(m.cols)
    ensures forall x | x in m.rows :: x in Rnas(recs)
    ensures forall a | a in m.cols :: (a in Annots(recs) &&
      exists i | 0 <= i < |recs| && recs[i].Test? && recs[i].annotID == a :: Cell(recs[i], opts) != opts.warningValue)
    ensures !noAnnotationFilter ==> forall a | a in Annots(recs) ::
      a in m.cols <==> exists i | 0 <= i < |recs| && recs[i].Test? && recs[i].annotID == a :: Cell(recs[i], opts) != opts.warningValue
  {
    var enriched := st.annots - NonEnriched(st.annotValues, opts.warningValue);
    StringOrder.SortedSpec(st.rnas);
    StringOrder.SortedSpec(enriched);
    if noAnnotationFilter && m.rowFile.Some? {
      KeepSorted(StringOrder.Sorted(st.rnas), m.rowFile.value.withAnnotation);
    }
    if noAnnotationFilter && m.colFile.Some? {
      KeepSorted(Columns(st, opts.warningValue), m.colFile.value.withAnnotation);
    }
    forall a | a in Annots(recs)
      ensures a in enriched <==>
        exists i | 0 <= i < |recs| && recs[i].Test? && recs[i].annotID == a :: Cell(recs[i], opts) != opts.warningValue
    {
      NonEnrichedIff(recs, opts, a);
    }
  }
}
