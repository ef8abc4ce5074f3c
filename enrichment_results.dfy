/**
  Reading the enrichment results file (one line per transcript-annotation test, after a header):
  lines of transcripts outside the selection are skipped; the others give the pair map
  "transcript|annotation" -> matrix value, the values of each annotation, the transcripts and
  annotations seen, and, when warning filtering is on, the retained lines. A flagged, not
  significant or too weakly supported test keeps its place in the matrix with the warning value.
  Lines are given as Python iterates a file, newline included.
 */
module EnrichmentResults {
  import opened Results
  import opened Text
  import opened Numbers
  import opened Lines

  /** The options of the reading: the column of the matrix value (a Python index: negative counts
      from the end), the warning filter (on when non-zero), the least number of observed
      interactions (-1: off) and the value that stands for a filtered test. */
  datatype Options = Options(valueColumn: int, filterWarning: int, minimumInteractions: int, warningValue: string)

  /** A line after the header: a transcript outside the selection, or a test of the selection with
      its transcript, annotation, observed interactions, warning and significance flags, the text of
      the value column and the stripped line. */
  datatype Record =
    | OtherRna
    | Test(txID: string, annotID: string, observed: int, warning: int, sign: int, value: string, line: string)

  /** `spl[i]` with Python's indexing: a negative index counts from the end; out of range raises. */
  function PyIndex(spl: seq<string>, i: int): Option<string> {
    if 0 <= i < |spl| then Some(spl[i])
    else if -|spl| <= i < 0 then Some(spl[|spl| + i])
    else None
  }

  /**
    One line after the header: the transcript is the first tab field of the raw line; outside the
    selection nothing else is read. Otherwise the stripped line must have the fields 1, 2, 5 and 8
    (the last three read by `int`) and the value column; anything less raises.
   */
  function ParseRecord(selected: set<string>, valueColumn: int, line: string): (r: Option<Record>)
    ensures r == Some(OtherRna) <==> Split(line, '\t')[0] !in selected
    ensures r.Some? && r.value.Test? ==> r.value.txID == Split(line, '\t')[0] && r.value.line == Strip(line)
  {
    var txID := Split(line, '\t')[0];
    if txID !in selected then Some(OtherRna)
    else
      var stripped := Strip(line);
      var spl := Split(stripped, '\t');
      if |spl| < 9 then None
      else
        match (ParseInt(spl[2]), ParseInt(spl[5]), ParseInt(spl[8]), PyIndex(spl, valueColumn))
        case (Some(observed), Some(warning), Some(sign), Some(value)) =>
          Some(Test(txID, spl[1], observed, warning, sign, value, stripped))
        case _ => None
  }

  // ---------------------------------------------------------------------------------------------
  // One test

  /** The pair key of a test, `txID + "|" + annotID`. */
  function Key(rec: Record): string
    requires rec.Test?
  {
    rec.txID + "|" + rec.annotID
  }

  /** Carries a warning or is not significant. */
  predicate Flagged(rec: Record)
    requires rec.Test?
  {
    rec.warning != 0 || rec.sign == 0
  }

  /** Under the minimum number of observed interactions, when that filter is on. */
  predicate TooFew(rec: Record, opts: Options)
    requires rec.Test?
  {
    opts.minimumInteractions != -1 && rec.observed < opts.minimumInteractions
  }

  /** Excluded by the minimum: filtering is on and the test is not flagged, but has too few interactions. */
  predicate BelowMinimum(rec: Record, opts: Options)
    requires rec.Test?
  {
    opts.filterWarning != 0 && !Flagged(rec) && TooFew(rec, opts)
  }

  /** Retained: filtering is on and the test is neither flagged nor below the minimum. */
  predicate Kept(rec: Record, opts: Options)
    requires rec.Test?
  {
    opts.filterWarning != 0 && !Flagged(rec) && !TooFew(rec, opts)
  }

  /** The value a test puts in the matrix: the warning value when filtering is on and the test is not
      retained, its value column otherwise. */
  function Cell(rec: Record, opts: Options): (v: string)
    requires rec.Test?
    ensures opts.filterWarning == 0 ==> v == rec.value
    ensures opts.filterWarning != 0 ==> (v == rec.value <== Kept(rec, opts)) && (!Kept(rec, opts) ==> v == opts.warningValue)
  {
    if opts.filterWarning != 0 && !Kept(rec, opts) then opts.warningValue else rec.value
  }

  // ---------------------------------------------------------------------------------------------
  // What the loop builds, as functions of the records read so far

  /** `excludedByRNA`. */
  function OtherCount(recs: seq<Record>): nat
    decreases |recs|
  {
    if recs == [] then 0
    else OtherCount(recs[..|recs| - 1]) + (if recs[|recs| - 1].OtherRna? then 1 else 0)
  }

  /** `excludedByMinimumInteractions`. */
  function BelowMinimumCount(recs: seq<Record>, opts: Options): nat
    decreases |recs|
  {
    if recs == [] then 0
    else
      var last := recs[|recs| - 1];
      BelowMinimumCount(recs[..|recs| - 1], opts) + (if last.Test? && BelowMinimum(last, opts) then 1 else 0)
  }

  /** The retained lines, stripped, in file order (`filteredEnrichmentResults` after its header). */
  function Retained(recs: seq<Record>, opts: Options): seq<string>
    decreases |recs|
  {
    if recs == [] then []
    else
      var last := recs[|recs| - 1];
      Retained(recs[..|recs| - 1], opts) + (if last.Test? && Kept(last, opts) then [last.line] else [])
  }

  /** `dictPairs`: pair key -> matrix value. */
  function PairMap(recs: seq<Record>, opts: Options): map<string, string>
    decreases |recs|
  {
    if recs == [] then map[]
    else
      var last := recs[|recs| - 1];
      var m := PairMap(recs[..|recs| - 1], opts);
      if last.Test? then m[Key(last) := Cell(last, opts)] else m
  }

  /** `annotValues`: annotation -> the matrix values of its tests, in file order. */
  function AnnotValues(recs: seq<Record>, opts: Options): map<string, seq<string>>
    decreases |recs|
  {
    if recs == [] then map[]
    else
      var last := recs[|recs| - 1];
      var m := AnnotValues(recs[..|recs| - 1], opts);
      if last.Test? then
        m[last.annotID := (if last.annotID in m then m[last.annotID] else []) + [Cell(last, opts)]]
      else m
  }

  /** `setRNAs`. */
  function Rnas(recs: seq<Record>): set<string>
    decreases |recs|
  {
    if recs == [] then {}
    else Rnas(recs[..|recs| - 1]) + (if recs[|recs| - 1].Test? then {recs[|recs| - 1].txID} else {})
  }

  /** `setAnnots`. */
  function Annots(recs: seq<Record>): set<string>
    decreases |recs|
  {
    if recs == [] then {}
    else Annots(recs[..|recs| - 1]) + (if recs[|recs| - 1].Test? then {recs[|recs| - 1].annotID} else {})
  }

  /** Everything the reading loop keeps. */
  datatype ResultsState = ResultsState(
    excludedByRna: nat, excludedByMinimum: nat, retained: seq<string>,
    pairs: map<string, string>, annotValues: map<string, seq<string>>,
    rnas: set<string>, annots: set<string>)

  function StateOf(recs: seq<Record>, opts: Options): ResultsState {
    ResultsState(OtherCount(recs), BelowMinimumCount(recs, opts), Retained(recs, opts),
                 PairMap(recs, opts), AnnotValues(recs, opts), Rnas(recs), Annots(recs))
  }

  /** No two tests share a pair key; a repeated key raises. */
  predicate DistinctPairs(recs: seq<Record>) {
    forall i, j | 0 <= i < j < |recs| && recs[i].Test? && recs[j].Test? :: Key(recs[i]) != Key(recs[j])
  }

  /** Appending a record to distinct tests keeps them distinct exactly when the record is not a
      test or its pair is new. */
  lemma DistinctSnoc(recs: seq<Record>, rec: Record)
    requires DistinctPairs(recs)
    ensures DistinctPairs(recs + [rec]) <==> (rec.Test? ==> Key(rec) !in PairKeys(recs))
  {
    if rec.Test? && Key(rec) in PairKeys(recs) {
      var i :| 0 <= i < |recs| && recs[i].Test? && Key(recs[i]) == Key(rec);
      assert (recs + [rec])[i] == recs[i] && (recs + [rec])[|recs|] == rec;
    } else {
      forall a, b | 0 <= a < b < |recs| + 1 && (recs + [rec])[a].Test? && (recs + [rec])[b].Test?
        ensures Key((recs + [rec])[a]) != Key((recs + [rec])[b])
      {
        if b == |recs| {
          assert Key(recs[a]) in PairKeys(recs);
        }
      }
    }
  }

  /** The pair keys of the tests. */
  function PairKeys(recs: seq<Record>): set<string> {
    set i | 0 <= i < |recs| && recs[i].Test? :: Key(recs[i])
  }

  /** The number of tests. */
  function TestCount(recs: seq<Record>): nat
    decreases |recs|
  {
    if recs == [] then 0
    else TestCount(recs[..|recs| - 1]) + (if recs[|recs| - 1].Test? then 1 else 0)
  }

  // ---------------------------------------------------------------------------------------------
  // Properties

  /** Every line after the header is either skipped or a test. */
  lemma {:induction false} CountsAddUp(recs: seq<Record>)
    ensures OtherCount(recs) + TestCount(recs) == |recs|
    decreases |recs|
  {
    if recs != [] {
      CountsAddUp(recs[..|recs| - 1]);
    }
  }

  /** The pair map has a key for every test and no other. */
  lemma {:induction false} PairMapKeys(recs: seq<Record>, opts: Options)
    ensures PairMap(recs, opts).Keys == PairKeys(recs)
    decreases |recs|
  {
    if recs != [] {
      var n := |recs| - 1;
      PairMapKeys(recs[..n], opts);
      forall k
        ensures k in PairKeys(recs) <==> k in PairKeys(recs[..n]) || (recs[n].Test? && k == Key(recs[n]))
      {
        if k in PairKeys(recs) && !(recs[n].Test? && k == Key(recs[n])) {
          var i :| 0 <= i < |recs| && recs[i].Test? && Key(recs[i]) == k;
          assert recs[..n][i] == recs[i];
        }
        if k in PairKeys(recs[..n]) {
          var i :| 0 <= i < n && recs[..n][i].Test? && Key(recs[..n][i]) == k;
          assert recs[i] == recs[..n][i];
        }
      }
    }
  }

  /** Without repeated keys the pair map holds, for every test, the value that test puts in the
      matrix, and has one entry per test. */
  lemma {:induction false} PairMapValues(recs: seq<Record>, opts: Options)
    requires DistinctPairs(recs)
    ensures forall i | 0 <= i < |recs| && recs[i].Test? ::
      Key(recs[i]) in PairMap(recs, opts) && PairMap(recs, opts)[Key(recs[i])] == Cell(recs[i], opts)
    ensures |PairMap(recs, opts)| == TestCount(recs)
    decreases |recs|
  {
    if recs != [] {
      var n := |recs| - 1;
      var init := recs[..n];
      assert DistinctPairs(init) by {
        forall i, j | 0 <= i < j < |init| && init[i].Test? && init[j].Test?
          ensures Key(init[i]) != Key(init[j])
        {
          assert init[i] == recs[i] && init[j] == recs[j];
        }
      }
      PairMapValues(init, opts);
      PairMapKeys(init, opts);
      forall i | 0 <= i < |recs| && recs[i].Test?
        ensures Key(recs[i]) in PairMap(recs, opts) && PairMap(recs, opts)[Key(recs[i])] == Cell(recs[i], opts)
      {
        if i < n {
          assert init[i] == recs[i];
          assert recs[n].Test? ==> Key(recs[i]) != Key(recs[n]);
        }
      }
      if recs[n].Test? {
        forall i | 0 <= i < n && init[i].Test?
          ensures Key(init[i]) != Key(recs[n])
        {
          assert init[i] == recs[i];
        }
        assert Key(recs[n]) !in PairKeys(init);
      }
    }
  }

  /** A transcript is in `setRNAs` exactly when some test names it. */
  lemma {:induction false} RnasIff(recs: seq<Record>, tx: string)
    ensures tx in Rnas(recs) <==> exists i | 0 <= i < |recs| :: recs[i].Test? && recs[i].txID == tx
    decreases |recs|
  {
    if recs != [] {
      var n := |recs| - 1;
      RnasIff(recs[..n], tx);
      if exists i | 0 <= i < |recs| :: recs[i].Test? && recs[i].txID == tx {
        var i :| 0 <= i < |recs| && recs[i].Test? && recs[i].txID == tx;
        if i < n {
          assert recs[..n][i] == recs[i];
        }
      }
      if tx in Rnas(recs[..n]) {
        var i :| 0 <= i < n && recs[..n][i].Test? && recs[..n][i].txID == tx;
        assert recs[i] == recs[..n][i];
      }
    }
  }

  /** An annotation is in `setAnnots` exactly when some test names it. */
  lemma {:induction false} AnnotsIff(recs: seq<Record>, annot: string)
    ensures annot in Annots(recs) <==> exists i | 0 <= i < |recs| :: recs[i].Test? && recs[i].annotID == annot
    decreases |recs|
  {
    if recs != [] {
      var n := |recs| - 1;
      AnnotsIff(recs[..n], annot);
      if exists i | 0 <= i < |recs| :: recs[i].Test? && recs[i].annotID == annot {
        var i :| 0 <= i < |recs| && recs[i].Test? && recs[i].annotID == annot;
        if i < n {
          assert recs[..n][i] == recs[i];
        }
      }
      if annot in Annots(recs[..n]) {
        var i :| 0 <= i < n && recs[..n][i].Test? && recs[..n][i].annotID == annot;
        assert recs[i] == recs[..n][i];
      }
    }
  }

  /** `annotValues` has an entry for every annotation of `setAnnots`, holding exactly the matrix
      values of that annotation's tests. */
  lemma {:induction false} AnnotValuesIff(recs: seq<Record>, opts: Options, annot: string)
    ensures annot in AnnotValues(recs, opts) <==> annot in Annots(recs)
    ensures annot in AnnotValues(recs, opts) ==> forall v ::
      v in AnnotValues(recs, opts)[annot] <==>
      exists i | 0 <= i < |recs| :: recs[i].Test? && recs[i].annotID == annot && Cell(recs[i], opts) == v
    decreases |recs|
  {
    if recs != [] {
      var n := |recs| - 1;
      var init := recs[..n];
      AnnotValuesIff(init, opts, annot);
      if annot in AnnotValues(recs, opts) {
        forall v
          ensures v in AnnotValues(recs, opts)[annot] <==>
            exists i | 0 <= i < |recs| :: recs[i].Test? && recs[i].annotID == annot && Cell(recs[i], opts) == v
        {
          if exists i | 0 <= i < |recs| :: recs[i].Test? && recs[i].annotID == annot && Cell(recs[i], opts) == v {
            var i :| 0 <= i < |recs| && recs[i].Test? && recs[i].annotID == annot && Cell(recs[i], opts) == v;
            if i < n {
              assert init[i] == recs[i];
              AnnotsIff(init, annot);
              assert annot in AnnotValues(init, opts);
              assert v in AnnotValues(init, opts)[annot];
            }
          }
          if annot in AnnotValues(init, opts) && v in AnnotValues(init, opts)[annot] {
            var i :| 0 <= i < n && init[i].Test? && init[i].annotID == annot && Cell(init[i], opts) == v;
            assert recs[i] == init[i];
          }
        }
      }
    }
  }

  /** How often `v` occurs in `s` (Python's `list.count`). */
  function Count(s: seq<string>, v: string): nat
    decreases |s|
  {
    if s == [] then 0 else Count(s[..|s| - 1], v) + (if s[|s| - 1] == v then 1 else 0)
  }

  /** A list counts `v` as often as it is long exactly when all its elements are `v`. */
  lemma {:induction false} CountAll(s: seq<string>, v: string)
    ensures Count(s, v) <= |s|
    ensures Count(s, v) == |s| <==> forall x | x in s :: x == v
    decreases |s|
  {
    if s != [] {
      var n := |s| - 1;
      CountAll(s[..n], v);
      if Count(s, v) == |s| {
        forall x | x in s
          ensures x == v
        {
          if x != s[n] {
            assert x in s[..n];
          }
        }
      }
      if forall x | x in s :: x == v {
        assert forall x | x in s[..n] :: x in s;
        assert s[n] in s;
      }
    }
  }

  /** The annotations with no enrichment: all of whose values are the warning value. */
  function NonEnriched(annotValues: map<string, seq<string>>, w: string): set<string> {
    set a | a in annotValues && Count(annotValues[a], w) == |annotValues[a]|
  }

  /** An annotation read from the file is without enrichment exactly when every one of its tests has
      the warning value in the matrix. */
  lemma NonEnrichedIff(recs: seq<Record>, opts: Options, annot: string)
    ensures annot in NonEnriched(AnnotValues(recs, opts), opts.warningValue) <==>
      annot in Annots(recs)
      && forall i | 0 <= i < |recs| && recs[i].Test? && recs[i].annotID == annot :: Cell(recs[i], opts) == opts.warningValue
  {
    AnnotValuesIff(recs, opts, annot);
    var w := opts.warningValue;
    if annot in AnnotValues(recs, opts) {
      var vs := AnnotValues(recs, opts)[annot];
      CountAll(vs, w);
      if forall x | x in vs :: x == w {
        forall i | 0 <= i < |recs| && recs[i].Test? && recs[i].annotID == annot
          ensures Cell(recs[i], opts) == w
        {
          assert Cell(recs[i], opts) in vs;
        }
      }
    }
  }

  /** The retained lines are the stripped lines of the tests retained; with filtering off none is
      retained and none is excluded by the minimum. */
  lemma {:induction false} RetainedIff(recs: seq<Record>, opts: Options)
    ensures forall x :: x in Retained(recs, opts) <==>
      exists i | 0 <= i < |recs| :: recs[i].Test? && Kept(recs[i], opts) && recs[i].line == x
    ensures opts.filterWarning == 0 ==> Retained(recs, opts) == [] && BelowMinimumCount(recs, opts) == 0
    ensures |Retained(recs, opts)| + BelowMinimumCount(recs, opts) <= TestCount(recs)
    decreases |recs|
  {
    if recs != [] {
      var n := |recs| - 1;
      var init := recs[..n];
      RetainedIff(init, opts);
      forall x
        ensures x in Retained(recs, opts) <==>
          exists i | 0 <= i < |recs| :: recs[i].Test? && Kept(recs[i], opts) && recs[i].line == x
      {
        if exists i | 0 <= i < |recs| :: recs[i].Test? && Kept(recs[i], opts) && recs[i].line == x {
          var i :| 0 <= i < |recs| && recs[i].Test? && Kept(recs[i], opts) && recs[i].line == x;
          if i < n {
            assert init[i] == recs[i];
          }
        }
        if x in Retained(init, opts) {
          var i :| 0 <= i < n && init[i].Test? && Kept(init[i], opts) && init[i].line == x;
          assert recs[i] == init[i];
        }
      }
    }
  }

  /** Reading one more record extends every part of the state by that record. */
  lemma StateSnoc(recs: seq<Record>, rec: Record, opts: Options)
    ensures StateOf(recs + [rec], opts) ==
      var st := StateOf(recs, opts);
      match rec
      case OtherRna => st.(excludedByRna := st.excludedByRna + 1)
      case Test(_, _, _, _, _, _, _) =>
        ResultsState(
          st.excludedByRna,
          st.excludedByMinimum + (if BelowMinimum(rec, opts) then 1 else 0),
          st.retained + (if Kept(rec, opts) then [rec.line] else []),
          st.pairs[Key(rec) := Cell(rec, opts)],
          st.annotValues[rec.annotID := (if rec.annotID in st.annotValues then st.annotValues[rec.annotID] else []) + [Cell(rec, opts)]],
          st.rnas + {rec.txID},
          st.annots + {rec.annotID})
  {
    assert (recs + [rec])[..|recs|] == recs;
  }

  // ---------------------------------------------------------------------------------------------
  // The reading loop

  /**
    The loop body for one record: a transcript outside the selection is counted and skipped; a test
    gets its matrix value (the warning value when filtered), is retained when filtering is on and it
    passes, and enters the pair map, its annotation's values and the two sets.
   */
  method Step(st: ResultsState, rec: Record, opts: Options, ghost recs: seq<Record>) returns (st': ResultsState)
    requires st == StateOf(recs, opts)
    ensures st' == StateOf(recs + [rec], opts)
  {
    StateSnoc(recs, rec, opts);
    match rec {
      case OtherRna =>
        st' := st.(excludedByRna := st.excludedByRna + 1);
      case Test(txID, annotID, observed, warning, sign, v, line) =>
        var value := v;
        var excludedByMinimum := st.excludedByMinimum;
        var retained := st.retained;
        if opts.filterWarning != 0 {
          if warning != 0 || sign == 0 {
            value := opts.warningValue;
          } else if opts.minimumInteractions != -1 && observed < opts.minimumInteractions {
            excludedByMinimum := excludedByMinimum + 1;
            value := opts.warningValue;
          } else {
            retained := retained + [line];
          }
        }
        var pair := txID + "|" + annotID;
        var values := if annotID in st.annotValues then st.annotValues[annotID] else [];
        st' := ResultsState(st.excludedByRna, excludedByMinimum, retained, st.pairs[pair := value],
                            st.annotValues[annotID := values + [value]], st.rnas + {txID}, st.annots + {annotID});
    }
  }

  /** What stops the reading: a line that cannot be read, or a pair key met twice (1-based line numbers). */
  datatype ResultsError = Malformed(lineNumber: nat) | DuplicatePair(lineNumber: nat, pair: string)

  /** A repeated key in a prefix of the records repeats in all of them. */
  lemma DuplicateBlocks(parse: string -> Option<Record>, body: seq<string>, n: nat, recs: seq<Record>)
    requires n < |body| && ParseAll(parse, body[..n + 1]) == Some(recs)
    requires recs[n].Test? && Key(recs[n]) in PairKeys(recs[..n])
    ensures !(ParseAll(parse, body).Some? && DistinctPairs(ParseAll(parse, body).value))
  {
    ParseAllIff(parse, body[..n + 1]);
    if ParseAll(parse, body).Some? {
      var all := ParseAll(parse, body).value;
      ParseAllIff(parse, body);
      var i :| 0 <= i < n && recs[..n][i].Test? && Key(recs[..n][i]) == Key(recs[n]);
      assert body[..n + 1][i] == body[i] && body[..n + 1][n] == body[n];
      assert all[i] == recs[i] && all[n] == recs[n];
    }
  }

  /**
    The reading loop over the lines after the header, for any line parser: the state of all lines,
    or the first line that cannot be read or repeats a pair.
   */
  method ScanResults(parse: string -> Option<Record>, body: seq<string>, opts: Options) returns (r: Result<ResultsState, ResultsError>)
    ensures r.Ok? <==> ParseAll(parse, body).Some? && DistinctPairs(ParseAll(parse, body).value)
    ensures r.Ok? ==> r.value == StateOf(ParseAll(parse, body).value, opts)
    ensures r.Err? ==> 2 <= r.error.lineNumber < |body| + 2
    ensures r.Err? && r.error.Malformed? ==>
      var n := r.error.lineNumber - 2;
      parse(body[n]).None? && ParseAll(parse, body[..n]).Some? && DistinctPairs(ParseAll(parse, body[..n]).value)
    ensures r.Err? && r.error.DuplicatePair? ==>
      var n := r.error.lineNumber - 2;
      && ParseAll(parse, body[..n + 1]).Some?
      && var recs := ParseAll(parse, body[..n + 1]).value;
      && recs[n].Test? && Key(recs[n]) == r.error.pair
      && DistinctPairs(recs[..n]) && r.error.pair in PairKeys(recs[..n])
  {
    var st := StateOf([], opts);
    ghost var recs: seq<Record> := [];
    var i := 0;
    while i < |body|
      invariant 0 <= i <= |body|
      invariant ParseAll(parse, body[..i]) == Some(recs)
      invariant DistinctPairs(recs)
      invariant st == StateOf(recs, opts)
    {
      var parsed := parse(body[i]);
      if parsed.None? {
        ParseAllStops(parse, body, i);
        MalformedPrefix(parse, body, i + 1);
        return Err(Malformed(i + 2));
      }
      var rec := parsed.value;
      ParseAllSnoc(parse, body, i, recs, rec);
      PairMapKeys(recs, opts);
      if rec.Test? && rec.txID + "|" + rec.annotID in st.pairs {
        assert (recs + [rec])[..i] == recs;
        DuplicateBlocks(parse, body, i, recs + [rec]);
        return Err(DuplicatePair(i + 2, rec.txID + "|" + rec.annotID));
      }
      DistinctSnoc(recs, rec);
      st := Step(st, rec, opts, recs);
      recs := recs + [rec];
      i := i + 1;
    }
    assert body[..i] == body;
    return Ok(st);
  }

  /** What read_enrichment_results_file returns and writes besides the matrix: the header, the
      loop's state, and the file of retained lines (the header, then each retained line and a newline). */
  datatype ResultsRead = ResultsRead(header: string, state: ResultsState, filteredText: string)

  /** `filteredEnrichmentResults`: the header, then the retained lines. */
  function FilteredResults(read: ResultsRead): seq<string> {
    [read.header] + read.state.retained
  }

  /**
    The reading part of `read_enrichment_results_file` for the transcripts `selected`: the header
    (the empty text for an empty file), the state of the lines after it, and the filtered file; or
    the line that stops it.
   */
  method ReadEnrichmentResultsFile(lines: seq<string>, selected: set<string>, opts: Options) returns (r: Result<ResultsRead, ResultsError>)
    ensures var parse := (line: string) => ParseRecord(selected, opts.valueColumn, line);
      var body := if lines == [] then [] else lines[1..];
      && (r.Ok? <==> ParseAll(parse, body).Some? && DistinctPairs(ParseAll(parse, body).value))
      && (r.Ok? ==>
            && r.value.header == (if lines == [] then "" else lines[0])
            && r.value.state == StateOf(ParseAll(parse, body).value, opts)
            && r.value.filteredText == r.value.header + Concat(Terminated(r.value.state.retained)))
      && (r.Err? ==> 2 <= r.error.lineNumber <= |lines|)
      && (r.Err? && r.error.Malformed? ==> parse(lines[r.error.lineNumber - 1]).None?)
  {
    var parse := (line: string) => ParseRecord(selected, opts.valueColumn, line);
    var header := if lines == [] then "" else lines[0];
    var body := if lines == [] then [] else lines[1..];
    var scan := ScanResults(parse, body, opts);
    if scan.Err? {
      if scan.error.Malformed? {
        assert body[scan.error.lineNumber - 2] == lines[scan.error.lineNumber - 1];
      }
      return Err(scan.error);
    }
    var text := WriteFiltered(header, scan.value.retained);
    return Ok(ResultsRead(header, scan.value, text));
  }

  /** The file of retained lines: the header, then each retained line and a newline. */
  method WriteFiltered(header: string, retained: seq<string>) returns (text: string)
    ensures text == header + Concat(Terminated(retained))
  {
    text := header;
    for i := 0 to |retained|
      invariant text == header + Concat(Terminated(retained[..i]))
    {
      assert Terminated(retained[..i + 1])[..i] == Terminated(retained[..i]);
      text := text + (retained[i] + "\n");
    }
    assert retained[..|retained|] == retained;
  }
}
