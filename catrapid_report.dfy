/**
  The end of `read_catrapid_file` and `run`: after the scan, the shards are merged into the
  stored interactions file, and one summary row is written per RNA and per protein; the protein
  means and counts are returned.
 */
module CatrapidReport {
  import opened Results
  import opened Text
  import opened Numbers
  import opened Interactions
  import opened Histograms
  import opened Catrapid
  import opened Lines
  import StringOrder

  /** The header lines of the two summary files. */
  const RnaHeader := Join(["ensembl_id", "mean_score", "median_score", "std_score", "count"], "\t") + "\n"
  const ProteinHeader := Join(["uniprotac", "mean_score", "median_score", "std_score", "count"], "\t") + "\n"

  // ---------------------------------------------------------------------------------------------
  // Summary rows

  /** The row of an identifier: all its interactions filtered out, or the statistics of its surviving scores. */
  datatype Row = FilteredOut | Scored(stats: Stats)

  /** The row the reporter writes for `id`, from the histograms the scan of `recs` leaves. */
  function RowFor(f: Filters, recs: seq<Interaction>, side: Side, id: string): Row {
    FrequenciesKeys(f, recs, side, id);
    var hs := ScoreFrequencies(f, recs, side);
    if id in hs then Scored(StatsOf(hs[id])) else FilteredOut
  }

  /**
    An identifier has statistics exactly when one of its interactions survived; its count is the
    number of survivors, its mean the mean of their rounded scores, and its median the median of
    those scores sorted.
   */
  lemma RowMeaning(f: Filters, recs: seq<Interaction>, side: Side, id: string)
    ensures RowFor(f, recs, side, id).Scored? <==> Survivors(f, recs, side, id) > 0
    ensures RowFor(f, recs, side, id).Scored? ==>
      var t := SurvivorTenths(f, recs, side, id);
      var s := RowFor(f, recs, side, id).stats;
      && s.count == |t| >= 1
      && s.mean == Fraction(Sum(t), 10 * |t|)
      && forall sorted | Ascending(sorted) && multiset(sorted) == multiset(t) :: |sorted| >= 1 && s.median == Median(sorted)
  {
    FrequenciesKeys(f, recs, side, id);
    var hs := ScoreFrequencies(f, recs, side);
    if id in hs {
      var t := SurvivorTenths(f, recs, side, id);
      var scores := Expand(hs[id]);
      HistogramScores(f, recs, side, id);
      MassIsSurvivors(f, recs, side, id);
      SumPermutation(scores, t);
      forall sorted | Ascending(sorted) && multiset(sorted) == multiset(t)
        ensures |sorted| >= 1 && StatsOf(hs[id]).median == Median(sorted)
      {
        AscendingUnique(sorted, scores);
      }
    }
  }

  /** The row of an identifier all of whose interactions were filtered out: `"%s\t%s\t%s\t%s\t%s\n"` with the tag four times. */
  function SentinelRow(id: string): string {
    var tag := AllInteractionsFilteredTag;
    Join([id, tag, tag, tag, tag], "\t") + "\n"
  }

  /** The columns of a text line, without its line break. */
  function Columns(line: string): seq<string>
    requires line != []
  {
    Split(line[..|line| - 1], '\t')
  }

  /** The sentinel row has the identifier and the tag in the four value columns. */
  lemma SentinelColumns(id: string)
    requires '\t' !in id
    ensures var tag := AllInteractionsFilteredTag; Columns(SentinelRow(id)) == [id, tag, tag, tag, tag]
  {
    var tag := AllInteractionsFilteredTag;
    JoinedLineFields([id, tag, tag, tag, tag], '\t');
  }

  /** Both summary headers have five columns, as many as a sentinel row. */
  lemma HeaderColumns()
    ensures Columns(RnaHeader) == ["ensembl_id", "mean_score", "median_score", "std_score", "count"]
    ensures Columns(ProteinHeader) == ["uniprotac", "mean_score", "median_score", "std_score", "count"]
  {
    JoinedLineFields(["ensembl_id", "mean_score", "median_score", "std_score", "count"], '\t');
    JoinedLineFields(["uniprotac", "mean_score", "median_score", "std_score", "count"], '\t');
  }

  /**
    Lines 259-318 for one side: a row per identifier of `ids`, statistics when it has a histogram
    and the sentinel otherwise, and the mean and count of every identifier with statistics
    (`proteinInteractionsMean` and `proteinInteractionsCounter`; the RNA loop keeps none).
    The rows are a map: the source writes them in set iteration order.
   */
  method Summarize(ids: set<string>, freqs: map<string, Histogram>)
    returns (rows: map<string, Row>, means: map<string, Fraction>, counts: map<string, nat>)
    requires forall id | id in freqs :: Valid(freqs[id]) && freqs[id] != map[]
    ensures rows.Keys == ids
    ensures forall id | id in ids :: rows[id] == if id in freqs then Scored(StatsOf(freqs[id])) else FilteredOut
    ensures means.Keys == ids * freqs.Keys && counts.Keys == ids * freqs.Keys
    ensures forall id | id in means :: means[id] == StatsOf(freqs[id]).mean
    ensures forall id | id in counts :: counts[id] == StatsOf(freqs[id]).count
  {
    rows, means, counts := map[], map[], map[];
    var rest := ids;
    while rest != {}
      invariant rest <= ids && rows.Keys == ids - rest
      invariant means.Keys == (ids - rest) * freqs.Keys && counts.Keys == means.Keys
      invariant Summarized(freqs, rows, means, counts)
      decreases |rest|
    {
      rest, rows, means, counts := SummarizeOne(ids, freqs, rest, rows, means, counts);
    }
  }

  /** Every row, mean and count computed so far is that of its identifier's histogram. */
  predicate Summarized(freqs: map<string, Histogram>, rows: map<string, Row>, means: map<string, Fraction>, counts: map<string, nat>)
    requires forall id | id in freqs :: Valid(freqs[id]) && freqs[id] != map[]
  {
    && (forall id | id in rows :: rows[id] == if id in freqs then Scored(StatsOf(freqs[id])) else FilteredOut)
    && (forall id | id in means :: id in freqs && means[id] == StatsOf(freqs[id]).mean)
    && (forall id | id in counts :: id in freqs && counts[id] == StatsOf(freqs[id]).count)
  }

  /** The row of one identifier not summarized yet, with its mean and count when it has a histogram. */
  method SummarizeOne(ids: set<string>, freqs: map<string, Histogram>, rest: set<string>,
                      rows: map<string, Row>, means: map<string, Fraction>, counts: map<string, nat>)
    returns (rest': set<string>, rows': map<string, Row>, means': map<string, Fraction>, counts': map<string, nat>)
    requires forall id | id in freqs :: Valid(freqs[id]) && freqs[id] != map[]
    requires rest != {} && rest <= ids && rows.Keys == ids - rest
    requires means.Keys == (ids - rest) * freqs.Keys && counts.Keys == means.Keys
    requires Summarized(freqs, rows, means, counts)
    ensures rest' <= ids && |rest'| < |rest| && rows'.Keys == ids - rest'
    ensures means'.Keys == (ids - rest') * freqs.Keys && counts'.Keys == means'.Keys
    ensures Summarized(freqs, rows', means', counts')
  {
    var id :| id in rest;
    rest' := rest - {id};
    SummarizedPut(freqs, rows, means, counts, id);
    KeysStep(ids, rest, freqs.Keys, id);
    if id in freqs {
      var stats := StatsOf(freqs[id]);
      rows', means', counts' := rows[id := Scored(stats)], means[id := stats.mean], counts[id := stats.count];
      PutKeys(rows, id, Scored(stats));
      PutKeys(means, id, stats.mean);
      PutKeys(counts, id, stats.count);
    } else {
      rows', means', counts' := rows[id := FilteredOut], means, counts;
      PutKeys(rows, id, FilteredOut);
    }
  }

  lemma PutKeys<V>(m: map<string, V>, k: string, v: V)
    ensures m[k := v].Keys == m.Keys + {k}
  {
  }

  /** Moving `id` from the identifiers left to those done. */
  lemma KeysStep(ids: set<string>, rest: set<string>, keys: set<string>, id: string)
    requires id in rest && rest <= ids
    ensures ids - (rest - {id}) == (ids - rest) + {id}
    ensures (ids - (rest - {id})) * keys == (ids - rest) * keys + (if id in keys then {id} else {})
    ensures rest - {id} <= ids && |rest - {id}| < |rest|
  {
  }

  /** Summarizing one more identifier keeps everything summarized. */
  lemma SummarizedPut(freqs: map<string, Histogram>, rows: map<string, Row>, means: map<string, Fraction>,
                      counts: map<string, nat>, id: string)
    requires forall id | id in freqs :: Valid(freqs[id]) && freqs[id] != map[]
    requires Summarized(freqs, rows, means, counts)
    ensures id in freqs ==>
      Summarized(freqs, rows[id := Scored(StatsOf(freqs[id]))], means[id := StatsOf(freqs[id]).mean],
                 counts[id := StatsOf(freqs[id]).count])
    ensures id !in freqs ==> Summarized(freqs, rows[id := FilteredOut], means, counts)
  {
  }

  // ---------------------------------------------------------------------------------------------
  // The whole run

  /** What a run produces. `storedInteractions` is the merged shard file, when interactions are written. */
  datatype Outcome = Outcome(
    lineCount: nat,
    storedInteractions: Option<string>,
    rnaRows: map<string, Row>,
    proteinRows: map<string, Row>,
    proteinMeans: map<string, Fraction>,
    proteinCounts: map<string, nat>)

  /** The merged file: the shards concatenated in number order. */
  function MergeInNumberOrder(shards: seq<string>): (merged: string) {
    Concat(shards)
  }

  /**
    What a run that read `lines` as `recs` under the filters `f` reports: the line count, the
    surviving lines in input order as the stored file, a row per seen identifier as `RowFor`
    gives it, and the count (the number of survivors) and the mean of every protein with
    survivors.
   */
  ghost predicate Reports(f: Filters, lines: seq<string>, recs: seq<Interaction>, writeInteractions: bool, o: Outcome)
    requires |recs| == |lines|
  {
    && o.lineCount == |lines|
    && o.storedInteractions == (if writeInteractions then Some(Concat(KeptLines(f, lines, recs))) else None)
    && o.rnaRows.Keys == Seen(recs, RnaSide)
    && o.proteinRows.Keys == Seen(recs, ProteinSide)
    && (forall id | id in o.rnaRows :: o.rnaRows[id] == RowFor(f, recs, RnaSide, id))
    && (forall id | id in o.proteinRows :: o.proteinRows[id] == RowFor(f, recs, ProteinSide, id))
    && (forall id :: id in o.proteinCounts <==> Survivors(f, recs, ProteinSide, id) > 0)
    && o.proteinMeans.Keys == o.proteinCounts.Keys
    && (forall id | id in o.proteinCounts :: o.proteinCounts[id] == Survivors(f, recs, ProteinSide, id))
    && (forall id | id in o.proteinMeans ::
          RowFor(f, recs, ProteinSide, id).Scored? && o.proteinMeans[id] == RowFor(f, recs, ProteinSide, id).stats.mean)
  }

  /**
    `read_catrapid_file`: the cutoff is read first, then the scan, the merge of the shards (in
    number order) and the two summaries; an allow-set is on when it is not empty.
   */
  method ReadCatrapidFile(lines: seq<string>, cutoffText: string,
                          wantedPairs: set<string>, wantedRnas: set<string>, wantedProteins: set<string>,
                          writeInteractions: bool, batchSize: int)
    returns (r: Result<Outcome, ScanError>)
    ensures r == Err(BadCutoff) <==> ParseCutoff(cutoffText).None?
    ensures r.Ok? <==>
      ParseCutoff(cutoffText).Some? && (batchSize != 0 || lines == []) && ParseAll(ParseInteraction, lines).Some?
    ensures r.Ok? ==>
      Reports(Filters(ParseCutoff(cutoffText).value, wantedRnas, wantedProteins, wantedPairs),
              lines, ParseAll(ParseInteraction, lines).value, writeInteractions, r.value)
  {
    var cutoff := ParseCutoff(cutoffText);
    if cutoff.None? {
      return Err(BadCutoff);
    }
    var f := Filters(cutoff.value, wantedRnas, wantedProteins, wantedPairs);
    var scan := ScanLines(ParseInteraction, lines, f, writeInteractions, batchSize);
    if scan.Err? {
      return Err(scan.error);
    }
    var o := Report(f, lines, ParseAll(ParseInteraction, lines).value, writeInteractions, batchSize, scan.value);
    r := Ok(o);
  }

  /** Lines 244-318: the merge and the two summaries, once the scan of `lines` into `recs` is done. */
  method Report(f: Filters, lines: seq<string>, ghost recs: seq<Interaction>, writeInteractions: bool, batchSize: int, rd: Reader)
    returns (o: Outcome)
    requires |recs| == |lines| && rd.lineCount == |lines|
    requires rd.allRnas == Seen(recs, RnaSide) && rd.allProteins == Seen(recs, ProteinSide)
    requires rd.proteinFrequencies == ScoreFrequencies(f, recs, ProteinSide)
    requires rd.rnaFrequencies == ScoreFrequencies(f, recs, RnaSide)
    requires rd.shards == (if writeInteractions then Shards(Pieces(f, lines, recs), Width(batchSize)) else [])
    ensures Reports(f, lines, recs, writeInteractions, o)
  {
    var stored := None;
    if writeInteractions {
      MergedShardsAreKeptLines(f, lines, recs, Width(batchSize));
      stored := Some(MergeInNumberOrder(rd.shards));
    }
    FrequenciesValid(f, recs, ProteinSide);
    FrequenciesValid(f, recs, RnaSide);
    var rnaRows, _, _ := Summarize(rd.allRnas, rd.rnaFrequencies);
    var proteinRows, means, counts := Summarize(rd.allProteins, rd.proteinFrequencies);
    RowsAreRowFor(f, recs, RnaSide, rnaRows);
    RowsAreRowFor(f, recs, ProteinSide, proteinRows);
    SummaryFacts(f, recs, means, counts);
    o := Outcome(rd.lineCount, stored, rnaRows, proteinRows, means, counts);
  }

  /** The rows `Summarize` returns for a side are those `RowFor` gives. */
  lemma RowsAreRowFor(f: Filters, recs: seq<Interaction>, side: Side, rows: map<string, Row>)
    requires forall id | id in ScoreFrequencies(f, recs, side) ::
      Valid(ScoreFrequencies(f, recs, side)[id]) && ScoreFrequencies(f, recs, side)[id] != map[]
    requires forall id | id in rows ::
      rows[id] == (if id in ScoreFrequencies(f, recs, side) then Scored(StatsOf(ScoreFrequencies(f, recs, side)[id])) else FilteredOut)
    ensures forall id | id in rows :: rows[id] == RowFor(f, recs, side, id)
  {
  }

  /** The protein means and counts `Summarize` returns, read back in terms of the survivors. */
  lemma SummaryFacts(f: Filters, recs: seq<Interaction>, means: map<string, Fraction>, counts: map<string, nat>)
    requires forall id | id in ScoreFrequencies(f, recs, ProteinSide) ::
      Valid(ScoreFrequencies(f, recs, ProteinSide)[id]) && ScoreFrequencies(f, recs, ProteinSide)[id] != map[]
    requires means.Keys == Seen(recs, ProteinSide) * ScoreFrequencies(f, recs, ProteinSide).Keys
    requires counts.Keys == means.Keys
    requires forall id | id in means :: means[id] == StatsOf(ScoreFrequencies(f, recs, ProteinSide)[id]).mean
    requires forall id | id in counts :: counts[id] == StatsOf(ScoreFrequencies(f, recs, ProteinSide)[id]).count
    ensures forall id :: id in counts <==> Survivors(f, recs, ProteinSide, id) > 0
    ensures forall id | id in counts :: counts[id] == Survivors(f, recs, ProteinSide, id)
    ensures forall id | id in means ::
      RowFor(f, recs, ProteinSide, id).Scored? && means[id] == RowFor(f, recs, ProteinSide, id).stats.mean
  {
    FrequenciesSeen(f, recs, ProteinSide);
    forall id
      ensures id in counts <==> Survivors(f, recs, ProteinSide, id) > 0
      ensures id in counts ==> counts[id] == Survivors(f, recs, ProteinSide, id)
    {
      FrequenciesKeys(f, recs, ProteinSide, id);
      MassIsSurvivors(f, recs, ProteinSide, id);
    }
  }

  /** `run`: the three filter files (`None` when no file name is given), then the catRAPID file. */
  method Run(lines: seq<string>, cutoffText: string,
             pairFile: Option<seq<string>>, rnaFile: Option<seq<string>>, proteinFile: Option<seq<string>>,
             writeInteractions: bool, batchSize: int)
    returns (r: Result<Outcome, ScanError>)
    ensures r.Ok? <==>
      ParseCutoff(cutoffText).Some? && (batchSize != 0 || lines == []) && ParseAll(ParseInteraction, lines).Some?
    ensures r.Ok? ==>
      Reports(Filters(ParseCutoff(cutoffText).value, ReadIdFilter(rnaFile), ReadIdFilter(proteinFile), ReadPairFilter(pairFile)),
              lines, ParseAll(ParseInteraction, lines).value, writeInteractions, r.value)
  {
    var wantedPairs := ReadPairFilter(pairFile);
    var wantedRnas := ReadIdFilter(rnaFile);
    var wantedProteins := ReadIdFilter(proteinFile);
    r := ReadCatrapidFile(lines, cutoffText, wantedPairs, wantedRnas, wantedProteins, writeInteractions, batchSize);
  }

  // ---------------------------------------------------------------------------------------------
  // The merge as written (line 247): `cat temp_storedInteractions_* > storedInteractions.tsv`

  /** `TEMP_STORED_INTERACTIONS_FILENAME`: the name of a shard file, after the output folder, up to its number. */
  const TempStoredInteractionsFileName := "/temp_storedInteractions_"

  /** The name of shard number `n` (lines 175 and 239), without the output folder they all share. */
  function ShardFileName(n: nat): string {
    TempStoredInteractionsFileName + NatToString(n) + ".tsv"
  }

  /**
    An order in which the shell's glob can list the shard files `1..n`: each number once, by
    ascending file name.
   */
  predicate GlobOrder(n: nat, order: seq<nat>) {
    && |order| == n
    && (forall k | 0 <= k < n :: 1 <= order[k] <= n)
    && (forall m | 1 <= m <= n :: m in order)
    && (forall i, j | 0 <= i < j < n :: StringOrder.Less(ShardFileName(order[i]), ShardFileName(order[j])))
  }

  /** The shards in the listed order. */
  function Listed(shards: seq<string>, order: seq<nat>): (listed: seq<string>)
    requires forall k | 0 <= k < |order| :: 1 <= order[k] <= |shards|
    ensures |listed| == |order| && forall k | 0 <= k < |order| :: listed[k] == shards[order[k] - 1]
    decreases |order|
  {
    if order == [] then [] else Listed(shards, order[..|order| - 1]) + [shards[order[|order| - 1] - 1]]
  }

  /** The merged file as the script writes it: the shards concatenated in the glob's order. */
  function GlobMerge(shards: seq<string>, order: seq<nat>): string
    requires forall k | 0 <= k < |order| :: 1 <= order[k] <= |shards|
  {
    Concat(Listed(shards, order))
  }

  /** Strings that share a prefix compare as what follows it. */
  lemma {:induction false} LessCommonPrefix(p: string, a: string, b: string)
    ensures StringOrder.Less(p + a, p + b) == StringOrder.Less(a, b)
    decreases |p|
  {
    if p != [] {
      assert (p + a)[0] == p[0] == (p + b)[0];
      assert (p + a)[1..] == p[1..] + a && (p + b)[1..] == p[1..] + b;
      LessCommonPrefix(p[1..], a, b);
    } else {
      assert p + a == a && p + b == b;
    }
  }

  /** By name, shard 10 sorts before shard 2. */
  lemma ShardTenBeforeTwo()
    ensures StringOrder.Less(ShardFileName(10), ShardFileName(2))
  {
    assert NatToString(10) == "10" && NatToString(2) == "2";
    var p := TempStoredInteractionsFileName;
    assert ShardFileName(10) == p + "10.tsv" && ShardFileName(2) == p + "2.tsv";
    LessCommonPrefix(p, "10.tsv", "2.tsv");
  }

  /** Whatever order the glob lists its matches in, shard 10 comes before shard 2. */
  lemma GlobListsTenBeforeTwo(n: nat, order: seq<nat>)
    requires GlobOrder(n, order)
    ensures forall i, j | 0 <= i < n && 0 <= j < n && order[i] == 10 && order[j] == 2 :: i < j
  {
    ShardTenBeforeTwo();
    StringOrder.Asymmetric(ShardFileName(10), ShardFileName(2));
  }

  /** Concatenations of equally long parts are equal only when the parts are. */
  lemma {:induction false} ConcatInjective(a: seq<string>, b: seq<string>, width: nat)
    requires |a| == |b|
    requires forall k | 0 <= k < |a| :: |a[k]| == width
    requires forall k | 0 <= k < |b| :: |b[k]| == width
    ensures Concat(a) == Concat(b) ==> a == b
    decreases |a|
  {
    if a != [] {
      var n := |a| - 1;
      ConcatInjective(a[..n], b[..n], width);
      if Concat(a) == Concat(b) {
        var x := Concat(a[..n]);
        var y := Concat(b[..n]);
        assert |x| == |y|;
        assert x == Concat(a)[..|x|] && y == Concat(b)[..|y|];
        assert a[n] == Concat(a)[|x|..] && b[n] == Concat(b)[|y|..];
        assert a == a[..n] + [a[n]] && b == b[..n] + [b[n]];
      }
    }
  }

  /**
    With ten or more shards of different contents and one length (ten equally long surviving lines
    with `batchSize` 1, say), the merged file as written is not the surviving lines in input order.
   */
  lemma GlobMergeMisorders(shards: seq<string>, order: seq<nat>, width: nat)
    requires |shards| >= 10 && GlobOrder(|shards|, order)
    requires forall k | 0 <= k < |shards| :: |shards[k]| == width
    requires forall i, j | 0 <= i < j < |shards| :: shards[i] != shards[j]
    ensures GlobMerge(shards, order) != MergeInNumberOrder(shards)
  {
    var n := |shards|;
    GlobListsTenBeforeTwo(n, order);
    assert 10 in order && 2 in order;
    var i :| 0 <= i < n && order[i] == 10;
    var j :| 0 <= j < n && order[j] == 2;
    var listed := Listed(shards, order);
    ConcatInjective(listed, shards, width);
    assert listed[i] == shards[9] && listed[j] == shards[1];
  }
}
