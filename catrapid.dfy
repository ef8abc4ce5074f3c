/**
  `ReadCatrapid`: reads a catRAPID interaction file line by line, registers every protein and RNA
  it sees, filters the interactions through a fixed cascade (score cutoff, wanted RNAs, wanted
  proteins, wanted pairs), keeps per-protein and per-RNA histograms of the rounded scores of the
  survivors, spools the surviving lines into numbered shard files every `batchSize` input lines,
  and finally writes one summary row per protein and per RNA.
 */
module Catrapid {
  import opened Results
  import opened Text
  import opened Numbers
  import opened Interactions
  import opened Histograms
  import opened Lines

  /** The tag written in all four value columns of an entity whose interactions were all filtered out. */
  const AllInteractionsFilteredTag := "NA"

  // ---------------------------------------------------------------------------------------------
  // Filter files

  /**
    `read_rna_filter_file` and `read_protein_filter_file`: `{ line.strip() for line in inFile }`,
    or the empty set when no file name is given (`None`).
   */
  function ReadIdFilter(file: Option<seq<string>>): (wanted: set<string>)
    ensures file.None? ==> wanted == {}
    ensures file.Some? ==> forall i | 0 <= i < |file.value| :: Strip(file.value[i]) in wanted
    ensures file.Some? ==> forall x | x in wanted :: exists i | 0 <= i < |file.value| :: Strip(file.value[i]) == x
  {
    match file
    case None => {}
    case Some(lines) => set l | l in lines :: Strip(l)
  }

  /** The key of a line of the pair filter file: its tab-separated columns joined with `_`. */
  function PairLineKey(line: string): string {
    Join(Split(Strip(line), '\t'), "_")
  }

  /** `read_interaction_filter_file`: the set of keys of the lines, or the empty set when no file name is given. */
  function ReadPairFilter(file: Option<seq<string>>): (wanted: set<string>)
    ensures file.None? ==> wanted == {}
    ensures file.Some? ==> forall i | 0 <= i < |file.value| :: PairLineKey(file.value[i]) in wanted
    ensures file.Some? ==> forall x | x in wanted :: exists i | 0 <= i < |file.value| :: PairLineKey(file.value[i]) == x
  {
    match file
    case None => {}
    case Some(lines) => set l | l in lines :: PairLineKey(l)
  }

  /** The key of an interaction, `"_".join([protID, rnaID])`. */
  function PairKey(protein: string, rna: string): string {
    protein + "_" + rna
  }

  /** A line `protein<TAB>rna` of the pair file, whitespace around it, has the key the cascade looks up. */
  lemma PairLineKeyOfPair(w1: string, protein: string, rna: string, w2: string)
    requires AllSpace(w1) && AllSpace(w2)
    requires Trimmed(protein) && Trimmed(rna) && '\t' !in protein && '\t' !in rna
    ensures PairLineKey(w1 + protein + "\t" + rna + w2) == PairKey(protein, rna)
  {
    var t := protein + ['\t'] + rna;
    assert w1 + protein + "\t" + rna + w2 == w1 + t + w2;
    assert t[0] == protein[0] && t[|t| - 1] == rna[|rna| - 1];
    StripFramed(w1, t, w2);
    SplitAtSeparator(protein, rna, '\t');
    SplitNoSeparator(rna, '\t');
    assert Join([protein, rna], "_") == protein + "_" + Join([rna], "_");
  }

  /** A file of identifiers, one per line, is read as exactly the set of those identifiers. */
  lemma IdFilterOfIds(lines: seq<string>, ids: seq<string>, newline: string)
    requires |lines| == |ids| && AllSpace(newline)
    requires forall i | 0 <= i < |ids| :: Trimmed(ids[i]) && lines[i] == ids[i] + newline
    ensures ReadIdFilter(Some(lines)) == set i | 0 <= i < |ids| :: ids[i]
  {
    forall i | 0 <= i < |ids|
      ensures Strip(lines[i]) == ids[i]
    {
      StripLine(ids[i], newline);
    }
    StrippedSet(lines, ids);
  }

  /** An identifier followed by its line ending strips back to the identifier. */
  lemma StripLine(id: string, newline: string)
    requires Trimmed(id) && AllSpace(newline)
    ensures Strip(id + newline) == id
  {
    StripFramed("", id, newline);
    assert "" + id + newline == id + newline;
  }

  /** Lines that strip to the given identifiers give the set of those identifiers. */
  lemma StrippedSet(lines: seq<string>, ids: seq<string>)
    requires |lines| == |ids|
    requires forall i | 0 <= i < |ids| :: Strip(lines[i]) == ids[i]
    ensures (set l | l in lines :: Strip(l)) == set i | 0 <= i < |ids| :: ids[i]
  {
    var wanted := set l | l in lines :: Strip(l);
    var expected := set i | 0 <= i < |ids| :: ids[i];
    forall x | x in wanted
      ensures x in expected
    {
      var l :| l in lines && Strip(l) == x;
      var i :| 0 <= i < |lines| && lines[i] == l;
    }
    forall x | x in expected
      ensures x in wanted
    {
      var i :| 0 <= i < |ids| && ids[i] == x;
      assert lines[i] in lines;
    }
  }

  // ---------------------------------------------------------------------------------------------
  // The filter cascade

  /** The score cutoff: `"OFF"` is minus infinity, so that it drops nothing. */
  datatype Cutoff = NoCutoff | AtLeast(min: Decimal)

  /** `"OFF"` or `float(interactionCutoff)`; a text that is not a number raises ValueError: `None`. */
  function ParseCutoff(text: string): (c: Option<Cutoff>)
    ensures text == "OFF" ==> c == Some(NoCutoff)
    ensures text != "OFF" ==> (c.Some? <==> ParseDecimal(text).Some?)
    ensures text != "OFF" && c.Some? ==> c.value == AtLeast(ParseDecimal(text).value)
  {
    if text == "OFF" then Some(NoCutoff)
    else
      match ParseDecimal(text)
      case None => None
      case Some(m) => Some(AtLeast(m))
  }

  /** `not (score < interactionCutoff)`. */
  predicate PassesScore(c: Cutoff, score: Decimal) {
    match c
    case NoCutoff => true
    case AtLeast(m) => !Less(score, m)
  }

  /** A score passes exactly when it is at least the cutoff; a score equal to the cutoff is kept. */
  lemma PassesScoreValue(c: Cutoff, score: Decimal)
    ensures c.NoCutoff? ==> PassesScore(c, score)
    ensures c.AtLeast? ==> (PassesScore(c, score) <==> Value(score) >= Value(c.min))
  {
    if c.AtLeast? {
      LessIsValueLess(score, c.min);
    }
  }

  /** The cutoff and the three allow-sets; an empty allow-set is switched off. */
  datatype Filters = Filters(cutoff: Cutoff, rnas: set<string>, proteins: set<string>, pairs: set<string>)

  /** Where an interaction leaves the cascade. */
  datatype Stage = Kept | DroppedByScore | DroppedByRna | DroppedByProtein | DroppedByPair

  /**
    The cascade of the reading loop: score, then wanted RNAs, then wanted proteins, then wanted
    pairs; each allow-set filter is on only when its set is not empty.
   */
  function Verdict(f: Filters, it: Interaction): (st: Stage)
    ensures st == Kept <==> Survives(f, it)
    ensures st == DroppedByRna ==> PassesScore(f.cutoff, it.score)
    ensures st == DroppedByProtein ==> PassesScore(f.cutoff, it.score) && (f.rnas == {} || it.rna in f.rnas)
    ensures st == DroppedByPair ==>
      PassesScore(f.cutoff, it.score) && (f.rnas == {} || it.rna in f.rnas) && (f.proteins == {} || it.protein in f.proteins)
  {
    var rnaFilterOn := |f.rnas| > 0;
    var proteinFilterOn := |f.proteins| > 0;
    var pairFilterOn := |f.pairs| > 0;
    if !PassesScore(f.cutoff, it.score) then DroppedByScore
    else if rnaFilterOn && it.rna !in f.rnas then DroppedByRna
    else if proteinFilterOn && it.protein !in f.proteins then DroppedByProtein
    else if pairFilterOn && PairKey(it.protein, it.rna) !in f.pairs then DroppedByPair
    else Kept
  }

  /** The survivors are the interactions every enabled filter admits. */
  predicate Survives(f: Filters, it: Interaction) {
    && PassesScore(f.cutoff, it.score)
    && (f.rnas == {} || it.rna in f.rnas)
    && (f.proteins == {} || it.protein in f.proteins)
    && (f.pairs == {} || PairKey(it.protein, it.rna) in f.pairs)
  }

  /** An allow-set `b` at least as strict as `a`: `a` is off, or `b` is on and admits no more. */
  predicate StricterSet(a: set<string>, b: set<string>) {
    a == {} || (b != {} && b <= a)
  }

  /** Filters `g` at least as strict as `f`, filter by filter. */
  predicate Stricter(f: Filters, g: Filters) {
    && (f.cutoff.AtLeast? ==> g.cutoff.AtLeast? && !Less(g.cutoff.min, f.cutoff.min))
    && StricterSet(f.rnas, g.rnas)
    && StricterSet(f.proteins, g.proteins)
    && StricterSet(f.pairs, g.pairs)
  }

  /** Raising the cutoff or enabling or narrowing an allow-set never adds a survivor. */
  lemma StricterKeepsFewer(f: Filters, g: Filters, it: Interaction)
    requires Stricter(f, g)
    requires Verdict(g, it) == Kept
    ensures Verdict(f, it) == Kept
  {
    if f.cutoff.AtLeast? {
      var a := f.cutoff.min;
      var b := g.cutoff.min;
      LessIsValueLess(it.score, b);
      LessIsValueLess(b, a);
      LessIsValueLess(it.score, a);
    }
  }

  // ---------------------------------------------------------------------------------------------
  // What the reading loop builds, as functions of the lines read so far


  /** The protein side or the RNA side of an interaction. */
  datatype Side = ProteinSide | RnaSide

  function Key(it: Interaction, side: Side): string {
    match side
    case ProteinSide => it.protein
    case RnaSide => it.rna
  }

  /** `allProtSet` or `allRNASet`: the identifiers of every record, before any filter. */
  function Seen(recs: seq<Interaction>, side: Side): set<string>
    decreases |recs|
  {
    if recs == [] then {} else Seen(recs[..|recs| - 1], side) + {Key(recs[|recs| - 1], side)}
  }

  /** The histogram kept for `id`, empty when there is none. */
  function HistogramOf(hs: map<string, Histogram>, id: string): Histogram {
    if id in hs then hs[id] else map[]
  }

  /**
    `proteinScoreFrequencies` or `rnaScoreFrequencies`: for every surviving record, one more
    occurrence of its rounded score in the histogram of its protein (or RNA).
   */
  function ScoreFrequencies(f: Filters, recs: seq<Interaction>, side: Side): map<string, Histogram>
    decreases |recs|
  {
    if recs == [] then map[]
    else
      var hs := ScoreFrequencies(f, recs[..|recs| - 1], side);
      var it := recs[|recs| - 1];
      if Verdict(f, it) == Kept then hs[Key(it, side) := Bump(HistogramOf(hs, Key(it, side)), Round1(it.score))]
      else hs
  }

  /** The number of surviving records of `id` on the given side. */
  function Survivors(f: Filters, recs: seq<Interaction>, side: Side, id: string): nat
    decreases |recs|
  {
    if recs == [] then 0
    else
      var it := recs[|recs| - 1];
      Survivors(f, recs[..|recs| - 1], side, id) + (if Verdict(f, it) == Kept && Key(it, side) == id then 1 else 0)
  }

  /** The number of those whose score rounds to `tenths`. */
  function SurvivorsAt(f: Filters, recs: seq<Interaction>, side: Side, id: string, tenths: int): nat
    decreases |recs|
  {
    if recs == [] then 0
    else
      var it := recs[|recs| - 1];
      SurvivorsAt(f, recs[..|recs| - 1], side, id, tenths)
        + (if Verdict(f, it) == Kept && Key(it, side) == id && Round1(it.score) == tenths then 1 else 0)
  }

  /** The rounded scores of the surviving records of `id`, in input order. */
  function SurvivorTenths(f: Filters, recs: seq<Interaction>, side: Side, id: string): (tenths: seq<int>)
    ensures |tenths| == Survivors(f, recs, side, id)
    decreases |recs|
  {
    if recs == [] then []
    else
      var it := recs[|recs| - 1];
      SurvivorTenths(f, recs[..|recs| - 1], side, id)
        + (if Verdict(f, it) == Kept && Key(it, side) == id then [Round1(it.score)] else [])
  }

  /** The surviving lines, in input order (`recs` being the records of `lines`). */
  function KeptLines(f: Filters, lines: seq<string>, recs: seq<Interaction>): seq<string>
    requires |recs| == |lines|
    decreases |lines|
  {
    if lines == [] then []
    else
      var n := |lines| - 1;
      KeptLines(f, lines[..n], recs[..n]) + (if Verdict(f, recs[n]) == Kept then [lines[n]] else [])
  }

  /** What each input line adds to `interactionText`: the line itself when it survives, nothing otherwise. */
  function Pieces(f: Filters, lines: seq<string>, recs: seq<Interaction>): (pieces: seq<string>)
    requires |recs| == |lines|
    ensures |pieces| == |lines|
    decreases |lines|
  {
    if lines == [] then []
    else
      var n := |lines| - 1;
      Pieces(f, lines[..n], recs[..n]) + [if Verdict(f, recs[n]) == Kept then lines[n] else ""]
  }

  /**
    The shard files, in number order, written from the pieces of the input lines: every shard but
    the last holds the pieces of exactly `b` consecutive input lines, the last the rest (possibly
    nothing).
   */
  function Shards(pieces: seq<string>, b: nat): (shards: seq<string>)
    requires b >= 1
    ensures |shards| >= 1
    decreases |pieces|
  {
    if |pieces| <= b then [Concat(pieces)]
    else [Concat(pieces[..b])] + Shards(pieces[b..], b)
  }

  // ---------------------------------------------------------------------------------------------
  // Properties of the spooled text

  /** Dropping the empty pieces: the buffer text is the concatenation of the surviving lines. */
  lemma {:induction false} PiecesAreKeptLines(f: Filters, lines: seq<string>, recs: seq<Interaction>)
    requires |recs| == |lines|
    ensures Concat(Pieces(f, lines, recs)) == Concat(KeptLines(f, lines, recs))
    decreases |lines|
  {
    if lines != [] {
      var n := |lines| - 1;
      var last := lines[n];
      PiecesAreKeptLines(f, lines[..n], recs[..n]);
      var p := Pieces(f, lines, recs);
      assert p[..n] == Pieces(f, lines[..n], recs[..n]);
      var k := KeptLines(f, lines[..n], recs[..n]);
      if Verdict(f, recs[n]) == Kept {
        ConcatAppend(k, [last]);
        assert [last][..0] == [];
        assert Concat([last]) == last;
      } else {
        assert KeptLines(f, lines, recs) == k + [];
        assert k + [] == k;
      }
    }
  }

  /** Concatenating the shards in number order gives the concatenation of the pieces, for any batch size. */
  lemma {:induction false} MergeShards(pieces: seq<string>, b: nat)
    requires b >= 1
    ensures Concat(Shards(pieces, b)) == Concat(pieces)
    decreases |pieces|
  {
    if |pieces| <= b {
      assert Concat([Concat(pieces)]) == Concat([]) + Concat(pieces);
    } else {
      MergeShards(pieces[b..], b);
      ConcatAppend([Concat(pieces[..b])], Shards(pieces[b..], b));
      assert Concat([Concat(pieces[..b])]) == Concat([]) + Concat(pieces[..b]);
      ConcatAppend(pieces[..b], pieces[b..]);
      assert pieces[..b] + pieces[b..] == pieces;
    }
  }

  /** The merged shards hold exactly the surviving lines, in input order, for any batch size. */
  lemma MergedShardsAreKeptLines(f: Filters, lines: seq<string>, recs: seq<Interaction>, b: nat)
    requires b >= 1 && |recs| == |lines|
    ensures Concat(Shards(Pieces(f, lines, recs), b)) == Concat(KeptLines(f, lines, recs))
  {
    MergeShards(Pieces(f, lines, recs), b);
    PiecesAreKeptLines(f, lines, recs);
  }

  /** One shard per started batch of `b` input lines, and one (empty) shard for an empty input. */
  lemma {:induction false} ShardCount(pieces: seq<string>, b: nat)
    requires b >= 1
    ensures |Shards(pieces, b)| == if |pieces| == 0 then 1 else (|pieces| - 1) / b + 1
    decreases |pieces|
  {
    if |pieces| > b {
      ShardCount(pieces[b..], b);
      DivShift(|pieces| - 1, b);
    } else if |pieces| > 0 {
      DivModUnique(|pieces| - 1, b, 0, |pieces| - 1);
    }
  }

  /** The buffer is flushed before line `n + 1` exactly when `n` is a positive multiple of `b`. */
  predicate FlushDue(n: nat, b: nat)
    requires b >= 1
  {
    n > 0 && n % b == 0
  }

  lemma FlushDueShift(n: nat, b: nat)
    requires b >= 1 && n > b
    ensures FlushDue(n, b) == FlushDue(n - b, b)
  {
    DivShift(n, b);
  }

  lemma FlushDueBelow(n: nat, b: nat)
    requires 1 <= n < b
    ensures !FlushDue(n, b)
  {
    DivModUnique(n, b, 0, n);
  }

  lemma FlushDueAt(b: nat)
    requires b >= 1
    ensures FlushDue(b, b)
  {
    DivModUnique(b, b, 1, 0);
  }

  /**
    One more input line: when the lines read so far are a positive multiple of `b` the buffer was
    flushed and the piece starts a new shard; otherwise it is appended to the last one.
   */
  lemma {:induction false} ShardsSnoc(pieces: seq<string>, x: string, b: nat)
    requires b >= 1
    ensures var s := Shards(pieces, b);
      Shards(pieces + [x], b) == if FlushDue(|pieces|, b) then s + [x] else s[..|s| - 1] + [s[|s| - 1] + x]
    decreases |pieces|
  {
    var q := pieces + [x];
    if |pieces| < b {
      assert q[..|q| - 1] == pieces;
      if |pieces| > 0 {
        FlushDueBelow(|pieces|, b);
      }
    } else if |pieces| == b {
      assert q[..b] == pieces && q[b..] == [x];
      assert [x][..0] == [];
      assert Concat([x]) == x;
      assert Shards([x], b) == [x];
      assert Shards(q, b) == [Concat(pieces)] + [x];
      FlushDueAt(b);
    } else {
      assert q[..b] == pieces[..b];
      assert q[b..] == pieces[b..] + [x];
      ShardsSnoc(pieces[b..], x, b);
      FlushDueShift(|pieces|, b);
      var s := Shards(pieces, b);
      var t := Shards(pieces[b..], b);
      assert s == [Concat(pieces[..b])] + t;
      assert s[..|s| - 1] == [Concat(pieces[..b])] + t[..|t| - 1];
    }
  }

  // ---------------------------------------------------------------------------------------------
  // Properties of the histograms and of the identifier sets

  /** An identifier is seen exactly when some record has it. */
  lemma {:induction false} SeenIff(recs: seq<Interaction>, side: Side, id: string)
    ensures id in Seen(recs, side) <==> exists j | 0 <= j < |recs| :: Key(recs[j], side) == id
    decreases |recs|
  {
    if recs != [] {
      var init := recs[..|recs| - 1];
      SeenIff(init, side, id);
      if exists j | 0 <= j < |recs| :: Key(recs[j], side) == id {
        var j :| 0 <= j < |recs| && Key(recs[j], side) == id;
        if j < |init| {
          assert init[j] == recs[j];
        }
      }
      if exists j | 0 <= j < |init| :: Key(init[j], side) == id {
        var j :| 0 <= j < |init| && Key(init[j], side) == id;
        assert recs[j] == init[j];
      }
    }
  }

  /** Each histogram counts exactly the surviving records of its identifier with each rounded score. */
  lemma {:induction false} FrequencyIsSurvivorsAt(f: Filters, recs: seq<Interaction>, side: Side, id: string, tenths: int)
    ensures Frequency(HistogramOf(ScoreFrequencies(f, recs, side), id), tenths) == SurvivorsAt(f, recs, side, id, tenths)
    decreases |recs|
  {
    if recs != [] {
      FrequencyIsSurvivorsAt(f, recs[..|recs| - 1], side, id, tenths);
    }
  }

  /** Each rounded score occurs among the survivors' scores as often as survivors have it. */
  lemma {:induction false} SurvivorTenthsCount(f: Filters, recs: seq<Interaction>, side: Side, id: string, tenths: int)
    ensures multiset(SurvivorTenths(f, recs, side, id))[tenths] == SurvivorsAt(f, recs, side, id, tenths)
    decreases |recs|
  {
    if recs != [] {
      SurvivorTenthsCount(f, recs[..|recs| - 1], side, id, tenths);
    }
  }

  /**
    The score list rebuilt from the histogram of `id` (line 268) is the list of its survivors'
    rounded scores, sorted: same scores, same multiplicities.
   */
  lemma HistogramScores(f: Filters, recs: seq<Interaction>, side: Side, id: string)
    ensures var scores := Expand(HistogramOf(ScoreFrequencies(f, recs, side), id));
      Ascending(scores) && multiset(scores) == multiset(SurvivorTenths(f, recs, side, id))
  {
    var h := HistogramOf(ScoreFrequencies(f, recs, side), id);
    forall x
      ensures multiset(Expand(h))[x] == multiset(SurvivorTenths(f, recs, side, id))[x]
    {
      ExpandCount(h, x);
      FrequencyIsSurvivorsAt(f, recs, side, id, x);
      SurvivorTenthsCount(f, recs, side, id, x);
    }
    ExpandSorted(h);
  }

  /** Its total frequency, the reported `count`, is the number of surviving records of the identifier. */
  lemma {:induction false} MassIsSurvivors(f: Filters, recs: seq<Interaction>, side: Side, id: string)
    ensures Mass(HistogramOf(ScoreFrequencies(f, recs, side), id)) == Survivors(f, recs, side, id)
    decreases |recs|
  {
    if recs != [] {
      var init := recs[..|recs| - 1];
      var it := recs[|recs| - 1];
      MassIsSurvivors(f, init, side, id);
      var hs := ScoreFrequencies(f, init, side);
      if Verdict(f, it) == Kept && Key(it, side) == id {
        MassBump(HistogramOf(hs, id), Round1(it.score));
      }
    }
  }

  /**
    An identifier has a histogram exactly when it has a surviving record, and every histogram is
    non-empty and counts each of its scores at least once.
   */
  lemma {:induction false} FrequenciesKeys(f: Filters, recs: seq<Interaction>, side: Side, id: string)
    ensures id in ScoreFrequencies(f, recs, side) <==> Survivors(f, recs, side, id) > 0
    ensures id in ScoreFrequencies(f, recs, side) ==>
      Valid(ScoreFrequencies(f, recs, side)[id]) && ScoreFrequencies(f, recs, side)[id] != map[]
    decreases |recs|
  {
    if recs != [] {
      var init := recs[..|recs| - 1];
      var it := recs[|recs| - 1];
      FrequenciesKeys(f, init, side, id);
      if Verdict(f, it) == Kept && Key(it, side) == id {
        var h := Bump(HistogramOf(ScoreFrequencies(f, init, side), id), Round1(it.score));
        assert Round1(it.score) in h;
      }
    }
  }

  /** Every histogram of a side is a valid, non-empty one. */
  lemma FrequenciesValid(f: Filters, recs: seq<Interaction>, side: Side)
    ensures forall id | id in ScoreFrequencies(f, recs, side) ::
      Valid(ScoreFrequencies(f, recs, side)[id]) && ScoreFrequencies(f, recs, side)[id] != map[]
  {
    forall id | id in ScoreFrequencies(f, recs, side)
      ensures Valid(ScoreFrequencies(f, recs, side)[id]) && ScoreFrequencies(f, recs, side)[id] != map[]
    {
      FrequenciesKeys(f, recs, side, id);
    }
  }

  /** Only identifiers that were seen have histograms. */
  lemma {:induction false} FrequenciesSeen(f: Filters, recs: seq<Interaction>, side: Side)
    ensures ScoreFrequencies(f, recs, side).Keys <= Seen(recs, side)
    decreases |recs|
  {
    if recs != [] {
      FrequenciesSeen(f, recs[..|recs| - 1], side);
    }
  }

  /** A filtered-out record changes neither histogram. */
  lemma DroppedChangesNothing(f: Filters, recs: seq<Interaction>, it: Interaction, side: Side)
    requires Verdict(f, it) != Kept
    ensures ScoreFrequencies(f, recs + [it], side) == ScoreFrequencies(f, recs, side)
  {
    assert (recs + [it])[..|recs|] == recs;
  }

  // ---------------------------------------------------------------------------------------------
  // The reading loop

  /** Why the script stops before writing its summaries. */
  datatype ScanError =
    | BadCutoff                  // `float(interactionCutoff)` raises ValueError
    | ZeroBatchSize              // `lineCount % 0` raises ZeroDivisionError, on the first line already
    | Malformed(lineNumber: nat) // the line with this number (counting from 1) is not an interaction

  /** The variables of the reading loop. */
  datatype Reader = Reader(
    lineCount: nat,
    outFileCount: nat,
    interactionText: string,
    shards: seq<string>,
    allRnas: set<string>,
    allProteins: set<string>,
    proteinFrequencies: map<string, Histogram>,
    rnaFrequencies: map<string, Histogram>)

  /**
    The number of input lines per shard: `lineCount % batchSize == 0` holds at the positive
    multiples of `|batchSize|`. A batch size of 0 is only possible with an empty input.
   */
  function Width(batchSize: int): (w: nat)
    ensures w >= 1
  {
    if batchSize == 0 then 1 else Abs(batchSize)
  }

  /** `n % b == 0` for a non-zero `b` of either sign is divisibility by `|b|`. */
  lemma ModWidth(n: nat, b: int)
    requires b != 0
    ensures (n % b == 0) == (n % Width(b) == 0)
  {
    if b < 0 {
      var q := n / b;
      assert n == q * b + n % b;
      assert (-q) * (-b) == q * b;
      DivModUnique(n, -b, -q, n % b);
    }
  }

  /** `histograms[id][score] += 1`, each level created when missing, as lines 220-234 do it. */
  method AddOccurrence(histograms: map<string, Histogram>, id: string, score: int) returns (r: map<string, Histogram>)
    ensures r == histograms[id := Bump(HistogramOf(histograms, id), score)]
  {
    r := histograms;
    if id !in r {
      r := r[id := map[]];
    }
    var h := r[id];
    if score !in h {
      h := h[score := 0];
    }
    h := h[score := h[score] + 1];
    assert h == Bump(HistogramOf(histograms, id), score);
    r := r[id := h];
  }

  /**
    Lines 194-195 and 220-234 for one parsed line: register its RNA and protein, and count a
    survivor in both histograms.
   */
  method Tally(f: Filters, it: Interaction, ghost recs: seq<Interaction>,
               allRnas: set<string>, allProteins: set<string>,
               proteinFrequencies: map<string, Histogram>, rnaFrequencies: map<string, Histogram>)
    returns (allRnas': set<string>, allProteins': set<string>,
             proteinFrequencies': map<string, Histogram>, rnaFrequencies': map<string, Histogram>)
    requires allRnas == Seen(recs, RnaSide) && allProteins == Seen(recs, ProteinSide)
    requires proteinFrequencies == ScoreFrequencies(f, recs, ProteinSide)
    requires rnaFrequencies == ScoreFrequencies(f, recs, RnaSide)
    ensures allRnas' == Seen(recs + [it], RnaSide) && allProteins' == Seen(recs + [it], ProteinSide)
    ensures proteinFrequencies' == ScoreFrequencies(f, recs + [it], ProteinSide)
    ensures rnaFrequencies' == ScoreFrequencies(f, recs + [it], RnaSide)
  {
    RecordSnoc(f, recs, it);
    var scoreRounded := Round1(it.score);
    allRnas' := allRnas + {it.rna};
    allProteins' := allProteins + {it.protein};
    proteinFrequencies', rnaFrequencies' := proteinFrequencies, rnaFrequencies;
    if Verdict(f, it) == Kept {
      proteinFrequencies' := AddOccurrence(proteinFrequencies, it.protein, scoreRounded);
      rnaFrequencies' := AddOccurrence(rnaFrequencies, it.rna, scoreRounded);
    }
  }

  /**
    Lines 167-180: before reading line `lineCount + 1`, when `lineCount` is a positive multiple of
    `batchSize`, the buffer goes to shard number `outFileCount` (kept only when
    `writeInteractions` is set) and is cleared, and the shard number moves on. `written` is every
    buffer flushed so far, kept or not.
   */
  method FlushIfDue(lineCount: nat, batchSize: int, writeInteractions: bool,
                    shards: seq<string>, ghost written: seq<string>, interactionText: string, outFileCount: nat)
    returns (shards': seq<string>, ghost written': seq<string>, interactionText': string, outFileCount': nat)
    requires batchSize != 0
    ensures FlushDue(lineCount, Width(batchSize)) ==>
      && shards' == (if writeInteractions then shards + [interactionText] else shards)
      && written' == written + [interactionText] && interactionText' == "" && outFileCount' == outFileCount + 1
    ensures !FlushDue(lineCount, Width(batchSize)) ==>
      shards' == shards && written' == written && interactionText' == interactionText && outFileCount' == outFileCount
  {
    ModWidth(lineCount, batchSize);
    shards', written', interactionText', outFileCount' := shards, written, interactionText, outFileCount;
    if lineCount % batchSize == 0 && lineCount != 0 {
      if writeInteractions {
        shards' := shards + [interactionText];
      }
      written' := written + [interactionText];
      interactionText' := "";
      outFileCount' := outFileCount + 1;
    }
  }

  /** The buffer and the shards written so far after one more piece, flushed first or not. */
  lemma SpoolStep(written: seq<string>, text: string, pieces: seq<string>, piece: string, w: nat)
    requires w >= 1 && written + [text] == Shards(pieces, w)
    ensures FlushDue(|pieces|, w) ==> (written + [text]) + ["" + piece] == Shards(pieces + [piece], w)
    ensures !FlushDue(|pieces|, w) ==> written + [text + piece] == Shards(pieces + [piece], w)
  {
    ShardsSnoc(pieces, piece, w);
    var s := Shards(pieces, w);
    assert "" + piece == piece;
    assert s[..|s| - 1] == written && s[|s| - 1] == text;
  }


  /** What one more record adds to the identifier sets and the histograms. */
  lemma RecordSnoc(f: Filters, recs: seq<Interaction>, it: Interaction)
    ensures Seen(recs + [it], RnaSide) == Seen(recs, RnaSide) + {it.rna}
    ensures Seen(recs + [it], ProteinSide) == Seen(recs, ProteinSide) + {it.protein}
    ensures var hs := ScoreFrequencies(f, recs, ProteinSide);
      ScoreFrequencies(f, recs + [it], ProteinSide)
        == if Verdict(f, it) == Kept then hs[it.protein := Bump(HistogramOf(hs, it.protein), Round1(it.score))] else hs
    ensures var hs := ScoreFrequencies(f, recs, RnaSide);
      ScoreFrequencies(f, recs + [it], RnaSide)
        == if Verdict(f, it) == Kept then hs[it.rna := Bump(HistogramOf(hs, it.rna), Round1(it.score))] else hs
  {
    assert (recs + [it])[..|recs|] == recs;
  }

  /** What one more line adds to the pieces of the buffer. */
  lemma PiecesSnoc(f: Filters, lines: seq<string>, i: nat, recs: seq<Interaction>, it: Interaction)
    requires i < |lines| && |recs| == i
    ensures Pieces(f, lines[..i + 1], recs + [it]) == Pieces(f, lines[..i], recs) + [if Verdict(f, it) == Kept then lines[i] else ""]
  {
    assert lines[..i + 1][..i] == lines[..i];
    assert (recs + [it])[..i] == recs;
  }

  /**
    The loop's variables after the first `rd.lineCount` lines, parsed into `recs`, and with
    `written` the buffers flushed so far.
   */
  predicate Tracks(parse: string -> Option<Interaction>, lines: seq<string>, f: Filters, writeInteractions: bool, w: nat,
                   rd: Reader, written: seq<string>, recs: seq<Interaction>)
    requires w >= 1
  {
    && rd.lineCount <= |lines|
    && ParseAll(parse, lines[..rd.lineCount]) == Some(recs)
    && rd.allRnas == Seen(recs, RnaSide) && rd.allProteins == Seen(recs, ProteinSide)
    && rd.proteinFrequencies == ScoreFrequencies(f, recs, ProteinSide)
    && rd.rnaFrequencies == ScoreFrequencies(f, recs, RnaSide)
    && Spooled(Pieces(f, lines[..rd.lineCount], recs), w, writeInteractions, written, rd.interactionText, rd.shards, rd.outFileCount)
  }

  /**
    The spooling variables after the buffer pieces `pieces`: the buffers flushed so far and the
    buffer are the shards of the pieces, only the flushed ones are kept when `writeInteractions`
    is set, and the shard number is one more than the number of flushes.
   */
  predicate Spooled(pieces: seq<string>, w: nat, writeInteractions: bool,
                    written: seq<string>, text: string, shards: seq<string>, outFileCount: nat)
    requires w >= 1
  {
    && written + [text] == Shards(pieces, w)
    && shards == (if writeInteractions then written else [])
    && outFileCount == |written| + 1
  }

  /**
    Lines 167-182 and 216 for the line after the first `lineCount`: flush when due, then append
    the line to the buffer when it survived.
   */
  method Spool(lineCount: nat, batchSize: int, writeInteractions: bool, shards: seq<string>, ghost written: seq<string>,
               interactionText: string, outFileCount: nat, keep: bool, line: string, ghost pieces: seq<string>)
    returns (shards': seq<string>, ghost written': seq<string>, interactionText': string, outFileCount': nat)
    requires batchSize != 0 && lineCount == |pieces|
    requires Spooled(pieces, Width(batchSize), writeInteractions, written, interactionText, shards, outFileCount)
    ensures Spooled(pieces + [if keep then line else ""], Width(batchSize), writeInteractions,
                    written', interactionText', shards', outFileCount')
  {
    shards', written', interactionText', outFileCount' :=
      FlushIfDue(lineCount, batchSize, writeInteractions, shards, written, interactionText, outFileCount);
    SpoolStep(written, interactionText, pieces, if keep then line else "", Width(batchSize));
    if keep {
      interactionText' := interactionText' + line;
    } else {
      assert interactionText' + "" == interactionText';
    }
  }

  /** One pass of the loop body, lines 167-234, for the line after the first `rd.lineCount`. */
  method ReadLine(parse: string -> Option<Interaction>, lines: seq<string>, f: Filters, writeInteractions: bool, batchSize: int,
                  rd: Reader, ghost written: seq<string>, ghost recs: seq<Interaction>)
    returns (r: Result<Reader, ScanError>, ghost written': seq<string>, ghost recs': seq<Interaction>)
    requires batchSize != 0 && rd.lineCount < |lines|
    requires Tracks(parse, lines, f, writeInteractions, Width(batchSize), rd, written, recs)
    ensures r.Err? ==> r.error == Malformed(rd.lineCount + 1) && parse(lines[rd.lineCount]).None?
    ensures r.Ok? ==> parse(lines[rd.lineCount]).Some? && r.value.lineCount == rd.lineCount + 1
    ensures r.Ok? ==> Tracks(parse, lines, f, writeInteractions, Width(batchSize), r.value, written', recs')
  {
    ghost var pieces := Pieces(f, lines[..rd.lineCount], recs);
    assert |pieces| == rd.lineCount;
    var line := lines[rd.lineCount];
    var parsed := parse(line);
    if parsed.None? {
      return Err(Malformed(rd.lineCount + 1)), written, recs;
    }
    var it := parsed.value;
    ParseAllSnoc(parse, lines, rd.lineCount, recs, it);
    PiecesSnoc(f, lines, rd.lineCount, recs, it);
    var allRnas, allProteins, proteinFrequencies, rnaFrequencies :=
      Tally(f, it, recs, rd.allRnas, rd.allProteins, rd.proteinFrequencies, rd.rnaFrequencies);
    var shards, interactionText, outFileCount;
    shards, written', interactionText, outFileCount :=
      Spool(rd.lineCount, batchSize, writeInteractions, rd.shards, written, rd.interactionText, rd.outFileCount,
            Verdict(f, it) == Kept, line, pieces);
    recs' := recs + [it];
    r := Ok(Reader(rd.lineCount + 1, outFileCount, interactionText, shards, allRnas, allProteins, proteinFrequencies, rnaFrequencies));
  }

  /**
    `read_catrapid_file` up to the summaries: every line read counts, registers its RNA and its
    protein, and, when it passes the cascade, is appended to the buffer and counted in both
    histograms; the buffer goes to the next shard before every line that follows a positive
    multiple of `batchSize` lines, and once more at the end. Shards are only kept when
    `writeInteractions` is set. `parse` reads one line (the reader passes `ParseInteraction`).
   */
  method ScanLines(parse: string -> Option<Interaction>, lines: seq<string>, f: Filters, writeInteractions: bool, batchSize: int)
    returns (r: Result<Reader, ScanError>)
    ensures r != Err(BadCutoff)
    ensures r == Err(ZeroBatchSize) <==> batchSize == 0 && lines != []
    ensures r.Err? && r.error.Malformed? ==>
      var n := r.error.lineNumber;
      batchSize != 0 && 1 <= n <= |lines| && ParseAll(parse, lines[..n - 1]).Some?
        && parse(lines[n - 1]).None?
    ensures r.Ok? <==> (batchSize != 0 || lines == []) && ParseAll(parse, lines).Some?
    ensures r.Ok? ==>
      var recs := ParseAll(parse, lines).value;
      && r.value.lineCount == |lines|
      && r.value.allRnas == Seen(recs, RnaSide) && r.value.allProteins == Seen(recs, ProteinSide)
      && r.value.proteinFrequencies == ScoreFrequencies(f, recs, ProteinSide)
      && r.value.rnaFrequencies == ScoreFrequencies(f, recs, RnaSide)
      && r.value.shards == (if writeInteractions then Shards(Pieces(f, lines, recs), Width(batchSize)) else [])
  {
    var rd := Reader(0, 1, "", [], {}, {}, map[], map[]);
    ghost var written: seq<string> := [];
    ghost var recs: seq<Interaction> := [];
    while rd.lineCount < |lines|
      invariant batchSize != 0 || rd.lineCount == 0
      invariant Tracks(parse, lines, f, writeInteractions, Width(batchSize), rd, written, recs)
      decreases |lines| - rd.lineCount
    {
      if batchSize == 0 {
        return Err(ZeroBatchSize);
      }
      var next;
      next, written, recs := ReadLine(parse, lines, f, writeInteractions, batchSize, rd, written, recs);
      if next.Err? {
        ParseAllStops(parse, lines, rd.lineCount);
        MalformedPrefix(parse, lines, rd.lineCount + 1);
        return Err(next.error);
      }
      rd := next.value;
    }
    var shards := rd.shards;
    if writeInteractions {
      shards := shards + [rd.interactionText];
    }
    written := written + [rd.interactionText];
    assert lines[..rd.lineCount] == lines;
    r := Ok(rd.(shards := shards));
  }
}
