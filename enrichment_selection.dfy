/**
  The first step of `FilterEnrichmentResults`: reading the enrichment-per-RNA file (one line per
  transcript: observed and random numbers of significant enrichment tests, two further columns and
  a significance flag) and selecting the transcripts whose enrichments are significantly above the
  random control and, when a minimum is given, whose observed/random ratio reaches it.
 */
module EnrichmentSelection {
  import opened Results
  import opened Text
  import opened Numbers
  import opened Lines

  // ---------------------------------------------------------------------------------------------
  // The ratio filter

  /** `minimumRatio`: the text "OFF", or the number `float` read from the option before the run. */
  datatype RatioFilter = RatioOff | MinRatio(min: Decimal)

  /** The option's text: "OFF" switches the filter off, any other text must be a number. */
  function ParseRatioFilter(text: string): (r: Option<RatioFilter>)
    ensures r == Some(RatioOff) <==> text == "OFF"
    ensures r.Some? && r.value.MinRatio? ==> ParseDecimal(text) == Some(r.value.min)
    ensures r.None? <==> text != "OFF" && ParseDecimal(text).None?
  {
    if text == "OFF" then Some(RatioOff)
    else
      match ParseDecimal(text)
      case None => None
      case Some(m) => Some(MinRatio(m))
  }

  /** The stand-in divisor of a zero random count, `0.000000000000000000000000000000000000000001`. */
  const NearZero := Decimal(1, 42)

  /** What the observed count is divided by: the random count, or the stand-in when that is zero. */
  function Divisor(random: Decimal): (d: Decimal)
    ensures d.mantissa != 0
  {
    if random.mantissa != 0 then random else NearZero
  }

  /** `ratio < minimumRatio`, decided exactly on decimals, without dividing. */
  predicate RatioBelow(observed: Decimal, random: Decimal, min: Decimal) {
    var d := Divisor(random);
    if d.mantissa > 0 then Less(observed, Mul(min, d)) else Less(Mul(min, d), observed)
  }

  /** Comparing a quotient with a bound by multiplying through by the divisor. */
  lemma QuotientLess(x: real, d: real, m: real)
    requires d != 0.0
    ensures d > 0.0 ==> (x / d < m <==> x < m * d)
    ensures d < 0.0 ==> (x / d < m <==> m * d < x)
  {
    var q := x / d;
    assert x == q * d;
    if d > 0.0 {
      if q < m {
        assert (m - q) * d > 0.0;
      } else {
        assert (q - m) * d >= 0.0;
      }
    } else {
      if q < m {
        assert (m - q) * d < 0.0;
      } else {
        assert (q - m) * d <= 0.0;
      }
    }
  }

  /**
    `RatioBelow` is the source's comparison `observed / random < minimumRatio` on the numbers the
    texts denote, with `random` replaced by 10^-42 when it is zero.
   */
  lemma RatioBelowIsQuotientBelow(observed: Decimal, random: Decimal, min: Decimal)
    ensures Value(random) != 0.0 ==> Value(Divisor(random)) == Value(random)
    ensures Value(random) == 0.0 ==> Value(Divisor(random)) == Value(NearZero)
    ensures Value(Divisor(random)) != 0.0
    ensures RatioBelow(observed, random, min) <==> Value(observed) / Value(Divisor(random)) < Value(min)
  {
    var d := Divisor(random);
    SignOfValue(random);
    SignOfValue(d);
    ProductBelow(observed, d, min);
  }

  /** The decimal comparison behind `RatioBelow`, for any non-zero divisor. */
  lemma ProductBelow(observed: Decimal, d: Decimal, min: Decimal)
    requires d.mantissa != 0
    ensures (if d.mantissa > 0 then Less(observed, Mul(min, d)) else Less(Mul(min, d), observed))
      <==> Value(observed) / Value(d) < Value(min)
  {
    var x, dv, m := Value(observed), Value(d), Value(min);
    MulValue(min, d);
    SignOfValue(d);
    QuotientLess(x, dv, m);
    if d.mantissa > 0 {
      LessIsValueLess(observed, Mul(min, d));
    } else {
      LessIsValueLess(Mul(min, d), observed);
    }
  }

  // ---------------------------------------------------------------------------------------------
  // One line of the file

  /** `txID, observedSign, randomSign, _, _, signFlag`, with both counts read by `float`. */
  datatype PerRna = PerRna(txID: string, observed: Decimal, random: Decimal, signFlag: string)

  /**
    `line.strip().split("\t")` unpacked into exactly six fields (any other number raises
    ValueError), and the two counts, which `float` reads on every line whatever the filters.
   */
  function ParsePerRna(line: string): (r: Option<PerRna>)
    ensures r.Some? ==> '\t' !in r.value.txID && '\t' !in r.value.signFlag
  {
    var spl := Split(Strip(line), '\t');
    if |spl| != 6 then None
    else
      match ParseDecimal(spl[1])
      case None => None
      case Some(observed) =>
        match ParseDecimal(spl[2])
        case None => None
        case Some(random) => Some(PerRna(spl[0], observed, random, spl[5]))
  }

  /** A line written as six tab-separated fields reads back as its transcript, counts and flag. */
  lemma ParsePerRnaOfLine(w1: string, fields: seq<string>, w2: string, observed: Decimal, random: Decimal)
    requires AllSpace(w1) && AllSpace(w2) && |fields| == 6
    requires forall i | 0 <= i < 6 :: '\t' !in fields[i]
    requires Trimmed(fields[0]) && Trimmed(fields[5])
    requires ParseDecimal(fields[1]) == Some(observed) && ParseDecimal(fields[2]) == Some(random)
    ensures ParsePerRna(w1 + Join(fields, "\t") + w2) == Some(PerRna(fields[0], observed, random, fields[5]))
  {
    StripSplitJoin(w1, fields, '\t', w2);
  }

  /** A stripped line with a number of tab-separated fields other than six cannot be unpacked. */
  lemma ParsePerRnaFieldCount(w1: string, fields: seq<string>, w2: string)
    requires AllSpace(w1) && AllSpace(w2) && |fields| >= 1 && |fields| != 6
    requires forall i | 0 <= i < |fields| :: '\t' !in fields[i]
    requires Trimmed(fields[0]) && Trimmed(fields[|fields| - 1])
    ensures ParsePerRna(w1 + Join(fields, "\t") + w2) == None
  {
    StripSplitJoin(w1, fields, '\t', w2);
  }

  /** `signBoo and ratioBoo`: the transcript's line passes both filters. */
  predicate Passes(rec: PerRna, ratio: RatioFilter) {
    rec.signFlag != "0" && (ratio.RatioOff? || !RatioBelow(rec.observed, rec.random, ratio.min))
  }

  /**
    A line passes exactly when its flag is not "0" and, with the ratio filter on, its observed count
    divided by its random count (10^-42 standing in for zero) is at least the minimum.
   */
  lemma PassesMeaning(rec: PerRna, ratio: RatioFilter)
    ensures Passes(rec, ratio) <==>
      rec.signFlag != "0" &&
      (ratio.MinRatio? ==> Value(rec.observed) / Value(Divisor(rec.random)) >= Value(ratio.min))
  {
    if ratio.MinRatio? {
      RatioBelowIsQuotientBelow(rec.observed, rec.random, ratio.min);
    }
  }

  // ---------------------------------------------------------------------------------------------
  // What the loop builds, as functions of the lines read so far

  /** `poolRNA`: every transcript of the file. */
  function Pool(recs: seq<PerRna>): set<string>
    decreases |recs|
  {
    if recs == [] then {} else Pool(recs[..|recs| - 1]) + {recs[|recs| - 1].txID}
  }

  /** `listRNASignificantEnrich`: the transcripts of the lines that pass both filters. */
  function SelectedRnas(recs: seq<PerRna>, ratio: RatioFilter): set<string>
    decreases |recs|
  {
    if recs == [] then {}
    else
      var last := recs[|recs| - 1];
      SelectedRnas(recs[..|recs| - 1], ratio) + (if Passes(last, ratio) then {last.txID} else {})
  }

  /** `countAboveRandom`: the lines whose flag is not "0". */
  function AboveRandom(recs: seq<PerRna>): nat
    decreases |recs|
  {
    if recs == [] then 0
    else AboveRandom(recs[..|recs| - 1]) + (if recs[|recs| - 1].signFlag != "0" then 1 else 0)
  }

  /** `countRatioPassed`: with the ratio filter on, the lines whose ratio reaches the minimum. */
  function RatioPassed(recs: seq<PerRna>, ratio: RatioFilter): nat
    decreases |recs|
  {
    if recs == [] then 0
    else
      var last := recs[|recs| - 1];
      RatioPassed(recs[..|recs| - 1], ratio)
        + (if ratio.MinRatio? && !RatioBelow(last.observed, last.random, ratio.min) then 1 else 0)
  }

  /** `sum(observedValues)`, exactly. */
  function SumObserved(recs: seq<PerRna>): Decimal
    decreases |recs|
  {
    if recs == [] then Decimal(0, 0) else Add(SumObserved(recs[..|recs| - 1]), recs[|recs| - 1].observed)
  }

  /** `sum(randomValues)`, exactly. */
  function SumRandom(recs: seq<PerRna>): Decimal
    decreases |recs|
  {
    if recs == [] then Decimal(0, 0) else Add(SumRandom(recs[..|recs| - 1]), recs[|recs| - 1].random)
  }

  /** The sum of the numbers a sequence of decimals denotes. */
  ghost function Total(ds: seq<Decimal>): real
    decreases |ds|
  {
    if ds == [] then 0.0 else Total(ds[..|ds| - 1]) + Value(ds[|ds| - 1])
  }

  function Observed(recs: seq<PerRna>): (ds: seq<Decimal>)
    ensures |ds| == |recs| && forall i | 0 <= i < |recs| :: ds[i] == recs[i].observed
  {
    seq(|recs|, i requires 0 <= i < |recs| => recs[i].observed)
  }

  function Random(recs: seq<PerRna>): (ds: seq<Decimal>)
    ensures |ds| == |recs| && forall i | 0 <= i < |recs| :: ds[i] == recs[i].random
  {
    seq(|recs|, i requires 0 <= i < |recs| => recs[i].random)
  }

  /** What the function returns and logs: the selection, both totals, the pool and the two counters. */
  datatype Selection = Selection(
    selected: set<string>, countReal: Decimal, countRandom: Decimal,
    pool: set<string>, countAboveRandom: nat, countRatioPassed: nat)

  function SelectionOf(recs: seq<PerRna>, ratio: RatioFilter): Selection {
    Selection(SelectedRnas(recs, ratio), SumObserved(recs), SumRandom(recs), Pool(recs), AboveRandom(recs), RatioPassed(recs, ratio))
  }

  /** The lines after the header, which `readline()` skips (an empty file has none). */
  function Body(lines: seq<string>): (body: seq<string>)
    ensures lines != [] ==> |body| == |lines| - 1 && forall i | 0 <= i < |body| :: body[i] == lines[i + 1]
    ensures lines == [] ==> body == []
  {
    if lines == [] then [] else lines[1..]
  }

  // ---------------------------------------------------------------------------------------------
  // Properties

  /** A transcript is in the pool exactly when some line names it. */
  lemma {:induction false} PoolIff(recs: seq<PerRna>, tx: string)
    ensures tx in Pool(recs) <==> exists i | 0 <= i < |recs| :: recs[i].txID == tx
    decreases |recs|
  {
    if recs != [] {
      var n := |recs| - 1;
      PoolIff(recs[..n], tx);
      if tx in Pool(recs[..n]) {
        var i :| 0 <= i < n && recs[..n][i].txID == tx;
        assert recs[i].txID == tx;
      }
      if exists i | 0 <= i < |recs| :: recs[i].txID == tx {
        var i :| 0 <= i < |recs| && recs[i].txID == tx;
        if i < n {
          assert recs[..n][i].txID == tx;
        }
      }
    }
  }

  /** A transcript is selected exactly when some line of it passes both filters. */
  lemma {:induction false} SelectedIff(recs: seq<PerRna>, ratio: RatioFilter, tx: string)
    ensures tx in SelectedRnas(recs, ratio) <==> exists i | 0 <= i < |recs| :: recs[i].txID == tx && Passes(recs[i], ratio)
    decreases |recs|
  {
    if recs != [] {
      var n := |recs| - 1;
      SelectedIff(recs[..n], ratio, tx);
      if tx in SelectedRnas(recs[..n], ratio) {
        var i :| 0 <= i < n && recs[..n][i].txID == tx && Passes(recs[..n][i], ratio);
        assert recs[i] == recs[..n][i];
      }
      if exists i | 0 <= i < |recs| :: recs[i].txID == tx && Passes(recs[i], ratio) {
        var i :| 0 <= i < |recs| && recs[i].txID == tx && Passes(recs[i], ratio);
        if i < n {
          assert recs[..n][i] == recs[i];
        }
      }
    }
  }

  /** Every selected transcript is in the pool. */
  lemma SelectedInPool(recs: seq<PerRna>, ratio: RatioFilter)
    ensures SelectedRnas(recs, ratio) <= Pool(recs)
  {
    forall tx | tx in SelectedRnas(recs, ratio)
      ensures tx in Pool(recs)
    {
      SelectedIff(recs, ratio, tx);
      PoolIff(recs, tx);
    }
  }

  /**
    There are no more selected transcripts than lines above random, nor more of those than lines;
    with the ratio filter off, no line is counted as passing it.
   */
  lemma {:induction false} CountBounds(recs: seq<PerRna>, ratio: RatioFilter)
    ensures |SelectedRnas(recs, ratio)| <= AboveRandom(recs) <= |recs|
    ensures RatioPassed(recs, ratio) <= |recs|
    ensures ratio.RatioOff? ==> RatioPassed(recs, ratio) == 0
    decreases |recs|
  {
    if recs != [] {
      var n := |recs| - 1;
      var init, last := recs[..n], recs[n];
      CountBounds(init, ratio);
      var s := SelectedRnas(init, ratio);
      assert AboveRandom(recs) == AboveRandom(init) + (if last.signFlag != "0" then 1 else 0);
      if Passes(last, ratio) {
        assert SelectedRnas(recs, ratio) == s + {last.txID};
        assert |s + {last.txID}| <= |s| + 1;
      } else {
        assert SelectedRnas(recs, ratio) == s;
      }
    }
  }

  /** The exact totals are the sums of the counts the lines denote. */
  lemma {:induction false} SumsAreTotals(recs: seq<PerRna>)
    ensures Value(SumObserved(recs)) == Total(Observed(recs))
    ensures Value(SumRandom(recs)) == Total(Random(recs))
    decreases |recs|
  {
    if recs != [] {
      var n := |recs| - 1;
      SumsAreTotals(recs[..n]);
      AddValue(SumObserved(recs[..n]), recs[n].observed);
      AddValue(SumRandom(recs[..n]), recs[n].random);
      assert Observed(recs)[..n] == Observed(recs[..n]);
      assert Random(recs)[..n] == Random(recs[..n]);
    } else {
      SignOfValue(Decimal(0, 0));
    }
  }

  // ---------------------------------------------------------------------------------------------
  // The reader

  /** What one more line adds to each of the loop's variables. */
  lemma SelectionSnoc(recs: seq<PerRna>, rec: PerRna, ratio: RatioFilter)
    ensures Pool(recs + [rec]) == Pool(recs) + {rec.txID}
    ensures SelectedRnas(recs + [rec], ratio) == SelectedRnas(recs, ratio) + (if Passes(rec, ratio) then {rec.txID} else {})
    ensures AboveRandom(recs + [rec]) == AboveRandom(recs) + (if rec.signFlag != "0" then 1 else 0)
    ensures RatioPassed(recs + [rec], ratio)
      == RatioPassed(recs, ratio) + (if ratio.MinRatio? && !RatioBelow(rec.observed, rec.random, ratio.min) then 1 else 0)
    ensures SumObserved(recs + [rec]) == Add(SumObserved(recs), rec.observed)
    ensures SumRandom(recs + [rec]) == Add(SumRandom(recs), rec.random)
  {
    assert (recs + [rec])[..|recs|] == recs;
  }

  /**
    The body of the reading loop for one line that has been read: the line's transcript joins the
    pool, the two counters and the selection follow the two filters, and both totals grow.
   */
  method Tally(st: Selection, rec: PerRna, ratio: RatioFilter, ghost recs: seq<PerRna>) returns (st': Selection)
    requires st == SelectionOf(recs, ratio)
    ensures st' == SelectionOf(recs + [rec], ratio)
  {
    SelectionSnoc(recs, rec, ratio);
    var poolRna := st.pool + {rec.txID};
    var countAboveRandom := st.countAboveRandom;
    var countRatioPassed := st.countRatioPassed;
    var signPassed := true;
    var ratioPassed := true;
    if rec.signFlag == "0" {
      signPassed := false;
    } else {
      countAboveRandom := countAboveRandom + 1;
    }
    if ratio.MinRatio? {
      if RatioBelow(rec.observed, rec.random, ratio.min) {
        ratioPassed := false;
      } else {
        countRatioPassed := countRatioPassed + 1;
      }
    }
    var selected := st.selected;
    if signPassed && ratioPassed {
      selected := selected + {rec.txID};
    }
    st' := Selection(selected, Add(st.countReal, rec.observed), Add(st.countRandom, rec.random),
                     poolRna, countAboveRandom, countRatioPassed);
  }

  /**
    The reading loop over the lines after the header, for any line parser: the selection of all
    lines, or the index of the first line the parser rejects.
   */
  method ScanPerRna(parse: string -> Option<PerRna>, body: seq<string>, ratio: RatioFilter) returns (r: Result<Selection, nat>)
    ensures r.Ok? <==> ParseAll(parse, body).Some?
    ensures r.Ok? ==> r.value == SelectionOf(ParseAll(parse, body).value, ratio)
    ensures r.Err? ==> r.error < |body| && parse(body[r.error]).None? && ParseAll(parse, body[..r.error]).Some?
  {
    var st := SelectionOf([], ratio);
    ghost var recs: seq<PerRna> := [];
    var i := 0;
    while i < |body|
      invariant 0 <= i <= |body|
      invariant ParseAll(parse, body[..i]) == Some(recs)
      invariant st == SelectionOf(recs, ratio)
    {
      var stop;
      stop, st, recs := ReadPerRna(parse, body, ratio, i, st, recs);
      if stop {
        return Err(i);
      }
      i := i + 1;
    }
    assert body[..i] == body;
    return Ok(st);
  }

  /** One pass of the reading loop: line `i` is read into the selection, or stops the loop. */
  method ReadPerRna(parse: string -> Option<PerRna>, body: seq<string>, ratio: RatioFilter, i: nat, st: Selection, ghost recs: seq<PerRna>)
    returns (stop: bool, st': Selection, ghost recs': seq<PerRna>)
    requires i < |body| && ParseAll(parse, body[..i]) == Some(recs) && st == SelectionOf(recs, ratio)
    ensures stop ==> parse(body[i]).None? && ParseAll(parse, body).None?
    ensures !stop ==> ParseAll(parse, body[..i + 1]) == Some(recs') && st' == SelectionOf(recs', ratio)
  {
    var parsed := parse(body[i]);
    if parsed.None? {
      ParseAllStops(parse, body, i);
      MalformedPrefix(parse, body, i + 1);
      return true, st, recs;
    }
    ParseAllSnoc(parse, body, i, recs, parsed.value);
    st' := Tally(st, parsed.value, ratio, recs);
    return false, st', recs + [parsed.value];
  }

  /**
    `read_enrichment_per_rna_file`: skips the header, reads every further line and returns the
    selection and the two totals (with the pool and the counters it logs), or the number of the
    first line that cannot be read.
   */
  method ReadEnrichmentPerRnaFile(lines: seq<string>, ratio: RatioFilter) returns (r: Result<Selection, LineError>)
    ensures r.Ok? <==> ParseAll(ParsePerRna, Body(lines)).Some?
    ensures r.Ok? ==> r.value == SelectionOf(ParseAll(ParsePerRna, Body(lines)).value, ratio)
    ensures r.Err? ==> 2 <= r.error.lineNumber <= |lines|
    ensures r.Err? ==> ParsePerRna(lines[r.error.lineNumber - 1]).None?
    ensures r.Err? ==> ParseAll(ParsePerRna, lines[1..r.error.lineNumber - 1]).Some?
  {
    var scan := ScanPerRna(ParsePerRna, Body(lines), ratio);
    match scan {
      case Ok(st) => return Ok(st);
      case Err(i) =>
        ghost var body := Body(lines);
        assert body[i] == lines[i + 1];
        assert lines[1..i + 1] == body[..i];
        return Err(LineError(i + 2));
    }
  }
}
