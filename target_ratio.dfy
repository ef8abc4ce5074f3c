/**
  `protein_target_ratio.py` up to the statistical test: the biotype of each transcript, then, for
  each protein of a catRAPID interaction file, the number of its interactions with targets of each
  biotype, and the 2x2 contingency table of its lncRNA and mRNA targets against all lncRNA and mRNA
  transcripts seen.
 */
module TargetRatio {
  import opened Results
  import opened Text
  import opened Numbers
  import opened Interactions
  import opened Lines

  // ---------------------------------------------------------------------------------------------
  // The transcript types file

  /** One line of the types file: `"ENST00000000412","protein_coding","MRNA"`. */
  datatype TypeEntry = TypeEntry(transcript: string, biotype: string)

  /**
    `spl = line.strip().split(",")`, the transcript `spl[0]` and the type `spl[2]` without their
    quotes; a line with fewer than three fields raises IndexError.
   */
  function ParseTypeLine(line: string): (r: Option<TypeEntry>)
    ensures r.Some? ==> '"' !in r.value.transcript && '"' !in r.value.biotype
  {
    var spl := Split(Strip(line), ',');
    if |spl| < 3 then None else Some(TypeEntry(RemoveChar(spl[0], '"'), RemoveChar(spl[2], '"')))
  }

  /** A line of three quoted fields reads back as the first and the third. */
  lemma ParseTypeLineOfLine(id: string, kind: string, biotype: string, newline: string)
    requires AllSpace(newline)
    requires '"' !in id && '"' !in kind && '"' !in biotype
    requires ',' !in id && ',' !in kind && ',' !in biotype
    ensures ParseTypeLine("\"" + id + "\",\"" + kind + "\",\"" + biotype + "\"" + newline) == Some(TypeEntry(id, biotype))
  {
    var parts := ["\"" + id + "\"", "\"" + kind + "\"", "\"" + biotype + "\""];
    assert parts[1..][1..] == [parts[2]];
    assert Join(parts[1..], ",") == parts[1] + "," + parts[2];
    assert Join(parts, ",") == "\"" + id + "\",\"" + kind + "\",\"" + biotype + "\"";
    assert forall i | 0 <= i < 3 :: ',' !in parts[i];
    assert "" + Join(parts, ",") + newline == "\"" + id + "\",\"" + kind + "\",\"" + biotype + "\"" + newline;
    StripSplitJoin("", parts, ',', newline);
    Unquote(id);
    Unquote(biotype);
  }

  /** `transcriptType`: each transcript of the file with its type, a later line overwriting an earlier one. */
  function TypeMap(entries: seq<TypeEntry>): map<string, string>
    decreases |entries|
  {
    if entries == [] then map[]
    else
      var e := entries[|entries| - 1];
      TypeMap(entries[..|entries| - 1])[e.transcript := e.biotype]
  }

  /** A transcript has a type exactly when some line names it. */
  lemma {:induction false} TypeMapKeys(entries: seq<TypeEntry>, tx: string)
    ensures tx in TypeMap(entries) <==> exists i | 0 <= i < |entries| :: entries[i].transcript == tx
    decreases |entries|
  {
    if entries != [] {
      var n := |entries| - 1;
      var init := entries[..n];
      TypeMapKeys(init, tx);
      if entries[n].transcript != tx {
        if exists i | 0 <= i < |entries| :: entries[i].transcript == tx {
          var i :| 0 <= i < |entries| && entries[i].transcript == tx;
          assert init[i].transcript == tx;
        }
        if tx in TypeMap(init) {
          var i :| 0 <= i < n && init[i].transcript == tx;
          assert entries[i].transcript == tx;
        }
      }
    }
  }

  /** The type of a transcript is that of the last line naming it. */
  lemma {:induction false} TypeMapLast(entries: seq<TypeEntry>, tx: string)
    ensures tx in TypeMap(entries) ==> exists i | 0 <= i < |entries| ::
      entries[i].transcript == tx && TypeMap(entries)[tx] == entries[i].biotype &&
      forall j | i < j < |entries| :: entries[j].transcript != tx
    decreases |entries|
  {
    if entries != [] {
      var n := |entries| - 1;
      var init := entries[..n];
      if entries[n].transcript != tx && tx in TypeMap(init) {
        TypeMapLast(init, tx);
        var i :| 0 <= i < n && init[i].transcript == tx && TypeMap(init)[tx] == init[i].biotype &&
          forall j | i < j < n :: init[j].transcript != tx;
        assert entries[i] == init[i];
        forall j | i < j < |entries| ensures entries[j].transcript != tx {
          if j < n {
            assert entries[j] == init[j];
          }
        }
      }
    }
  }


  /** The reading loop of `read_transcript_types`, for any line parser. */
  method ScanTypes(parse: string -> Option<TypeEntry>, lines: seq<string>) returns (r: Result<map<string, string>, nat>)
    ensures r.Ok? <==> ParseAll(parse, lines).Some?
    ensures r.Ok? ==> r.value == TypeMap(ParseAll(parse, lines).value)
    ensures r.Err? ==> r.error < |lines| && parse(lines[r.error]).None? && ParseAll(parse, lines[..r.error]).Some?
  {
    var transcriptType: map<string, string> := map[];
    ghost var entries: seq<TypeEntry> := [];
    var i := 0;
    while i < |lines|
      invariant 0 <= i <= |lines|
      invariant ParseAll(parse, lines[..i]) == Some(entries)
      invariant transcriptType == TypeMap(entries)
    {
      var parsed := parse(lines[i]);
      if parsed.None? {
        ParseAllStops(parse, lines, i);
        MalformedPrefix(parse, lines, i + 1);
        return Err(i);
      }
      ParseAllSnoc(parse, lines, i, entries, parsed.value);
      assert (entries + [parsed.value])[..|entries|] == entries;
      transcriptType := transcriptType[parsed.value.transcript := parsed.value.biotype];
      entries := entries + [parsed.value];
      i := i + 1;
    }
    assert lines[..i] == lines;
    return Ok(transcriptType);
  }

  /** `read_transcript_types`: the type of every transcript, or the number of the first line with fewer than three fields. */
  method ReadTranscriptTypes(lines: seq<string>) returns (r: Result<map<string, string>, LineError>)
    ensures r.Ok? <==> ParseAll(ParseTypeLine, lines).Some?
    ensures r.Ok? ==> r.value == TypeMap(ParseAll(ParseTypeLine, lines).value)
    ensures r.Err? ==> 1 <= r.error.lineNumber <= |lines| && ParseTypeLine(lines[r.error.lineNumber - 1]).None?
    ensures r.Err? ==> ParseAll(ParseTypeLine, lines[..r.error.lineNumber - 1]).Some?
  {
    var scan := ScanTypes(ParseTypeLine, lines);
    match scan {
      case Ok(types) => return Ok(types);
      case Err(i) =>
        assert lines[..(i + 1) - 1] == lines[..i];
        return Err(LineError(i + 1));
    }
  }

  // ---------------------------------------------------------------------------------------------
  // What the counting loop builds, as functions of the interactions read so far

  /** The interactions of `protein` with targets of type `biotype`, each line counted. */
  function InteractionCount(types: map<string, string>, recs: seq<Interaction>, protein: string, biotype: string): nat
    decreases |recs|
  {
    if recs == [] then 0
    else
      var it := recs[|recs| - 1];
      InteractionCount(types, recs[..|recs| - 1], protein, biotype)
        + (if it.protein == protein && it.rna in types && types[it.rna] == biotype then 1 else 0)
  }

  /** `typeStats`: per protein, per target type, the number of interactions (lines 102-114). */
  function TypeStats(types: map<string, string>, recs: seq<Interaction>): map<string, map<string, nat>>
    decreases |recs|
  {
    if recs == [] then map[]
    else
      var stats := TypeStats(types, recs[..|recs| - 1]);
      var it := recs[|recs| - 1];
      if it.rna !in types then stats
      else
        var t := types[it.rna];
        var row := if it.protein in stats then stats[it.protein] else map[];
        stats[it.protein := row[t := (if t in row then row[t] else 0) + 1]]
  }

  /** `proteinSet`: the proteins of the lines whose target has a type. */
  function Proteins(types: map<string, string>, recs: seq<Interaction>): set<string>
    decreases |recs|
  {
    if recs == [] then {}
    else
      var it := recs[|recs| - 1];
      Proteins(types, recs[..|recs| - 1]) + (if it.rna in types then {it.protein} else {})
  }

  /** `transcriptSet`: the targets that have a type. */
  function Transcripts(types: map<string, string>, recs: seq<Interaction>): set<string>
    decreases |recs|
  {
    if recs == [] then {}
    else
      var it := recs[|recs| - 1];
      Transcripts(types, recs[..|recs| - 1]) + (if it.rna in types then {it.rna} else {})
  }

  /** `transcriptSetType`: per type, the distinct targets of that type. */
  function TranscriptsByType(types: map<string, string>, recs: seq<Interaction>): map<string, set<string>>
    decreases |recs|
  {
    if recs == [] then map[]
    else
      var byType := TranscriptsByType(types, recs[..|recs| - 1]);
      var it := recs[|recs| - 1];
      if it.rna !in types then byType
      else
        var t := types[it.rna];
        byType[t := (if t in byType then byType[t] else {}) + {it.rna}]
  }

  /** `missingTargets`: the targets without a type. */
  function Missing(types: map<string, string>, recs: seq<Interaction>): set<string>
    decreases |recs|
  {
    if recs == [] then {}
    else
      var it := recs[|recs| - 1];
      Missing(types, recs[..|recs| - 1]) + (if it.rna in types then {} else {it.rna})
  }

  /** The variables of the counting loop. */
  datatype Counts = Counts(
    countLines: nat,
    typeStats: map<string, map<string, nat>>,
    proteinSet: set<string>,
    transcriptSet: set<string>,
    transcriptSetType: map<string, set<string>>,
    missingTargets: set<string>)

  function CountsOf(types: map<string, string>, recs: seq<Interaction>): Counts {
    Counts(|recs|, TypeStats(types, recs), Proteins(types, recs), Transcripts(types, recs),
      TranscriptsByType(types, recs), Missing(types, recs))
  }

  // ---------------------------------------------------------------------------------------------
  // Properties of the counts

  /** `typeStats[p][t]`, 0 when either level is missing. */
  function Get(stats: map<string, map<string, nat>>, protein: string, biotype: string): nat {
    if protein in stats && biotype in stats[protein] then stats[protein][biotype] else 0
  }

  /**
    `typeStats[p][t]` is the number of lines with protein `p` whose target has type `t`, and the
    entry exists exactly when that number is positive; `p` has a row exactly when it is in `proteinSet`.
   */
  lemma {:induction false} TypeStatsCounts(types: map<string, string>, recs: seq<Interaction>, protein: string, biotype: string)
    ensures Get(TypeStats(types, recs), protein, biotype) == InteractionCount(types, recs, protein, biotype)
    ensures protein in TypeStats(types, recs) ==>
      (biotype in TypeStats(types, recs)[protein] <==> InteractionCount(types, recs, protein, biotype) > 0)
    ensures protein in TypeStats(types, recs) <==> protein in Proteins(types, recs)
    decreases |recs|
  {
    if recs != [] {
      TypeStatsCounts(types, recs[..|recs| - 1], protein, biotype);
    }
  }

  /** A protein is in `proteinSet` exactly when some line pairs it with a target that has a type. */
  lemma {:induction false} ProteinsIff(types: map<string, string>, recs: seq<Interaction>, protein: string)
    ensures protein in Proteins(types, recs) <==> exists i | 0 <= i < |recs| :: recs[i].protein == protein && recs[i].rna in types
    decreases |recs|
  {
    if recs != [] {
      var n := |recs| - 1;
      ProteinsIff(types, recs[..n], protein);
      assert forall i | 0 <= i < n :: recs[..n][i] == recs[i];
    }
  }

  /**
    A target is in `transcriptSet` exactly when some line names it and it has a type, in
    `missingTargets` exactly when some line names it and it has none; no target is in both.
   */
  lemma {:induction false} TranscriptsIff(types: map<string, string>, recs: seq<Interaction>, tx: string)
    ensures tx in Transcripts(types, recs) <==> tx in types && exists i | 0 <= i < |recs| :: recs[i].rna == tx
    ensures tx in Missing(types, recs) <==> tx !in types && exists i | 0 <= i < |recs| :: recs[i].rna == tx
    ensures !(tx in Transcripts(types, recs) && tx in Missing(types, recs))
    decreases |recs|
  {
    if recs != [] {
      var n := |recs| - 1;
      TranscriptsIff(types, recs[..n], tx);
      assert forall i | 0 <= i < n :: recs[..n][i] == recs[i];
      if exists i | 0 <= i < |recs| :: recs[i].rna == tx {
        var i :| 0 <= i < |recs| && recs[i].rna == tx;
        if i < n {
          assert recs[..n][i].rna == tx;
        }
      }
    }
  }

  /**
    `transcriptSetType[t]` holds exactly the targets seen whose type is `t`, and a type has an
    entry exactly when some target seen has it.
   */
  lemma {:induction false} ByTypeIff(types: map<string, string>, recs: seq<Interaction>, biotype: string, tx: string)
    ensures biotype in TranscriptsByType(types, recs) <==> exists x | x in Transcripts(types, recs) :: x in types && types[x] == biotype
    ensures biotype in TranscriptsByType(types, recs) ==>
      (tx in TranscriptsByType(types, recs)[biotype] <==> tx in Transcripts(types, recs) && tx in types && types[tx] == biotype)
    decreases |recs|
  {
    if recs != [] {
      var n := |recs| - 1;
      ByTypeIff(types, recs[..n], biotype, tx);
      var it := recs[n];
      if it.rna in types && types[it.rna] == biotype {
        assert it.rna in Transcripts(types, recs);
      }
      if exists x | x in Transcripts(types, recs) :: x in types && types[x] == biotype {
        var x :| x in Transcripts(types, recs) && x in types && types[x] == biotype;
        if x != it.rna {
          assert x in Transcripts(types, recs[..n]);
        }
      }
    }
  }

  /** A line whose target has no type only adds the target to `missingTargets` (and counts as a line). */
  lemma UnknownChangesNothing(types: map<string, string>, recs: seq<Interaction>, it: Interaction)
    requires it.rna !in types
    ensures var c, c' := CountsOf(types, recs), CountsOf(types, recs + [it]);
      c' == c.(countLines := c.countLines + 1, missingTargets := c.missingTargets + {it.rna})
  {
    assert (recs + [it])[..|recs|] == recs;
  }

  /** No (protein, target) pair is on two lines. */
  predicate UniquePairs(recs: seq<Interaction>) {
    forall i, j | 0 <= i < j < |recs| :: recs[i].protein != recs[j].protein || recs[i].rna != recs[j].rna
  }

  /** The distinct targets of type `biotype` that `protein` interacts with. */
  function TargetsOf(types: map<string, string>, recs: seq<Interaction>, protein: string, biotype: string): set<string>
    decreases |recs|
  {
    if recs == [] then {}
    else
      var it := recs[|recs| - 1];
      TargetsOf(types, recs[..|recs| - 1], protein, biotype)
        + (if it.protein == protein && it.rna in types && types[it.rna] == biotype then {it.rna} else {})
  }

  /**
    Without repeated pairs, a protein's interactions of a type are as many as its distinct targets
    of that type, which are among the targets of that type seen.
   */
  lemma {:induction false} InteractionsAreTargets(types: map<string, string>, recs: seq<Interaction>, protein: string, biotype: string)
    requires UniquePairs(recs)
    ensures InteractionCount(types, recs, protein, biotype) == |TargetsOf(types, recs, protein, biotype)|
    ensures forall tx | tx in TargetsOf(types, recs, protein, biotype) :: tx in Transcripts(types, recs) && tx in types && types[tx] == biotype
    decreases |recs|
  {
    if recs != [] {
      var n := |recs| - 1;
      var init := recs[..n];
      assert UniquePairs(init) by {
        forall i, j | 0 <= i < j < n ensures init[i].protein != init[j].protein || init[i].rna != init[j].rna {
          assert init[i] == recs[i] && init[j] == recs[j];
        }
      }
      InteractionsAreTargets(types, init, protein, biotype);
      var it := recs[n];
      var before := TargetsOf(types, init, protein, biotype);
      if it.protein == protein && it.rna in types && types[it.rna] == biotype && it.rna in before {
        TargetsOfWitness(types, recs, n, protein, biotype, it.rna);
        assert false;
      }
    }
  }

  /** A distinct target of the first `k` lines comes from one of them. */
  lemma {:induction false} TargetsOfWitness(types: map<string, string>, recs: seq<Interaction>, k: nat, protein: string, biotype: string, tx: string)
    requires k <= |recs| && tx in TargetsOf(types, recs[..k], protein, biotype)
    ensures exists i | 0 <= i < k :: recs[i].protein == protein && recs[i].rna == tx
    decreases k
  {
    var n := k - 1;
    assert recs[..k][..n] == recs[..n];
    if tx !in TargetsOf(types, recs[..n], protein, biotype) {
      assert recs[n] == recs[..k][n];
    } else {
      TargetsOfWitness(types, recs, n, protein, biotype, tx);
    }
  }

  // ---------------------------------------------------------------------------------------------
  // The counting loop

  /** What one more line adds to each of the loop's variables. */
  lemma CountsSnoc(types: map<string, string>, recs: seq<Interaction>, it: Interaction)
    ensures var c := CountsOf(types, recs);
      var t := if it.rna in types then types[it.rna] else "";
      var row := if it.protein in c.typeStats then c.typeStats[it.protein] else map[];
      CountsOf(types, recs + [it]) ==
        if it.rna !in types then c.(countLines := c.countLines + 1, missingTargets := c.missingTargets + {it.rna})
        else Counts(c.countLines + 1,
          c.typeStats[it.protein := row[t := (if t in row then row[t] else 0) + 1]],
          c.proteinSet + {it.protein}, c.transcriptSet + {it.rna},
          c.transcriptSetType[t := (if t in c.transcriptSetType then c.transcriptSetType[t] else {}) + {it.rna}],
          c.missingTargets)
  {
    assert (recs + [it])[..|recs|] == recs;
  }

  /** Lines 95-117 for one interaction that has been read. */
  method Count(types: map<string, string>, c: Counts, it: Interaction, ghost recs: seq<Interaction>) returns (c': Counts)
    requires c == CountsOf(types, recs)
    ensures c' == CountsOf(types, recs + [it])
  {
    CountsSnoc(types, recs, it);
    var countLines := c.countLines + 1;
    if it.rna !in types {
      return c.(countLines := countLines, missingTargets := c.missingTargets + {it.rna});
    }
    var txType := types[it.rna];
    var row := if it.protein in c.typeStats then c.typeStats[it.protein] else map[];
    var interactions := if txType in row then row[txType] else 0;
    row := row[txType := interactions + 1];
    var typeStats := c.typeStats[it.protein := row];
    var ofType := if txType in c.transcriptSetType then c.transcriptSetType[txType] else {};
    var transcriptSetType := c.transcriptSetType[txType := ofType + {it.rna}];
    c' := Counts(countLines, typeStats, c.proteinSet + {it.protein}, c.transcriptSet + {it.rna}, transcriptSetType, c.missingTargets);
  }

  /** One pass of the loop body for line `i`: the counts with that line, or `None` when it is not an interaction. */
  method CountLine(parse: string -> Option<Interaction>, lines: seq<string>, types: map<string, string>,
                   i: nat, c: Counts, ghost recs: seq<Interaction>)
    returns (next: Option<Counts>, ghost recs': seq<Interaction>)
    requires i < |lines| && ParseAll(parse, lines[..i]) == Some(recs) && c == CountsOf(types, recs)
    ensures next.None? <==> parse(lines[i]).None?
    ensures next.Some? ==> ParseAll(parse, lines[..i + 1]) == Some(recs') && next.value == CountsOf(types, recs')
  {
    var parsed := parse(lines[i]);
    recs' := recs;
    if parsed.None? {
      return None, recs';
    }
    ParseAllSnoc(parse, lines, i, recs, parsed.value);
    var c' := Count(types, c, parsed.value, recs);
    recs' := recs + [parsed.value];
    return Some(c'), recs';
  }

  /**
    The loop of `read_interaction_file` (lines 80-117) for any line parser: the counts of all lines,
    or the index of the first line the parser rejects, which aborts the script.
   */
  method ScanInteractions(parse: string -> Option<Interaction>, lines: seq<string>, types: map<string, string>)
    returns (r: Result<Counts, nat>)
    ensures r.Ok? <==> ParseAll(parse, lines).Some?
    ensures r.Ok? ==> r.value == CountsOf(types, ParseAll(parse, lines).value)
    ensures r.Err? ==> r.error < |lines| && parse(lines[r.error]).None? && ParseAll(parse, lines[..r.error]).Some?
  {
    var c := CountsOf(types, []);
    ghost var recs: seq<Interaction> := [];
    var i := 0;
    while i < |lines|
      invariant 0 <= i <= |lines|
      invariant ParseAll(parse, lines[..i]) == Some(recs)
      invariant c == CountsOf(types, recs)
    {
      var next;
      next, recs := CountLine(parse, lines, types, i, c, recs);
      if next.None? {
        ParseAllStops(parse, lines, i);
        MalformedPrefix(parse, lines, i + 1);
        return Err(i);
      }
      c := next.value;
      i := i + 1;
    }
    assert lines[..i] == lines;
    return Ok(c);
  }

  /**
    The counting part of `read_interaction_file`: the counts of all lines of the interaction file,
    or the number of the first line that is not an interaction.
   */
  method CountTargets(lines: seq<string>, types: map<string, string>) returns (r: Result<Counts, LineError>)
    ensures r.Ok? <==> ParseAll(ParseInteraction, lines).Some?
    ensures r.Ok? ==> r.value == CountsOf(types, ParseAll(ParseInteraction, lines).value)
    ensures r.Err? ==> 1 <= r.error.lineNumber <= |lines| && ParseInteraction(lines[r.error.lineNumber - 1]).None?
    ensures r.Err? ==> ParseAll(ParseInteraction, lines[..r.error.lineNumber - 1]).Some?
  {
    var scan := ScanInteractions(ParseInteraction, lines, types);
    match scan {
      case Ok(c) => return Ok(c);
      case Err(i) => return Err(LineError(i + 1));
    }
  }

  // ---------------------------------------------------------------------------------------------
  // Per protein: counts, ratio and contingency table (lines 138-165)

  const MRna := "MRNA"
  const LncRna := "LncRNA"

  /**
    One protein's line before the test: its mRNA and lncRNA interactions, their ratio (`None` for
    "NA") and the table `[[nLnc, lncTotal - nLnc], [nMRNA, mRNATotal - nMRNA]]`.
   */
  datatype TargetRow = TargetRow(nMRna: nat, nLncRna: nat, ratio: Option<Fraction>, table: seq<seq<int>>)

  /** `transcriptSetType["LncRNA"]` or `["MRNA"]` is missing: KeyError. */
  datatype RowError = MissingType(biotype: string)

  /** Lines 140-165 for one protein of `typeStats`. */
  function RowOf(c: Counts, protein: string): (r: Result<TargetRow, RowError>)
    ensures r.Ok? ==> r.value.nMRna == Get(c.typeStats, protein, MRna) && r.value.nLncRna == Get(c.typeStats, protein, LncRna)
    ensures r.Ok? ==> (r.value.ratio.None? <==> r.value.nLncRna == 0)
    ensures r.Ok? && r.value.ratio.Some? ==> r.value.ratio.value == Fraction(r.value.nMRna, r.value.nLncRna)
    ensures r.Err? <==> LncRna !in c.transcriptSetType || MRna !in c.transcriptSetType
    ensures r.Err? ==> r.error == MissingType(if LncRna !in c.transcriptSetType then LncRna else MRna)
    ensures r.Ok? ==> r.value.table == [
      [r.value.nLncRna as int, |c.transcriptSetType[LncRna]| - r.value.nLncRna],
      [r.value.nMRna as int, |c.transcriptSetType[MRna]| - r.value.nMRna]]
  {
    var nMRna := Get(c.typeStats, protein, MRna);
    var nLncRna := Get(c.typeStats, protein, LncRna);
    var ratio := if nLncRna > 0 then Some(Fraction(nMRna, nLncRna)) else None;
    if LncRna !in c.transcriptSetType then Err(MissingType(LncRna))
    else if MRna !in c.transcriptSetType then Err(MissingType(MRna))
    else
      var nonInteractingLnc := |c.transcriptSetType[LncRna]| - nLncRna;
      var nonInteractingMRna := |c.transcriptSetType[MRna]| - nMRna;
      Ok(TargetRow(nMRna, nLncRna, ratio, [[nLncRna, nonInteractingLnc], [nMRna, nonInteractingMRna]]))
  }

  /**
    For counts read from an interaction file without repeated pairs, every entry of the table is
    non-negative, and the table's rows add up to the numbers of lncRNA and mRNA transcripts seen.
   */
  lemma TableNonNegative(types: map<string, string>, recs: seq<Interaction>, protein: string)
    requires UniquePairs(recs) && RowOf(CountsOf(types, recs), protein).Ok?
    ensures var row := RowOf(CountsOf(types, recs), protein).value;
      forall i, j | 0 <= i < 2 && 0 <= j < 2 :: row.table[i][j] >= 0
    ensures var row := RowOf(CountsOf(types, recs), protein).value;
      var byType := TranscriptsByType(types, recs);
      row.table[0][0] + row.table[0][1] == |byType[LncRna]| && row.table[1][0] + row.table[1][1] == |byType[MRna]|
  {
    var byType := TranscriptsByType(types, recs);
    forall t | t == LncRna || t == MRna
      ensures InteractionCount(types, recs, protein, t) <= |byType[t]|
    {
      InteractionsAreTargets(types, recs, protein, t);
      var targets := TargetsOf(types, recs, protein, t);
      forall tx | tx in targets ensures tx in byType[t] {
        ByTypeIff(types, recs, t, tx);
      }
      assert targets <= byType[t];
      SubsetCard(targets, byType[t]);
    }
    TypeStatsCounts(types, recs, protein, LncRna);
    TypeStatsCounts(types, recs, protein, MRna);
  }

  lemma SubsetCard(a: set<string>, b: set<string>)
    requires a <= b
    ensures |a| <= |b|
  {
    assert b == a + (b - a);
  }

  /** The row of one more protein, taken from those left, added to the rows computed so far. */
  method AddRow(c: Counts, rows: map<string, TargetRow>, rest: set<string>)
    returns (r: Result<map<string, TargetRow>, RowError>, left: set<string>)
    requires rest != {} && rest <= c.typeStats.Keys && rows.Keys == c.typeStats.Keys - rest
    requires RowsOf(c, rows)
    ensures r.Ok? ==> left <= rest && |left| < |rest| && r.value.Keys == c.typeStats.Keys - left && RowsOf(c, r.value)
    ensures r.Err? <==> LncRna !in c.transcriptSetType || MRna !in c.transcriptSetType
    ensures r.Err? ==> r.error == MissingType(if LncRna !in c.transcriptSetType then LncRna else MRna)
  {
    var protID :| protID in rest;
    left := rest - {protID};
    var row := RowOf(c, protID);
    if row.Err? {
      return Err(row.error), left;
    }
    r := Ok(rows[protID := row.value]);
    assert r.value.Keys == c.typeStats.Keys - left;
  }

  /** Every row of `rows` is the row `RowOf` computes for its protein. */
  predicate RowsOf(c: Counts, rows: map<string, TargetRow>) {
    forall p | p in rows :: RowOf(c, p) == Ok(rows[p])
  }

  /**
    The rows of all proteins of `typeStats` (their order is that of the dictionary, so the model
    keeps them keyed by protein); with no protein there is no row and no lookup that could fail.
   */
  method TargetRows(c: Counts) returns (r: Result<map<string, TargetRow>, RowError>)
    ensures r.Ok? ==> r.value.Keys == c.typeStats.Keys && RowsOf(c, r.value)
    ensures r.Err? <==> c.typeStats != map[] && (LncRna !in c.transcriptSetType || MRna !in c.transcriptSetType)
    ensures r.Err? ==> r.error == MissingType(if LncRna !in c.transcriptSetType then LncRna else MRna)
  {
    var rows: map<string, TargetRow> := map[];
    var rest := c.typeStats.Keys;
    while rest != {}
      invariant rest <= c.typeStats.Keys
      invariant rows.Keys == c.typeStats.Keys - rest
      invariant RowsOf(c, rows)
      invariant rest != c.typeStats.Keys ==> LncRna in c.transcriptSetType && MRna in c.transcriptSetType
      decreases |rest|
    {
      var next, left := AddRow(c, rows, rest);
      if next.Err? {
        return Err(next.error);
      }
      rows, rest := next.value, left;
    }
    if c.typeStats != map[] {
      var p :| p in c.typeStats;
      assert p !in rest;
    }
    return Ok(rows);
  }

  // ---------------------------------------------------------------------------------------------
  // The whole file (lines 64-165) and the script (lines 282-285)

  datatype RatioError =
    | TypesUnreadable(lineError: LineError)        // a line of the transcript types file has no third field
    | InteractionUnreadable(lineError: LineError)  // a line of the interaction file lacks a field
    | TypeMissing(rowError: RowError)              // a biotype of the contingency table has no transcript

  /**
    What `read_interaction_file` gives for the transcript types `types`, up to the statistical
    test: an unreadable line exactly when some line does not read; otherwise the counts of all
    lines, and the row of every protein unless a biotype of the table has no transcript at all,
    the lncRNA type being looked up first.
   */
  ghost predicate InteractionsRead(r: Result<(Counts, map<string, TargetRow>), RatioError>, lines: seq<string>, types: map<string, string>) {
    && (r.Err? && r.error.InteractionUnreadable? <==> ParseAll(ParseInteraction, lines).None?)
    && (ParseAll(ParseInteraction, lines).Some? ==>
          var c := CountsOf(types, ParseAll(ParseInteraction, lines).value);
          && (r.Err? <==> c.typeStats != map[] && (LncRna !in c.transcriptSetType || MRna !in c.transcriptSetType))
          && (r.Err? ==> r.error == TypeMissing(MissingType(if LncRna !in c.transcriptSetType then LncRna else MRna)))
          && (r.Ok? ==> r.value.0 == c && r.value.1.Keys == c.typeStats.Keys && RowsOf(c, r.value.1)))
  }

  /** `read_interaction_file`: the counting loop over the interaction file, then the row of every protein. */
  method ReadInteractionFile(lines: seq<string>, types: map<string, string>) returns (r: Result<(Counts, map<string, TargetRow>), RatioError>)
    ensures r.Err? ==> !r.error.TypesUnreadable?
    ensures InteractionsRead(r, lines, types)
  {
    var counts := CountTargets(lines, types);
    if counts.Err? {
      return Err(InteractionUnreadable(counts.error));
    }
    var rows := TargetRows(counts.value);
    if rows.Err? {
      return Err(TypeMissing(rows.error));
    }
    return Ok((counts.value, rows.value));
  }

  /** The script: the transcript types file, then the interaction file with the types read. */
  method ProteinTargetRatio(typeLines: seq<string>, lines: seq<string>) returns (r: Result<(Counts, map<string, TargetRow>), RatioError>)
    ensures r.Err? && r.error.TypesUnreadable? <==> ParseAll(ParseTypeLine, typeLines).None?
    ensures ParseAll(ParseTypeLine, typeLines).Some? ==> InteractionsRead(r, lines, TypeMap(ParseAll(ParseTypeLine, typeLines).value))
  {
    var types := ReadTranscriptTypes(typeLines);
    if types.Err? {
      return Err(TypesUnreadable(types.error));
    }
    r := ReadInteractionFile(lines, types.value);
  }
}
