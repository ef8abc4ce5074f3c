/**
  Specificity of the enriched transcript-annotation pairs. Every pair key of the pair map is
  "transcript|annotation"; a pair is an enrichment when its value is not the warning value.
  The ranking counts, for each enrichment, how many enrichments its transcript has and how many its
  annotation has, and lists the enrichments by the sum of the two, least first. The specificity
  filter then keeps the retained result lines whose transcript and annotation have at most the
  given number of enrichments (-1 switches a limit off).
 */
module Specificity {
  import opened Results
  import opened Text
  import opened Numbers
  import Histograms

  /** What stops the ranking or the filtering, as the Python code raises it: a pair key that does
      not split into exactly two parts, a line without a second tab-separated field, or a lookup of
      a transcript or an annotation that has no enrichment. */
  datatype SpecificityError =
    | NotAPair(key: string)
    | MissingField(line: string)
    | UnknownTranscript(transcript: string)
    | UnknownAnnotation(annotation: string)

  /** `txID, annotID = key.split("|")`: the two parts, or nothing when there are not exactly two. */
  function SplitKey(key: string): (r: Option<(string, string)>)
    ensures r.Some? <==> |Split(key, '|')| == 2
    ensures r.Some? ==> key == r.value.0 + "|" + r.value.1 && '|' !in r.value.0 && '|' !in r.value.1
  {
    var parts := Split(key, '|');
    if |parts| == 2 then
      JoinSplit(key, '|');
      Some((parts[0], parts[1]))
    else
      None
  }

  /** A key built from a transcript and an annotation without '|' splits back into them. */
  lemma KeyRoundTrip(transcript: string, annotation: string)
    requires '|' !in transcript && '|' !in annotation
    ensures SplitKey(transcript + "|" + annotation) == Some((transcript, annotation))
  {
    SplitAtSeparator(transcript, annotation, '|');
    SplitNoSeparator(annotation, '|');
    assert transcript + "|" + annotation == transcript + ['|'] + annotation;
  }

  /** A split pair key: (transcript, annotation). */
  type Pair = (string, string)

  /** The key of a pair in the pair map, `txID + "|" + annotID`. */
  function Key(p: Pair): string {
    p.0 + "|" + p.1
  }

  /** The transcript (`side` false) or the annotation (`side` true) of a pair. */
  function Side(p: Pair, side: bool): string {
    if side then p.1 else p.0
  }

  /** The enrichments of the pair map: its keys whose value is not the warning value `w`, split. */
  function Enriched(pairs: map<string, string>, w: string): set<Pair> {
    set k | k in pairs && pairs[k] != w && SplitKey(k).Some? :: SplitKey(k).value
  }

  /** A pair is an enrichment exactly when its key is in the map with another value than `w` and
      neither of its parts holds '|'. */
  lemma EnrichedIff(pairs: map<string, string>, w: string, p: Pair)
    ensures p in Enriched(pairs, w) <==> Key(p) in pairs && pairs[Key(p)] != w && '|' !in p.0 && '|' !in p.1
  {
    if '|' !in p.0 && '|' !in p.1 && Key(p) in pairs && pairs[Key(p)] != w {
      KeyRoundTrip(p.0, p.1);
      assert SplitKey(Key(p)).value == p;
    }
  }

  /** The enrichments among `e` whose transcript (`side` false) or annotation (`side` true) is `x`. */
  function EnrichmentsOf(e: set<Pair>, side: bool, x: string): set<Pair> {
    set p | p in e && Side(p, side) == x
  }

  /** The annotations (`side` false) or transcripts (`side` true) those enrichments pair `x` with. */
  function PartnersOf(e: set<Pair>, side: bool, x: string): set<string> {
    set p | p in e && Side(p, side) == x :: Side(p, !side)
  }

  /** `lncDict` (`side` false) or `annotDict` (`side` true) after the enrichments `e`: an entry for
      every transcript (annotation) among them, listing one partner per enrichment. */
  ghost predicate Tallied(d: map<string, seq<string>>, e: set<Pair>, side: bool) {
    (forall x :: x in d <==> EnrichmentsOf(e, side, x) != {})
    && forall x | x in d ::
         |d[x]| == |EnrichmentsOf(e, side, x)|
         && forall y :: y in d[x] <==> y in PartnersOf(e, side, x)
  }

  /** `d[x].append(y)` for the transcript (annotation) `x` of an enrichment and its partner `y`,
      creating the list first when it is missing. */
  function Add(d: map<string, seq<string>>, p: Pair, side: bool): map<string, seq<string>> {
    var x := Side(p, side);
    d[x := (if x in d then d[x] else []) + [Side(p, !side)]]
  }

  /** One more enrichment adds itself to the enrichments of its own transcript (annotation) only. */
  lemma EnrichmentsStep(e: set<Pair>, side: bool, p: Pair, x: string)
    ensures EnrichmentsOf(e + {p}, side, x)
      == if x == Side(p, side) then EnrichmentsOf(e, side, x) + {p} else EnrichmentsOf(e, side, x)
    ensures PartnersOf(e + {p}, side, x)
      == if x == Side(p, side) then PartnersOf(e, side, x) + {Side(p, !side)} else PartnersOf(e, side, x)
  {
  }

  /** Appending one more enrichment keeps the entry for `x` the tally of the enrichments read. */
  lemma TalliedEntry(d: map<string, seq<string>>, e: set<Pair>, side: bool, p: Pair, x: string)
    requires Tallied(d, e, side) && p !in e
    ensures x in Add(d, p, side) <==> EnrichmentsOf(e + {p}, side, x) != {}
    ensures x in Add(d, p, side) ==>
      |Add(d, p, side)[x]| == |EnrichmentsOf(e + {p}, side, x)|
      && forall y :: y in Add(d, p, side)[x] <==> y in PartnersOf(e + {p}, side, x)
  {
    EnrichmentsStep(e, side, p, x);
    if x == Side(p, side) {
      assert p !in EnrichmentsOf(e, side, x);
      if x !in d {
        assert EnrichmentsOf(e, side, x) == {};
        assert PartnersOf(e, side, x) == {};
      }
    }
  }

  /** Appending one more enrichment keeps each dictionary the tally of the enrichments read. */
  lemma TalliedStep(d: map<string, seq<string>>, e: set<Pair>, side: bool, p: Pair)
    requires Tallied(d, e, side) && p !in e
    ensures Tallied(Add(d, p, side), e + {p}, side)
  {
    forall x
      ensures x in Add(d, p, side) <==> EnrichmentsOf(e + {p}, side, x) != {}
      ensures x in Add(d, p, side) ==>
        |Add(d, p, side)[x]| == |EnrichmentsOf(e + {p}, side, x)|
        && forall y :: y in Add(d, p, side)[x] <==> y in PartnersOf(e + {p}, side, x)
    {
      TalliedEntry(d, e, side, p, x);
    }
  }

  /** The enrichments whose keys are among `seen`. */
  ghost predicate SplitUpTo(e: set<Pair>, pairs: map<string, string>, w: string, seen: set<string>) {
    forall p: Pair :: p in e <==> Key(p) in seen && Key(p) in pairs && pairs[Key(p)] != w && '|' !in p.0 && '|' !in p.1
  }

  /** The first pass of rank_by_specificity: every key split and, when its value is not `w`, counted
      for its transcript in `lncDict` and for its annotation in `annotDict`; the keys come in no
      particular order, and one that is not "transcript|annotation" raises. */
  method TallyEnrichments(pairs: map<string, string>, w: string)
    returns (r: Result<(map<string, seq<string>>, map<string, seq<string>>), SpecificityError>)
    ensures r.Err? <==> exists k :: k in pairs && SplitKey(k).None?
    ensures r.Err? ==> r.error.NotAPair? && r.error.key in pairs && SplitKey(r.error.key).None?
    ensures r.Ok? ==> Tallied(r.value.0, Enriched(pairs, w), false) && Tallied(r.value.1, Enriched(pairs, w), true)
  {
    var lncDict: map<string, seq<string>> := map[];
    var annotDict: map<string, seq<string>> := map[];
    var e: set<Pair> := {};
    var seen: set<string> := {};
    while seen != pairs.Keys
      invariant seen <= pairs.Keys
      invariant forall k | k in seen :: SplitKey(k).Some?
      invariant SplitUpTo(e, pairs, w, seen)
      invariant Tallied(lncDict, e, false) && Tallied(annotDict, e, true)
      decreases |pairs.Keys - seen|
    {
      var bad;
      bad, seen, e, lncDict, annotDict := TallyNext(pairs, w, seen, e, lncDict, annotDict);
      if bad.Some? {
        return Err(NotAPair(bad.value));
      }
    }
    assert forall k | k in pairs :: SplitKey(k).Some?;
    SplitAll(e, pairs, w);
    return Ok((lncDict, annotDict));
  }

  /** Once every key is seen, the enrichments split so far are all of them. */
  lemma SplitAll(e: set<Pair>, pairs: map<string, string>, w: string)
    requires SplitUpTo(e, pairs, w, pairs.Keys)
    ensures e == Enriched(pairs, w)
  {
    forall p
      ensures p in e <==> p in Enriched(pairs, w)
    {
      EnrichedIff(pairs, w, p);
    }
  }

  /** A key not seen yet, split and tallied, or that key when it does not split. */
  method TallyNext(pairs: map<string, string>, w: string, seen: set<string>, e: set<Pair>,
                   lncDict: map<string, seq<string>>, annotDict: map<string, seq<string>>)
    returns (bad: Option<string>, seen': set<string>, e': set<Pair>,
             lncDict': map<string, seq<string>>, annotDict': map<string, seq<string>>)
    requires seen <= pairs.Keys && seen != pairs.Keys
    requires forall k | k in seen :: SplitKey(k).Some?
    requires SplitUpTo(e, pairs, w, seen)
    requires Tallied(lncDict, e, false) && Tallied(annotDict, e, true)
    ensures bad.Some? ==> bad.value in pairs && SplitKey(bad.value).None?
    ensures bad.None? ==>
      && seen' <= pairs.Keys && |pairs.Keys - seen'| < |pairs.Keys - seen|
      && (forall k | k in seen' :: SplitKey(k).Some?)
      && SplitUpTo(e', pairs, w, seen')
      && Tallied(lncDict', e', false) && Tallied(annotDict', e', true)
  {
    assert pairs.Keys == seen + (pairs.Keys - seen);
    var k :| k in pairs.Keys - seen;
    if SplitKey(k).None? {
      return Some(k), seen, e, lncDict, annotDict;
    }
    lncDict', annotDict', e' := TallyKey(pairs, w, seen, e, lncDict, annotDict, k);
    assert pairs.Keys - (seen + {k}) < pairs.Keys - seen;
    return None, seen + {k}, e', lncDict', annotDict';
  }

  /** One key of the first pass. */
  method TallyKey(pairs: map<string, string>, w: string, seen: set<string>, e: set<Pair>,
                  lncDict: map<string, seq<string>>, annotDict: map<string, seq<string>>, k: string)
    returns (lncDict': map<string, seq<string>>, annotDict': map<string, seq<string>>, e': set<Pair>)
    requires k in pairs && k !in seen && SplitKey(k).Some?
    requires SplitUpTo(e, pairs, w, seen)
    requires Tallied(lncDict, e, false) && Tallied(annotDict, e, true)
    ensures SplitUpTo(e', pairs, w, seen + {k})
    ensures Tallied(lncDict', e', false) && Tallied(annotDict', e', true)
  {
    var p := SplitKey(k).value;
    lncDict', annotDict', e' := lncDict, annotDict, e;
    if pairs[k] != w {
      assert Key(p) == k;
      TalliedStep(lncDict, e, false, p);
      TalliedStep(annotDict, e, true, p);
      lncDict', annotDict', e' := Add(lncDict, p, false), Add(annotDict, p, true), e + {p};
    }
    forall q: Pair
      ensures q in e' <==> Key(q) in seen + {k} && Key(q) in pairs && pairs[Key(q)] != w && '|' !in q.0 && '|' !in q.1
    {
      if Key(q) == k && '|' !in q.0 && '|' !in q.1 {
        KeyRoundTrip(q.0, q.1);
      }
    }
  }

  /** The specificity rank of an enrichment: the enrichments of its transcript plus those of its annotation. */
  function Rank(e: set<Pair>, p: Pair): int {
    |EnrichmentsOf(e, false, p.0)| + |EnrichmentsOf(e, true, p.1)|
  }

  /** An enrichment counts on both sides of its own rank, so no rank is below 2. */
  lemma RankAtLeastTwo(e: set<Pair>, p: Pair)
    requires p in e
    ensures Rank(e, p) >= 2
  {
    assert p in EnrichmentsOf(e, false, p.0);
    assert p in EnrichmentsOf(e, true, p.1);
  }

  /** The dictionaries hold entries for both parts of enrichment `p`, as long as their number of enrichments. */
  ghost predicate Counted(lncDict: map<string, seq<string>>, annotDict: map<string, seq<string>>, e: set<Pair>, p: Pair) {
    && p in e
    && p.0 in lncDict && |lncDict[p.0]| == |EnrichmentsOf(e, false, p.0)|
    && p.1 in annotDict && |annotDict[p.1]| == |EnrichmentsOf(e, true, p.1)|
  }

  /** The passes after the first read the number of enrichments of a pair's two parts off the two dictionaries. */
  lemma TalliedCounts(lncDict: map<string, seq<string>>, annotDict: map<string, seq<string>>, e: set<Pair>, p: Pair)
    requires Tallied(lncDict, e, false) && Tallied(annotDict, e, true)
    requires p in e
    ensures Counted(lncDict, annotDict, e, p)
  {
    assert p in EnrichmentsOf(e, false, p.0);
    assert p in EnrichmentsOf(e, true, p.1);
  }

  /** `rankDict` once the enrichments `seen` are read: a list per rank holding each enrichment of that rank once. */
  ghost predicate Bucketed(rankDict: map<int, seq<Pair>>, e: set<Pair>, seen: set<Pair>) {
    (forall p | p in seen :: Rank(e, p) in rankDict)
    && forall r | r in rankDict ::
         NoDuplicates(rankDict[r])
         && forall p :: p in rankDict[r] <==> p in seen && Rank(e, p) == r
  }

  /** The second pass of rank_by_specificity: each enrichment appended to the list of its rank,
      `len(lncDict[txID]) + len(annotDict[annotID])`. */
  method BucketByRank(e: set<Pair>, lncDict: map<string, seq<string>>, annotDict: map<string, seq<string>>)
    returns (rankDict: map<int, seq<Pair>>)
    requires Tallied(lncDict, e, false) && Tallied(annotDict, e, true)
    ensures Bucketed(rankDict, e, e)
  {
    rankDict := map[];
    var seen: set<Pair> := {};
    while seen != e
      invariant seen <= e
      invariant Bucketed(rankDict, e, seen)
      decreases |e - seen|
    {
      seen, rankDict := BucketNext(e, lncDict, annotDict, seen, rankDict);
    }
  }

  /** An enrichment not read yet, appended to the list of its rank. */
  method BucketNext(e: set<Pair>, lncDict: map<string, seq<string>>, annotDict: map<string, seq<string>>,
                    seen: set<Pair>, rankDict: map<int, seq<Pair>>)
    returns (seen': set<Pair>, rankDict': map<int, seq<Pair>>)
    requires Tallied(lncDict, e, false) && Tallied(annotDict, e, true)
    requires seen <= e && seen != e && Bucketed(rankDict, e, seen)
    ensures seen' <= e && |e - seen'| < |e - seen| && Bucketed(rankDict', e, seen')
  {
    Unread(e, seen);
    var p :| p in e && p !in seen;
    TalliedCounts(lncDict, annotDict, e, p);
    rankDict' := BucketStep(e, seen, rankDict, p, |lncDict[p.0]| + |annotDict[p.1]|);
    Read(e, seen, p);
    seen' := seen + {p};
  }

  lemma Unread(e: set<Pair>, seen: set<Pair>)
    requires seen <= e && seen != e
    ensures exists p :: p in e && p !in seen
  {
    assert e == seen + (e - seen);
  }

  lemma Read(e: set<Pair>, seen: set<Pair>, p: Pair)
    requires seen <= e && p in e && p !in seen
    ensures seen + {p} <= e && |e - (seen + {p})| < |e - seen|
  {
    assert e - (seen + {p}) < e - seen;
  }

  /** One enrichment of the second pass, with its rank. */
  method BucketStep(e: set<Pair>, seen: set<Pair>, rankDict: map<int, seq<Pair>>, p: Pair, rank: int)
    returns (rankDict': map<int, seq<Pair>>)
    requires p !in seen && rank == Rank(e, p)
    requires Bucketed(rankDict, e, seen)
    ensures Bucketed(rankDict', e, seen + {p})
  {
    var bucket := if rank in rankDict then rankDict[rank] else [];
    assert p !in bucket;
    rankDict' := rankDict[rank := bucket + [p]];
    forall r | r in rankDict'
      ensures NoDuplicates(rankDict'[r])
      ensures forall q :: q in rankDict'[r] <==> q in seen + {p} && Rank(e, q) == r
    {
      if r != rank {
        assert rankDict'[r] == rankDict[r];
      }
    }
  }

  /** The enrichments listed so far, with the ranks `remaining` still to come: each once, all of a
      rank already taken, least rank first. */
  ghost predicate Emitted(ranked: seq<Pair>, remaining: set<int>, e: set<Pair>) {
    NoDuplicates(ranked)
    && (forall p :: p in ranked <==> p in e && Rank(e, p) !in remaining)
    && (forall i, j | 0 <= i < j < |ranked| :: Rank(e, ranked[i]) <= Rank(e, ranked[j]))
    && (forall i, r | 0 <= i < |ranked| && r in remaining :: Rank(e, ranked[i]) < r)
  }

  /** Every element of the list of rank `m` has rank `m`. */
  lemma BucketRanks(e: set<Pair>, rankDict: map<int, seq<Pair>>, m: int)
    requires Bucketed(rankDict, e, e) && m in rankDict
    ensures forall j | 0 <= j < |rankDict[m]| :: Rank(e, rankDict[m][j]) == m
    ensures forall p | p in rankDict[m] :: p in e && Rank(e, p) == m
  {
    forall j | 0 <= j < |rankDict[m]| ensures Rank(e, rankDict[m][j]) == m {
      assert rankDict[m][j] in rankDict[m];
    }
  }

  /** Taking the least remaining rank's list next keeps the listing free of repetition and in rank order. */
  lemma EmitOrdered(ranked: seq<Pair>, remaining: set<int>, e: set<Pair>, rankDict: map<int, seq<Pair>>, m: int)
    requires Bucketed(rankDict, e, e)
    requires Emitted(ranked, remaining, e)
    requires m in remaining && m in rankDict
    ensures NoDuplicates(ranked + rankDict[m])
    ensures forall i, j | 0 <= i < j < |ranked + rankDict[m]| :: Rank(e, (ranked + rankDict[m])[i]) <= Rank(e, (ranked + rankDict[m])[j])
  {
    var bucket := rankDict[m];
    var s := ranked + bucket;
    BucketRanks(e, rankDict, m);
    forall i, j | 0 <= i < j < |s|
      ensures s[i] != s[j] && Rank(e, s[i]) <= Rank(e, s[j])
    {
      if j >= |ranked| {
        assert s[j] == bucket[j - |ranked|];
        if i >= |ranked| {
          assert s[i] == bucket[i - |ranked|];
        } else {
          assert s[i] in ranked;
        }
      }
    }
  }

  /** Taking the least remaining rank's list next keeps the listing in rank order. */
  lemma EmitStep(ranked: seq<Pair>, remaining: set<int>, e: set<Pair>, rankDict: map<int, seq<Pair>>, m: int)
    requires Bucketed(rankDict, e, e)
    requires Emitted(ranked, remaining, e)
    requires m in remaining && m in rankDict && forall r | r in remaining :: m <= r
    ensures Emitted(ranked + rankDict[m], remaining - {m}, e)
  {
    var bucket := rankDict[m];
    var s := ranked + bucket;
    EmitOrdered(ranked, remaining, e, rankDict, m);
    BucketRanks(e, rankDict, m);
    forall p
      ensures p in s <==> p in e && Rank(e, p) !in remaining - {m}
    {
      if p in s && p !in ranked {
        assert p in bucket;
      }
    }
    forall i, r | 0 <= i < |s| && r in remaining - {m}
      ensures Rank(e, s[i]) < r
    {
      if i >= |ranked| {
        assert s[i] == bucket[i - |ranked|];
      }
    }
  }

  /** The line of the specificity rank file for one enrichment. */
  datatype RankRow = RankRow(transcript: string, annotation: string, transcriptEnrichments: nat, annotEnrichments: nat)

  /** The row written for enrichment `p`: its two parts and their numbers of enrichments. */
  function RowOf(e: set<Pair>, p: Pair): (row: RankRow)
    ensures row.transcriptEnrichments + row.annotEnrichments == Rank(e, p)
    ensures p in e ==> row.transcriptEnrichments >= 1 && row.annotEnrichments >= 1
  {
    if p in e then
      assert p in EnrichmentsOf(e, false, p.0) && p in EnrichmentsOf(e, true, p.1);
      RankRow(p.0, p.1, |EnrichmentsOf(e, false, p.0)|, |EnrichmentsOf(e, true, p.1)|)
    else
      RankRow(p.0, p.1, |EnrichmentsOf(e, false, p.0)|, |EnrichmentsOf(e, true, p.1)|)
  }

  const RankHeader := "transcriptID\tannotID\ttranscript_enrichments\tannot_enrichments\n"

  /** `"%s\t%s\t%s\t%s\n" % (txID, annotID, count, count)`. */
  function RankLine(row: RankRow): string {
    row.transcript + "\t" + row.annotation + "\t" + NatToString(row.transcriptEnrichments) + "\t" + NatToString(row.annotEnrichments) + "\n"
  }

  /** A rank line reads back as its four fields, when transcript and annotation have no tab. */
  lemma RankLineFields(row: RankRow)
    requires '\t' !in row.transcript && '\t' !in row.annotation
    ensures var line := RankLine(row);
      line[|line| - 1] == '\n'
      && Split(line[..|line| - 1], '\t')
         == [row.transcript, row.annotation, NatToString(row.transcriptEnrichments), NatToString(row.annotEnrichments)]
  {
    var c1, c2 := NatToString(row.transcriptEnrichments), NatToString(row.annotEnrichments);
    var fields := [row.transcript, row.annotation, c1, c2];
    DigitsHaveNoTab(c1);
    DigitsHaveNoTab(c2);
    JoinFour(row.transcript, row.annotation, c1, c2, "\t");
    assert RankLine(row) == Join(fields, "\t") + "\n";
    JoinedLineFields(fields, '\t');
  }

  lemma DigitsHaveNoTab(s: string)
    requires AllDigits(s)
    ensures '\t' !in s
  {
    forall k | 0 <= k < |s| ensures s[k] != '\t' {
      assert IsDigit(s[k]);
    }
  }

  /** What rank_by_specificity produces: the enrichments in the order they are written, the rows
      written for them, the whole rank file, and the two dictionaries it returns. */
  datatype Ranking = Ranking(
    ranked: seq<Pair>,
    rows: seq<RankRow>,
    text: string,
    annotDict: map<string, seq<string>>,
    lncDict: map<string, seq<string>>)

  function RankLines(rows: seq<RankRow>): (lines: seq<string>)
    ensures |lines| == |rows| && forall i | 0 <= i < |rows| :: lines[i] == RankLine(rows[i])
  {
    seq(|rows|, i requires 0 <= i < |rows| => RankLine(rows[i]))
  }

  /** rank_by_specificity over the pair map `pairs` with warning value `w`: the rank file lists every
      enrichment exactly once, with its transcript's and its annotation's number of enrichments, by
      non-decreasing sum of the two; the dictionaries hold those enrichments per transcript and per
      annotation. Iteration over the map is in no particular order, so the order within a rank is not
      determined; a key that is not "transcript|annotation" raises. */
  method RankBySpecificity(pairs: map<string, string>, w: string) returns (r: Result<Ranking, SpecificityError>)
    ensures r.Err? <==> exists k :: k in pairs && SplitKey(k).None?
    ensures r.Err? ==> r.error.NotAPair? && r.error.key in pairs && SplitKey(r.error.key).None?
    ensures r.Ok? ==>
      var e, g := Enriched(pairs, w), r.value;
      && NoDuplicates(g.ranked)
      && (forall p :: p in g.ranked <==> p in e)
      && (forall i, j | 0 <= i < j < |g.ranked| :: Rank(e, g.ranked[i]) <= Rank(e, g.ranked[j]))
      && |g.rows| == |g.ranked|
      && (forall i | 0 <= i < |g.ranked| :: g.rows[i] == RowOf(e, g.ranked[i]))
      && g.text == RankHeader + Concat(RankLines(g.rows))
      && Tallied(g.lncDict, e, false)
      && Tallied(g.annotDict, e, true)
  {
    var tally := TallyEnrichments(pairs, w);
    if tally.Err? {
      return Err(tally.error);
    }
    var (lncDict, annotDict) := tally.value;
    var e := Enriched(pairs, w);
    var rankDict := BucketByRank(e, lncDict, annotDict);
    var ranked := OrderByRank(e, rankDict);
    forall j | 0 <= j < |ranked|
      ensures Counted(lncDict, annotDict, e, ranked[j])
    {
      assert ranked[j] in ranked;
      TalliedCounts(lncDict, annotDict, e, ranked[j]);
    }
    var rows, text := WriteRanking(e, lncDict, annotDict, ranked);
    return Ok(Ranking(ranked, rows, text, annotDict, lncDict));
  }

  /** The third pass of rank_by_specificity: the lists of `rankDict` joined in increasing rank order. */
  method OrderByRank(e: set<Pair>, rankDict: map<int, seq<Pair>>) returns (ranked: seq<Pair>)
    requires Bucketed(rankDict, e, e)
    ensures Emitted(ranked, {}, e)
  {
    var remaining := rankDict.Keys;
    ranked := [];
    while remaining != {}
      invariant remaining <= rankDict.Keys
      invariant Emitted(ranked, remaining, e)
      decreases |remaining|
    {
      var m := Histograms.MinKey(remaining);
      EmitStep(ranked, remaining, e, rankDict, m);
      ranked := ranked + rankDict[m];
      remaining := remaining - {m};
    }
  }

  /** The writing pass of rank_by_specificity: the header, then a row per listed enrichment with the
      lengths of its two dictionary entries. */
  method WriteRanking(e: set<Pair>, lncDict: map<string, seq<string>>, annotDict: map<string, seq<string>>, ranked: seq<Pair>)
    returns (rows: seq<RankRow>, text: string)
    requires forall j | 0 <= j < |ranked| :: Counted(lncDict, annotDict, e, ranked[j])
    ensures |rows| == |ranked|
    ensures forall j | 0 <= j < |ranked| :: rows[j] == RowOf(e, ranked[j])
    ensures text == RankHeader + Concat(RankLines(rows))
  {
    rows := [];
    text := RankHeader;
    for i := 0 to |ranked|
      invariant |rows| == i
      invariant forall j | 0 <= j < i :: rows[j] == RowOf(e, ranked[j])
      invariant text == RankHeader + Concat(RankLines(rows))
    {
      var p := ranked[i];
      assert Counted(lncDict, annotDict, e, p);
      var row := RankRow(p.0, p.1, |lncDict[p.0]|, |annotDict[p.1]|);
      assert RankLines(rows + [row])[..i] == RankLines(rows);
      rows := rows + [row];
      text := text + RankLine(row);
    }
  }

  /** The two limits of the specificity filter; -1 switches one off. */
  datatype Limits = Limits(annotMax: int, transcriptMax: int)

  /** A line's enrichment passes both limits that are on: its annotation has at most `annotMax`
      enrichments and its transcript at most `transcriptMax`; a count that is missing passes no limit. */
  predicate WithinLimits(transcript: string, annotation: string, annotDict: map<string, seq<string>>, lncDict: map<string, seq<string>>, lim: Limits) {
    (lim.annotMax == -1 || (annotation in annotDict && |annotDict[annotation]| <= lim.annotMax))
    && (lim.transcriptMax == -1 || (transcript in lncDict && |lncDict[transcript]| <= lim.transcriptMax))
  }

  /** The four-way test filter_by_specificity applies to one retained line, evaluated as Python does:
      `and` stops at the first false operand and a dictionary lookup of a missing key raises. */
  function Verdict(line: string, annotDict: map<string, seq<string>>, lncDict: map<string, seq<string>>, lim: Limits): (r: Result<bool, SpecificityError>)
    ensures r == Err(MissingField(line)) <==> |Split(line, '\t')| < 2
    ensures |Split(line, '\t')| >= 2 && Split(line, '\t')[0] in lncDict && Split(line, '\t')[1] in annotDict ==> r.Ok?
    ensures lim.annotMax == -1 && lim.transcriptMax == -1 && |Split(line, '\t')| >= 2 ==> r == Ok(true)
    ensures r.Ok? ==> (r.value <==> WithinLimits(Split(line, '\t')[0], Split(line, '\t')[1], annotDict, lncDict, lim))
  {
    var spl := Split(line, '\t');
    if |spl| < 2 then Err(MissingField(line))
    else
      var annotation, transcript := spl[1], spl[0];
      var a, t := lim.annotMax, lim.transcriptMax;
      if a == -1 && t == -1 then Ok(true)
      else if a == -1 && transcript !in lncDict then Err(UnknownTranscript(transcript))
      else if a == -1 && |lncDict[transcript]| <= t then Ok(true)
      else if annotation !in annotDict then Err(UnknownAnnotation(annotation))
      else if |annotDict[annotation]| <= a && t == -1 then Ok(true)
      else if |annotDict[annotation]| <= a && transcript !in lncDict then Err(UnknownTranscript(transcript))
      else if |annotDict[annotation]| <= a && |lncDict[transcript]| <= t then Ok(true)
      else Ok(false)
  }

  /** The lines of `body` the filter keeps, in order; the first line whose test raises stops it. */
  function Screen(body: seq<string>, annotDict: map<string, seq<string>>, lncDict: map<string, seq<string>>, lim: Limits): Result<seq<string>, SpecificityError>
    decreases |body|
  {
    if body == [] then Ok([])
    else
      match Screen(body[..|body| - 1], annotDict, lncDict, lim)
      case Err(e) => Err(e)
      case Ok(kept) =>
        match Verdict(body[|body| - 1], annotDict, lncDict, lim)
        case Err(e) => Err(e)
        case Ok(pass) => Ok(if pass then kept + [body[|body| - 1]] else kept)
  }

  /** The filter succeeds exactly when no line's test raises, and then keeps exactly the lines whose
      test passes, never more lines than it was given. */
  lemma {:induction false} ScreenMeaning(body: seq<string>, annotDict: map<string, seq<string>>, lncDict: map<string, seq<string>>, lim: Limits)
    ensures Screen(body, annotDict, lncDict, lim).Ok? <==> forall i | 0 <= i < |body| :: Verdict(body[i], annotDict, lncDict, lim).Ok?
    ensures Screen(body, annotDict, lncDict, lim).Ok? ==>
      var kept := Screen(body, annotDict, lncDict, lim).value;
      |kept| <= |body| && forall x :: x in kept <==> x in body && Verdict(x, annotDict, lncDict, lim) == Ok(true)
    decreases |body|
  {
    if body != [] {
      var init, last := body[..|body| - 1], body[|body| - 1];
      ScreenMeaning(init, annotDict, lncDict, lim);
      assert forall i | 0 <= i < |init| :: init[i] == body[i];
      assert forall x :: x in body <==> x in init || x == last;
    }
  }

  /** The test of a line reads of each dictionary only which keys it has and how long their lists
      are, so any two tallies of the same enrichments give the same verdicts. */
  lemma {:induction false} ScreenTallied(body: seq<string>, e: set<Pair>, lim: Limits,
                                         annotDict: map<string, seq<string>>, lncDict: map<string, seq<string>>,
                                         annotDict': map<string, seq<string>>, lncDict': map<string, seq<string>>)
    requires Tallied(annotDict, e, true) && Tallied(annotDict', e, true)
    requires Tallied(lncDict, e, false) && Tallied(lncDict', e, false)
    ensures Screen(body, annotDict, lncDict, lim) == Screen(body, annotDict', lncDict', lim)
    decreases |body|
  {
    if body != [] {
      ScreenTallied(body[..|body| - 1], e, lim, annotDict, lncDict, annotDict', lncDict');
      VerdictTallied(body[|body| - 1], e, lim, annotDict, lncDict, annotDict', lncDict');
    }
  }

  /** The verdict on one line is the same for any two tallies of the same enrichments. */
  lemma VerdictTallied(line: string, e: set<Pair>, lim: Limits,
                       annotDict: map<string, seq<string>>, lncDict: map<string, seq<string>>,
                       annotDict': map<string, seq<string>>, lncDict': map<string, seq<string>>)
    requires Tallied(annotDict, e, true) && Tallied(annotDict', e, true)
    requires Tallied(lncDict, e, false) && Tallied(lncDict', e, false)
    ensures Verdict(line, annotDict, lncDict, lim) == Verdict(line, annotDict', lncDict', lim)
  {
    var spl := Split(line, '\t');
    if |spl| >= 2 {
      var transcript, annotation := spl[0], spl[1];
      assert transcript in lncDict <==> transcript in lncDict';
      assert annotation in annotDict <==> annotation in annotDict';
      assert transcript in lncDict ==> |lncDict[transcript]| == |lncDict'[transcript]|;
      assert annotation in annotDict ==> |annotDict[annotation]| == |annotDict'[annotation]|;
    }
  }

  /** The filter raises on `body` whatever tallies of the enrichments `e` it is given. */
  ghost predicate ScreenRaises(body: seq<string>, e: set<Pair>, lim: Limits) {
    forall annotDict: map<string, seq<string>>, lncDict: map<string, seq<string>>
      | Tallied(annotDict, e, true) && Tallied(lncDict, e, false) :: Screen(body, annotDict, lncDict, lim).Err?
  }

  /** For tallies of `e`, the filter raises exactly when it raises for all tallies of `e`. */
  lemma ScreenRaisesIff(body: seq<string>, e: set<Pair>, lim: Limits, annotDict: map<string, seq<string>>, lncDict: map<string, seq<string>>)
    requires Tallied(annotDict, e, true) && Tallied(lncDict, e, false)
    ensures Screen(body, annotDict, lncDict, lim).Err? <==> ScreenRaises(body, e, lim)
  {
    forall annotDict': map<string, seq<string>>, lncDict': map<string, seq<string>>
      | Tallied(annotDict', e, true) && Tallied(lncDict', e, false)
      ensures Screen(body, annotDict', lncDict', lim) == Screen(body, annotDict, lncDict, lim)
    {
      ScreenTallied(body, e, lim, annotDict', lncDict', annotDict, lncDict);
    }
  }

  /** With both limits off every line with two fields is kept, and nothing is looked up. */
  lemma {:induction false} LimitsOffKeepAll(body: seq<string>, annotDict: map<string, seq<string>>, lncDict: map<string, seq<string>>)
    requires forall i | 0 <= i < |body| :: |Split(body[i], '\t')| >= 2
    ensures Screen(body, annotDict, lncDict, Limits(-1, -1)) == Ok(body)
    decreases |body|
  {
    if body != [] {
      var init, last := body[..|body| - 1], body[|body| - 1];
      LimitsOffKeepAll(init, annotDict, lncDict);
      assert Verdict(last, annotDict, lncDict, Limits(-1, -1)) == Ok(true);
      assert init + [last] == body;
    }
  }

  /** Limit `b` is at least as loose as limit `a`: off (-1), or both on with `a <= b`. */
  predicate LooserLimit(a: int, b: int) {
    b == -1 || (a != -1 && a <= b)
  }

  /** Loosening a limit keeps every line kept before: the filter is monotone in each limit,
      including switching one off while the other stays off or on. */
  lemma {:induction false} LooserKeepsMore(body: seq<string>, annotDict: map<string, seq<string>>, lncDict: map<string, seq<string>>, lim: Limits, looser: Limits)
    requires LooserLimit(lim.annotMax, looser.annotMax) && LooserLimit(lim.transcriptMax, looser.transcriptMax)
    requires Screen(body, annotDict, lncDict, lim).Ok? && Screen(body, annotDict, lncDict, looser).Ok?
    ensures forall x | x in Screen(body, annotDict, lncDict, lim).value :: x in Screen(body, annotDict, lncDict, looser).value
  {
    ScreenMeaning(body, annotDict, lncDict, lim);
    ScreenMeaning(body, annotDict, lncDict, looser);
    forall x | x in Screen(body, annotDict, lncDict, lim).value
      ensures x in Screen(body, annotDict, lncDict, looser).value
    {
      assert Verdict(x, annotDict, lncDict, lim) == Ok(true);
      assert Verdict(x, annotDict, lncDict, looser).Ok?;
    }
  }

  /** filter_by_specificity over the retained result lines (header first): the header is written as
      it is, then every other line the test keeps, each with a newline; the result is that text and
      the number of lines not passing, or the error the first failing test raises. */
  method FilterBySpecificity(results: seq<string>, annotDict: map<string, seq<string>>, lncDict: map<string, seq<string>>, lim: Limits)
    returns (r: Result<(string, nat), SpecificityError>)
    ensures results == [] ==> r == Ok(("", 0))
    ensures results != [] ==>
      match Screen(results[1..], annotDict, lncDict, lim)
      case Err(e) => r == Err(e)
      case Ok(kept) => r == Ok((results[0] + Concat(Terminated(kept)), |results| - 1 - |kept|))
  {
    if results == [] {
      return Ok(("", 0));
    }
    var text := results[0];
    var kept: seq<string> := [];
    var notPassing := 0;
    for i := 1 to |results|
      invariant Screen(results[1..i], annotDict, lncDict, lim) == Ok(kept)
      invariant text == results[0] + Concat(Terminated(kept))
      invariant notPassing == i - 1 - |kept|
    {
      var stop;
      stop, kept, text, notPassing := FilterLine(results, i, annotDict, lncDict, lim, kept, text, notPassing);
      if stop.Some? {
        return Err(stop.value);
      }
    }
    assert results[1..|results|] == results[1..];
    r := Ok((text, notPassing));
  }

  /** One line of filter_by_specificity after the header: written and kept, counted as not passing,
      or the error its test raises, which ends the filtering. */
  method FilterLine(results: seq<string>, i: nat, annotDict: map<string, seq<string>>, lncDict: map<string, seq<string>>, lim: Limits,
                    kept: seq<string>, text: string, notPassing: nat)
    returns (stop: Option<SpecificityError>, kept': seq<string>, text': string, notPassing': nat)
    requires 1 <= i < |results|
    requires Screen(results[1..i], annotDict, lncDict, lim) == Ok(kept)
    requires text == results[0] + Concat(Terminated(kept))
    requires notPassing == i - 1 - |kept|
    ensures stop.Some? ==> Screen(results[1..], annotDict, lncDict, lim) == Err(stop.value)
    ensures stop.None? ==>
      && Screen(results[1..i + 1], annotDict, lncDict, lim) == Ok(kept')
      && text' == results[0] + Concat(Terminated(kept'))
      && notPassing' == i - |kept'|
  {
    ghost var before := results[1..i];
    assert results[1..i + 1] == before + [results[i]];
    kept', text', notPassing' := kept, text, notPassing;
    var v := Verdict(results[i], annotDict, lncDict, lim);
    if v.Err? {
      ScreenFails(before, results[i], kept, annotDict, lncDict, lim);
      ScreenStops(results, i, annotDict, lncDict, lim);
      return Some(v.error), kept', text', notPassing';
    }
    ScreenPasses(before, results[i], kept, annotDict, lncDict, lim);
    stop := None;
    kept', text', notPassing' := Tick(results[0], results[i], v.value, kept, text, notPassing);
  }

  /** The line after a test that did not raise: written and kept when it passes, counted otherwise. */
  method Tick(header: string, line: string, pass: bool, kept: seq<string>, text: string, notPassing: nat)
    returns (kept': seq<string>, text': string, notPassing': nat)
    requires text == header + Concat(Terminated(kept))
    ensures kept' == if pass then kept + [line] else kept
    ensures text' == header + Concat(Terminated(kept'))
    ensures notPassing' + |kept'| == notPassing + |kept| + 1
  {
    kept', text', notPassing' := kept, text, notPassing;
    if pass {
      TerminatedSnoc(kept, line);
      kept' := kept + [line];
      text' := text + (line + "\n");
    } else {
      notPassing' := notPassing + 1;
    }
  }

  /** The filter over one more line whose test raises raises that error. */
  lemma ScreenFails(body: seq<string>, x: string, kept: seq<string>, annotDict: map<string, seq<string>>, lncDict: map<string, seq<string>>, lim: Limits)
    requires Screen(body, annotDict, lncDict, lim) == Ok(kept)
    requires Verdict(x, annotDict, lncDict, lim).Err?
    ensures Screen(body + [x], annotDict, lncDict, lim) == Err(Verdict(x, annotDict, lncDict, lim).error)
  {
    assert (body + [x])[..|body|] == body;
  }

  /** The filter over one more line whose test passes or fails keeps that line or not. */
  lemma ScreenPasses(body: seq<string>, x: string, kept: seq<string>, annotDict: map<string, seq<string>>, lncDict: map<string, seq<string>>, lim: Limits)
    requires Screen(body, annotDict, lncDict, lim) == Ok(kept)
    requires Verdict(x, annotDict, lncDict, lim).Ok?
    ensures Screen(body + [x], annotDict, lncDict, lim) ==
      Ok(if Verdict(x, annotDict, lncDict, lim).value then kept + [x] else kept)
  {
    assert (body + [x])[..|body|] == body;
  }

  /** Once a prefix of the lines fails, the whole body fails with the same error. */
  lemma {:induction false} ScreenStops(results: seq<string>, i: nat, annotDict: map<string, seq<string>>, lncDict: map<string, seq<string>>, lim: Limits)
    requires 1 <= i < |results|
    requires Screen(results[1..i + 1], annotDict, lncDict, lim).Err?
    ensures Screen(results[1..], annotDict, lncDict, lim) == Screen(results[1..i + 1], annotDict, lncDict, lim)
    decreases |results| - i
  {
    if i + 1 < |results| {
      assert results[1..i + 2][..i] == results[1..i + 1];
      ScreenStops(results, i + 1, annotDict, lncDict, lim);
    } else {
      assert results[1..i + 1] == results[1..];
    }
  }
}
