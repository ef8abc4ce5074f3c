/**
  The annotations of the enrichment matrix: reading an annotation file (identifier, tab, annotation
  per line; an identifier may have several annotations) and writing the row or column annotation
  file, one annotation and one colour per matrix row or column, a colour per distinct annotation.
 */
module MatrixAnnotations {
  import opened Results
  import opened Text
  import opened Lines

  /** The annotation of an item with more than one annotation when those are masked. */
  const SeveralAnnotationTag := "Overlapping_annotations"

  /** The palettes of the column (nine colours) and the row (eight colours) annotation files. */
  const ColorsSet3: seq<string> := ["#e41a1c", "#377eb8", "#4daf4a", "#984ea3", "#ff7f00", "#ffff33", "#a65628", "#f781bf", "#999999"]
  const ColorsSet2: seq<string> := ["#66C2A5", "#FC8D62", "#8DA0CB", "#E78AC3", "#A6D854", "#FFD92F", "#E5C494", "#B3B3B3"]

  /** No colour occurs twice in either palette. */
  lemma PalettesDistinct()
    ensures NoDuplicates(ColorsSet2) && NoDuplicates(ColorsSet3)
  {
  }

  // ---------------------------------------------------------------------------------------------
  // Reading an annotation file

  datatype Entry = Entry(id: string, annotation: string)

  /** `spl = line.strip().split("\t")`, `ID = spl[0]`, `annotText = spl[1]`; no second field raises IndexError. */
  function ParseEntry(line: string): (r: Option<Entry>)
    ensures r.Some? ==> '\t' !in r.value.id && '\t' !in r.value.annotation
  {
    var spl := Split(Strip(line), '\t');
    if |spl| < 2 then None else Some(Entry(spl[0], spl[1]))
  }

  /** A line `id<TAB>annotation`, with whitespace around it, reads back as that entry. */
  lemma ParseEntryOfLine(w1: string, id: string, annotation: string, w2: string)
    requires AllSpace(w1) && AllSpace(w2) && Trimmed(id) && Trimmed(annotation)
    requires '\t' !in id && '\t' !in annotation
    ensures ParseEntry(w1 + (id + "\t" + annotation) + w2) == Some(Entry(id, annotation))
  {
    var parts := [id, annotation];
    assert parts[1..] == [annotation];
    assert Join(parts, "\t") == id + "\t" + annotation;
    StripSplitJoin(w1, parts, '\t', w2);
  }

  /** A line without a tab has no annotation field. */
  lemma ParseEntryNoTab(line: string)
    requires '\t' !in line
    ensures ParseEntry(line) == None
  {
    var t := Strip(line);
    StripKeepsOut(line, '\t');
    SplitNoSeparator(t, '\t');
  }

  /** `annotationDict`: every identifier of the file with the set of its annotations. */
  function AnnotationDict(entries: seq<Entry>): map<string, set<string>>
    decreases |entries|
  {
    if entries == [] then map[]
    else
      var d := AnnotationDict(entries[..|entries| - 1]);
      var e := entries[|entries| - 1];
      d[e.id := (if e.id in d then d[e.id] else {}) + {e.annotation}]
  }

  /**
    An identifier is in the dictionary exactly when some line names it, and its annotations are
    exactly those of its lines; in particular no identifier has an empty set.
   */
  lemma {:induction false} AnnotationDictIff(entries: seq<Entry>, id: string, annotation: string)
    ensures id in AnnotationDict(entries) <==> exists i | 0 <= i < |entries| :: entries[i].id == id
    ensures id in AnnotationDict(entries) ==>
      (annotation in AnnotationDict(entries)[id] <==> exists i | 0 <= i < |entries| :: entries[i] == Entry(id, annotation))
    decreases |entries|
  {
    if entries != [] {
      var n := |entries| - 1;
      var init := entries[..n];
      AnnotationDictIff(init, id, annotation);
      assert forall i | 0 <= i < n :: init[i] == entries[i];
      if exists i | 0 <= i < |entries| :: entries[i].id == id {
        var i :| 0 <= i < |entries| && entries[i].id == id;
        if i < n {
          assert init[i].id == id;
        }
      }
      if exists i | 0 <= i < |entries| :: entries[i] == Entry(id, annotation) {
        var i :| 0 <= i < |entries| && entries[i] == Entry(id, annotation);
        if i < n {
          assert init[i] == Entry(id, annotation);
        }
      }
    }
  }

  /** Every identifier read has at least one annotation. */
  lemma {:induction false} AnnotationSetsNonEmpty(entries: seq<Entry>)
    ensures forall id | id in AnnotationDict(entries) :: AnnotationDict(entries)[id] != {}
    decreases |entries|
  {
    if entries != [] {
      AnnotationSetsNonEmpty(entries[..|entries| - 1]);
    }
  }

  /** One more line adds its annotation to its identifier's set, which starts empty. */
  lemma AnnotationDictSnoc(entries: seq<Entry>, e: Entry)
    ensures var d := AnnotationDict(entries);
      AnnotationDict(entries + [e]) == d[e.id := (if e.id in d then d[e.id] else {}) + {e.annotation}]
  {
    assert (entries + [e])[..|entries|] == entries;
  }

  /** The reading loop, for any line parser: the dictionary of all lines, or the index of the first rejected line. */
  method ScanEntries(parse: string -> Option<Entry>, lines: seq<string>) returns (r: Result<map<string, set<string>>, nat>)
    ensures r.Ok? <==> ParseAll(parse, lines).Some?
    ensures r.Ok? ==> r.value == AnnotationDict(ParseAll(parse, lines).value)
    ensures r.Err? ==> r.error < |lines| && parse(lines[r.error]).None? && ParseAll(parse, lines[..r.error]).Some?
  {
    var annotationDict: map<string, set<string>> := map[];
    ghost var entries: seq<Entry> := [];
    var i := 0;
    while i < |lines|
      invariant 0 <= i <= |lines|
      invariant ParseAll(parse, lines[..i]) == Some(entries)
      invariant annotationDict == AnnotationDict(entries)
    {
      var parsed := parse(lines[i]);
      if parsed.None? {
        ParseAllStops(parse, lines, i);
        MalformedPrefix(parse, lines, i + 1);
        return Err(i);
      }
      var e := parsed.value;
      ParseAllSnoc(parse, lines, i, entries, e);
      AnnotationDictSnoc(entries, e);
      var known := if e.id in annotationDict then annotationDict[e.id] else {};
      annotationDict := annotationDict[e.id := known + {e.annotation}];
      entries := entries + [e];
      i := i + 1;
    }
    assert lines[..i] == lines;
    return Ok(annotationDict);
  }

  /** `read_annotation_file`: the dictionary of all lines, or the number of the first line without a tab. */
  method ReadAnnotationFile(lines: seq<string>) returns (r: Result<map<string, set<string>>, LineError>)
    ensures r.Ok? <==> ParseAll(ParseEntry, lines).Some?
    ensures r.Ok? ==> r.value == AnnotationDict(ParseAll(ParseEntry, lines).value)
    ensures r.Err? ==> 1 <= r.error.lineNumber <= |lines| && ParseEntry(lines[r.error.lineNumber - 1]).None?
    ensures r.Err? ==> ParseAll(ParseEntry, lines[..r.error.lineNumber - 1]).Some?
  {
    var scan := ScanEntries(ParseEntry, lines);
    match scan {
      case Ok(d) => return Ok(d);
      case Err(i) => return Err(LineError(i + 1));
    }
  }

  // ---------------------------------------------------------------------------------------------
  // Sequences without repetitions

  /** The elements of a sequence, each at its first appearance. */
  function Distinct(s: seq<string>): (d: seq<string>)
    decreases |s|
  {
    if s == [] then []
    else
      var init := Distinct(s[..|s| - 1]);
      if s[|s| - 1] in init then init else init + [s[|s| - 1]]
  }

  /** The first-appearance list has the same elements and no repetition. */
  lemma {:induction false} DistinctSpec(s: seq<string>)
    ensures forall x :: x in Distinct(s) <==> x in s
    ensures NoDuplicates(Distinct(s))
    decreases |s|
  {
    if s != [] {
      var n := |s| - 1;
      DistinctSpec(s[..n]);
      assert s == s[..n] + [s[n]];
    }
  }

  /** Where `x` first appears in `s`. */
  function IndexOf(s: seq<string>, x: string): (i: nat)
    requires x in s
    ensures i < |s| && s[i] == x
    ensures forall j | 0 <= j < i :: s[j] != x
  {
    if s[0] == x then 0 else 1 + IndexOf(s[1..], x)
  }

  /** Appending to a sequence moves none of its elements. */
  lemma IndexOfSnoc(s: seq<string>, y: string, x: string)
    requires x in s
    ensures IndexOf(s + [y], x) == IndexOf(s, x)
  {
    var i := IndexOf(s, x);
    var k := IndexOf(s + [y], x);
    assert (s + [y])[i] == x;
  }

  /** `set(s)`: the elements of a sequence, as a set. */
  function Elements(s: seq<string>): set<string>
    decreases |s|
  {
    if s == [] then {} else Elements(s[..|s| - 1]) + {s[|s| - 1]}
  }

  lemma {:induction false} ElementsIff(s: seq<string>, x: string)
    ensures x in Elements(s) <==> x in s
    decreases |s|
  {
    if s != [] {
      var n := |s| - 1;
      ElementsIff(s[..n], x);
      assert s == s[..n] + [s[n]];
    }
  }

  // ---------------------------------------------------------------------------------------------
  // The annotation and colour of each item

  /**
    The label of one item: the masking tag for several annotations when masking, else its
    annotations joined by commas in the order `listing` gives for that item (`list()` of a set lists
    it in the iteration order of that set object, which depends on the order its members were added,
    so two items with equal sets may list them differently), or the no-annotation tag for an item
    the dictionary does not have.
    An item whose set is empty has no label (the code raises).
   */
  function Label(item: string, dict: map<string, set<string>>, maskMultiple: int, noAnnotationTag: string,
                 listing: (string, set<string>) -> seq<string>): string
  {
    if item !in dict then noAnnotationTag
    else if |dict[item]| > 1 && maskMultiple == 1 then SeveralAnnotationTag
    else Join(listing(item, dict[item]), ",")
  }

  predicate Labelled(item: string, dict: map<string, set<string>>) {
    item !in dict || |dict[item]| > 0
  }

  /** The first `n` items all have a label. */
  predicate LabelledUpTo(items: seq<string>, dict: map<string, set<string>>, n: nat)
    requires n <= |items|
  {
    n == 0 || (LabelledUpTo(items, dict, n - 1) && Labelled(items[n - 1], dict))
  }

  lemma {:induction false} LabelledUpToIff(items: seq<string>, dict: map<string, set<string>>, n: nat)
    requires n <= |items|
    ensures LabelledUpTo(items, dict, n) <==> forall k | 0 <= k < n :: Labelled(items[k], dict)
  {
    if n > 0 {
      LabelledUpToIff(items, dict, n - 1);
    }
  }

  /** The label of each item of the list, in order. */
  function Labels(items: seq<string>, dict: map<string, set<string>>, maskMultiple: int, noAnnotationTag: string,
                  listing: (string, set<string>) -> seq<string>): (ls: seq<string>)
    ensures |ls| == |items|
    decreases |items|
  {
    if items == [] then []
    else
      var n := |items| - 1;
      Labels(items[..n], dict, maskMultiple, noAnnotationTag, listing) + [Label(items[n], dict, maskMultiple, noAnnotationTag, listing)]
  }

  /** Position by position, the labels are those of the items. */
  lemma {:induction false} LabelsSpec(items: seq<string>, dict: map<string, set<string>>, maskMultiple: int, noAnnotationTag: string,
                                      listing: (string, set<string>) -> seq<string>)
    ensures forall k | 0 <= k < |items| ::
      Labels(items, dict, maskMultiple, noAnnotationTag, listing)[k] == Label(items[k], dict, maskMultiple, noAnnotationTag, listing)
    decreases |items|
  {
    if items != [] {
      LabelsSpec(items[..|items| - 1], dict, maskMultiple, noAnnotationTag, listing);
    }
  }

  /** The label at one position. */
  lemma LabelAt(items: seq<string>, dict: map<string, set<string>>, maskMultiple: int, noAnnotationTag: string,
                listing: (string, set<string>) -> seq<string>, i: nat)
    requires i < |items|
    ensures Labels(items, dict, maskMultiple, noAnnotationTag, listing)[i] == Label(items[i], dict, maskMultiple, noAnnotationTag, listing)
  {
    LabelsSpec(items, dict, maskMultiple, noAnnotationTag, listing);
  }

  /** `l` lists the set `a`: each of its members once and nothing else. */
  predicate ListsSet(l: seq<string>, a: set<string>) {
    |l| == |a| && (forall x | x in l :: x in a) && (forall x | x in a :: x in l)
  }

  /** `listing` behaves as `list()` does on each item's set: whatever the order, which may differ
      from item to item, it lists the set. */
  ghost predicate ListsSets(listing: (string, set<string>) -> seq<string>) {
    forall item: string, a: set<string> :: ListsSet(listing(item, a), a)
  }

  /**
    What the label of an item says. An item without annotation gets the no-annotation tag; one
    with several annotations gets the masking tag when masking; otherwise the label names its
    annotations: the one annotation itself, and in general a comma-separated list of exactly
    its annotations, each once, provided no annotation holds a comma.
   */
  lemma LabelMeaning(item: string, dict: map<string, set<string>>, maskMultiple: int, noAnnotationTag: string,
                     listing: (string, set<string>) -> seq<string>)
    requires ListsSets(listing)
    ensures item !in dict ==> Label(item, dict, maskMultiple, noAnnotationTag, listing) == noAnnotationTag
    ensures item in dict && |dict[item]| > 1 && maskMultiple == 1 ==>
      Label(item, dict, maskMultiple, noAnnotationTag, listing) == SeveralAnnotationTag
    ensures item in dict && |dict[item]| == 1 ==>
      dict[item] == {Label(item, dict, maskMultiple, noAnnotationTag, listing)}
    ensures (item in dict && |dict[item]| > 0 && !(|dict[item]| > 1 && maskMultiple == 1) &&
             (forall x | x in dict[item] :: ',' !in x)) ==>
      ListsSet(Split(Label(item, dict, maskMultiple, noAnnotationTag, listing), ','), dict[item])
  {
    if item in dict && |dict[item]| > 0 && !(|dict[item]| > 1 && maskMultiple == 1) {
      var l := listing(item, dict[item]);
      assert ListsSet(l, dict[item]);
      assert Label(item, dict, maskMultiple, noAnnotationTag, listing) == Join(l, [',']);
      if |dict[item]| == 1 {
        assert l == [l[0]];
        assert dict[item] == {l[0]};
      }
      if forall x | x in dict[item] :: ',' !in x {
        forall i | 0 <= i < |l| ensures ',' !in l[i] {
          assert l[i] in dict[item];
        }
        SplitJoin(l, ',');
      }
    }
  }

  /** Position by position, what the labels of a list of items say. */
  lemma LabelsMeaning(items: seq<string>, dict: map<string, set<string>>, maskMultiple: int, noAnnotationTag: string,
                      listing: (string, set<string>) -> seq<string>)
    requires ListsSets(listing)
    requires forall x, y | x in dict && y in dict[x] :: ',' !in y
    ensures forall k | 0 <= k < |items| ::
      var l := Labels(items, dict, maskMultiple, noAnnotationTag, listing)[k];
      && (items[k] !in dict ==> l == noAnnotationTag)
      && (items[k] in dict && |dict[items[k]]| > 1 && maskMultiple == 1 ==> l == SeveralAnnotationTag)
      && (items[k] in dict && |dict[items[k]]| == 1 ==> dict[items[k]] == {l})
      && (items[k] in dict && |dict[items[k]]| > 0 && !(|dict[items[k]]| > 1 && maskMultiple == 1) ==>
            ListsSet(Split(l, ','), dict[items[k]]))
  {
    LabelsSpec(items, dict, maskMultiple, noAnnotationTag, listing);
    forall k | 0 <= k < |items|
      ensures var l := Labels(items, dict, maskMultiple, noAnnotationTag, listing)[k];
        && (items[k] !in dict ==> l == noAnnotationTag)
        && (items[k] in dict && |dict[items[k]]| > 1 && maskMultiple == 1 ==> l == SeveralAnnotationTag)
        && (items[k] in dict && |dict[items[k]]| == 1 ==> dict[items[k]] == {l})
        && (items[k] in dict && |dict[items[k]]| > 0 && !(|dict[items[k]]| > 1 && maskMultiple == 1) ==>
              ListsSet(Split(l, ','), dict[items[k]]))
    {
      LabelMeaning(items[k], dict, maskMultiple, noAnnotationTag, listing);
    }
  }

  /** An item keeps its place in the file unless the filter is on and it has no annotation. */
  predicate Shown(annotation: string, noAnnotationFilter: bool, noAnnotationTag: string) {
    !(noAnnotationFilter && annotation == noAnnotationTag)
  }

  /** `annotations`: the labels of the items shown, in order. */
  function ShownLabels(ls: seq<string>, noAnnotationFilter: bool, noAnnotationTag: string): seq<string>
    decreases |ls|
  {
    if ls == [] then []
    else
      var init := ShownLabels(ls[..|ls| - 1], noAnnotationFilter, noAnnotationTag);
      var l := ls[|ls| - 1];
      if Shown(l, noAnnotationFilter, noAnnotationTag) then init + [l] else init
  }

  /** `withAnnotation`: the items shown. */
  function ShownItems(items: seq<string>, ls: seq<string>, noAnnotationFilter: bool, noAnnotationTag: string): set<string>
    requires |ls| == |items|
    decreases |items|
  {
    if items == [] then {}
    else
      var n := |items| - 1;
      ShownItems(items[..n], ls[..n], noAnnotationFilter, noAnnotationTag)
        + (if Shown(ls[n], noAnnotationFilter, noAnnotationTag) then {items[n]} else {})
  }

  /** A shown annotation is an annotation that is not the filtered tag. */
  lemma {:induction false} ShownLabelsIff(ls: seq<string>, noAnnotationFilter: bool, noAnnotationTag: string)
    ensures forall x :: x in ShownLabels(ls, noAnnotationFilter, noAnnotationTag) <==>
      x in ls && Shown(x, noAnnotationFilter, noAnnotationTag)
    decreases |ls|
  {
    if ls != [] {
      var n := |ls| - 1;
      ShownLabelsIff(ls[..n], noAnnotationFilter, noAnnotationTag);
      assert ls == ls[..n] + [ls[n]];
    }
  }

  /** An item is in `withAnnotation` exactly when it is listed with an annotation that is shown. */
  lemma {:induction false} ShownItemsIff(items: seq<string>, ls: seq<string>, noAnnotationFilter: bool, noAnnotationTag: string, x: string)
    requires |ls| == |items|
    ensures x in ShownItems(items, ls, noAnnotationFilter, noAnnotationTag) <==>
      exists k | 0 <= k < |items| :: items[k] == x && Shown(ls[k], noAnnotationFilter, noAnnotationTag)
    decreases |items|
  {
    if items != [] {
      var n := |items| - 1;
      ShownItemsIff(items[..n], ls[..n], noAnnotationFilter, noAnnotationTag, x);
      if exists k | 0 <= k < |items| :: items[k] == x && Shown(ls[k], noAnnotationFilter, noAnnotationTag) {
        var k :| 0 <= k < |items| && items[k] == x && Shown(ls[k], noAnnotationFilter, noAnnotationTag);
        if k < n {
          assert items[..n][k] == x && ls[..n][k] == ls[k];
        }
      }
      if x in ShownItems(items[..n], ls[..n], noAnnotationFilter, noAnnotationTag) {
        var k :| 0 <= k < n && items[..n][k] == x && Shown(ls[..n][k], noAnnotationFilter, noAnnotationTag);
        assert items[k] == x && ls[k] == ls[..n][k];
      }
    }
  }

  /**
    The colour of an annotation: the palette entry at the annotation's place among the distinct
    labels, or none (`""`) for an annotation that is not among them or that the palette cannot reach.
   */
  function Colour(categories: seq<string>, palette: seq<string>, annotation: string): (c: string)
    ensures annotation in categories && |categories| <= |palette| ==> c == palette[IndexOf(categories, annotation)]
  {
    if annotation in categories && IndexOf(categories, annotation) < |palette| then palette[IndexOf(categories, annotation)] else ""
  }

  /** With a palette without repetitions, distinct labels get distinct colours. */
  lemma ColourInjective(categories: seq<string>, palette: seq<string>, a: string, b: string)
    requires a in categories && b in categories && |categories| <= |palette| && NoDuplicates(palette)
    requires Colour(categories, palette, a) == Colour(categories, palette, b)
    ensures a == b
  {
    var i, j := IndexOf(categories, a), IndexOf(categories, b);
    assert palette[i] == palette[j];
  }

  /** A label keeps its colour when a new label is added after it. */
  lemma ColourSnoc(categories: seq<string>, palette: seq<string>, y: string, annotation: string)
    requires annotation in categories && |categories| < |palette|
    ensures Colour(categories + [y], palette, annotation) == Colour(categories, palette, annotation)
  {
    IndexOfSnoc(categories, y, annotation);
  }

  /** `lookupColors`: each distinct label with the palette entry handed out to it, in order. */
  function Lookup(categories: seq<string>, palette: seq<string>): map<string, string>
    requires |categories| <= |palette|
    decreases |categories|
  {
    if categories == [] then map[]
    else
      var n := |categories| - 1;
      Lookup(categories[..n], palette)[categories[n] := palette[n]]
  }

  /** The keys of the lookup are the distinct labels, and each is mapped to its colour. */
  lemma {:induction false} LookupSpec(categories: seq<string>, palette: seq<string>, l: string)
    requires |categories| <= |palette| && NoDuplicates(categories)
    ensures l in Lookup(categories, palette) <==> l in categories
    ensures l in categories ==> Lookup(categories, palette)[l] == Colour(categories, palette, l)
    decreases |categories|
  {
    if categories != [] {
      var n := |categories| - 1;
      var init := categories[..n];
      assert categories == init + [categories[n]];
      LookupSpec(init, palette, l);
      if l in init {
        IndexOfSnoc(init, categories[n], l);
      } else if l == categories[n] {
        assert IndexOf(categories, l) == n;
      }
    }
  }

  /** `listOfColors`: the colour of each label listed. */
  function ColoursOf(labels: seq<string>, categories: seq<string>, palette: seq<string>): (cs: seq<string>)
    ensures |cs| == |labels|
    decreases |labels|
  {
    if labels == [] then []
    else
      var n := |labels| - 1;
      ColoursOf(labels[..n], categories, palette) + [Colour(categories, palette, labels[n])]
  }

  /** Position by position, the colour list holds the colour of the label listed there. */
  lemma {:induction false} ColoursOfSpec(labels: seq<string>, categories: seq<string>, palette: seq<string>)
    ensures forall k | 0 <= k < |labels| :: ColoursOf(labels, categories, palette)[k] == Colour(categories, palette, labels[k])
    decreases |labels|
  {
    if labels != [] {
      var n := |labels| - 1;
      ColoursOfSpec(labels[..n], categories, palette);
    }
  }

  /** Labels already among the distinct labels keep their colours when a new label is added. */
  lemma {:induction false} ColoursOfSnoc(labels: seq<string>, categories: seq<string>, palette: seq<string>, y: string)
    requires forall k | 0 <= k < |labels| :: labels[k] in categories
    requires |categories| < |palette|
    ensures ColoursOf(labels, categories + [y], palette) == ColoursOf(labels, categories, palette)
    decreases |labels|
  {
    if labels != [] {
      var n := |labels| - 1;
      ColoursOfSnoc(labels[..n], categories, palette, y);
      ColourSnoc(categories, palette, y, labels[n]);
    }
  }

  /** The labels shown are among the distinct labels. */
  lemma ShownInDistinct(ls: seq<string>, noAnnotationFilter: bool, noAnnotationTag: string)
    ensures forall k | 0 <= k < |ShownLabels(ls, noAnnotationFilter, noAnnotationTag)| ::
      ShownLabels(ls, noAnnotationFilter, noAnnotationTag)[k] in Distinct(ls)
  {
    ShownLabelsIff(ls, noAnnotationFilter, noAnnotationTag);
    DistinctSpec(ls);
  }

  /** Adding an element to a set adds one to its size unless it is there already. */
  lemma CardSnoc(a: set<string>, x: string)
    ensures |a + {x}| == if x in a then |a| else |a| + 1
  {
    if x in a {
      assert a + {x} == a;
    } else {
      assert (a + {x}) - {x} == a;
    }
  }

  /** Two lists that agree, position by position, on which entries are equal have as many distinct entries. */
  lemma {:induction false} DistinctCountsAgree(labels: seq<string>, colours: seq<string>)
    requires |colours| == |labels|
    requires forall k, m | 0 <= k < |labels| && 0 <= m < |labels| :: labels[k] == labels[m] <==> colours[k] == colours[m]
    ensures |Elements(colours)| == |Elements(labels)|
    decreases |labels|
  {
    if labels != [] {
      var n := |labels| - 1;
      var ls, cs := labels[..n], colours[..n];
      forall k, m | 0 <= k < n && 0 <= m < n
        ensures ls[k] == ls[m] <==> cs[k] == cs[m]
      {
        assert ls[k] == labels[k] && ls[m] == labels[m] && cs[k] == colours[k] && cs[m] == colours[m];
      }
      DistinctCountsAgree(ls, cs);
      ElementsIff(ls, labels[n]);
      ElementsIff(cs, colours[n]);
      CardSnoc(Elements(ls), labels[n]);
      CardSnoc(Elements(cs), colours[n]);
      assert labels[n] in ls <==> colours[n] in cs by {
        if colours[n] in cs {
          var k :| 0 <= k < n && cs[k] == colours[n];
          assert ls[k] == labels[k] == labels[n];
        }
        if labels[n] in ls {
          var k :| 0 <= k < n && ls[k] == labels[n];
          assert cs[k] == colours[k] == colours[n];
        }
      }
    }
  }

  /** Hence, with a palette without repetitions, the two lines have as many distinct colours as labels. */
  lemma DistinctColourCount(labels: seq<string>, categories: seq<string>, palette: seq<string>)
    requires forall k | 0 <= k < |labels| :: labels[k] in categories
    requires |categories| <= |palette| && NoDuplicates(palette)
    ensures |Elements(ColoursOf(labels, categories, palette))| == |Elements(labels)|
  {
    var colours := ColoursOf(labels, categories, palette);
    ColoursOfSpec(labels, categories, palette);
    forall k, m | 0 <= k < |labels| && 0 <= m < |labels|
      ensures labels[k] == labels[m] <==> colours[k] == colours[m]
    {
      if colours[k] == colours[m] {
        ColourInjective(categories, palette, labels[k], labels[m]);
      }
    }
    DistinctCountsAgree(labels, colours);
  }

  // ---------------------------------------------------------------------------------------------
  // Writing the annotation file

  datatype AnnotationError =
    | EmptyAnnotation(item: string)          // an item of the dictionary with no annotation at all
    | TooManyCategories(position: nat)       // the item whose new annotation finds no colour left
    | ColoursDisagree                        // `len(set(listOfColors)) != len(set(annotations))`

  /** The two lines of the annotation file and `withAnnotation`. */
  datatype AnnotationFile = AnnotationFile(labelLine: string, colourLine: string, withAnnotation: set<string>)

  /**
    The state of the labelling loop after the first `i` items, whose labels are `all[..i]`: the
    colours handed out so far, one per distinct label in order of appearance, and the labels,
    colours and items listed so far.
   */
  ghost predicate Labelling(
    items: seq<string>, all: seq<string>, palette: seq<string>, noAnnotationFilter: bool, noAnnotationTag: string, i: nat,
    lookup: map<string, string>, colorCount: nat, labels: seq<string>, colours: seq<string>, withAnnotation: set<string>)
  {
    i <= |items| == |all| && |Distinct(all[..i])| <= |palette| &&
    LabelState(lookup, colorCount, labels, colours, withAnnotation) == Expected(items, all, palette, noAnnotationFilter, noAnnotationTag, i)
  }

  /** The variables of the labelling loop. */
  datatype LabelState = LabelState(
    lookup: map<string, string>, colorCount: nat, labels: seq<string>, colours: seq<string>, withAnnotation: set<string>)

  /**
    What the variables hold after the first `i` items: the colour of each distinct label in order
    of appearance, their number, and the labels, colours and items listed so far.
   */
  ghost function Expected(items: seq<string>, all: seq<string>, palette: seq<string>, noAnnotationFilter: bool, noAnnotationTag: string, i: nat): LabelState
    requires i <= |items| == |all| && |Distinct(all[..i])| <= |palette|
  {
    var categories := Distinct(all[..i]);
    var labels := ShownLabels(all[..i], noAnnotationFilter, noAnnotationTag);
    LabelState(Lookup(categories, palette), |categories|, labels, ColoursOf(labels, categories, palette),
      ShownItems(items[..i], all[..i], noAnnotationFilter, noAnnotationTag))
  }

  /** What labelling one more item does to the distinct labels and the shown labels and items. */
  lemma LabelsSnoc(items: seq<string>, all: seq<string>, noAnnotationFilter: bool, noAnnotationTag: string, i: nat)
    requires i < |items| == |all|
    ensures all[..i + 1] == all[..i] + [all[i]]
    ensures Distinct(all[..i + 1]) == Distinct(all[..i]) + (if all[i] in Distinct(all[..i]) then [] else [all[i]])
    ensures ShownLabels(all[..i + 1], noAnnotationFilter, noAnnotationTag)
      == ShownLabels(all[..i], noAnnotationFilter, noAnnotationTag) + (if Shown(all[i], noAnnotationFilter, noAnnotationTag) then [all[i]] else [])
    ensures ShownItems(items[..i + 1], all[..i + 1], noAnnotationFilter, noAnnotationTag)
      == ShownItems(items[..i], all[..i], noAnnotationFilter, noAnnotationTag) + (if Shown(all[i], noAnnotationFilter, noAnnotationTag) then {items[i]} else {})
  {
    assert all[..i + 1][..i] == all[..i];
    assert items[..i + 1][..i] == items[..i];
  }

  /** A new label takes the next palette entry: the lookup and the colours listed so far follow. */
  lemma NewCategory(ls: seq<string>, palette: seq<string>, noAnnotationFilter: bool, noAnnotationTag: string, name: string)
    requires name !in Distinct(ls) && |Distinct(ls)| < |palette|
    ensures Lookup(Distinct(ls) + [name], palette) == Lookup(Distinct(ls), palette)[name := palette[|Distinct(ls)|]]
    ensures var labels := ShownLabels(ls, noAnnotationFilter, noAnnotationTag);
      ColoursOf(labels, Distinct(ls) + [name], palette) == ColoursOf(labels, Distinct(ls), palette)
  {
    var categories := Distinct(ls);
    assert (categories + [name])[..|categories|] == categories;
    ShownInDistinct(ls, noAnnotationFilter, noAnnotationTag);
    ColoursOfSnoc(ShownLabels(ls, noAnnotationFilter, noAnnotationTag), categories, palette, name);
  }

  /** The colour the lookup holds for a label already seen, or just handed out. */
  lemma LookupColour(categories: seq<string>, palette: seq<string>, name: string)
    requires |categories| <= |palette| && name in categories
    requires NoDuplicates(categories)
    ensures name in Lookup(categories, palette) && Lookup(categories, palette)[name] == Colour(categories, palette, name)
  {
    LookupSpec(categories, palette, name);
  }

  /**
    The colour lookup for the label of item `i`: a label seen before keeps its colour, a new one
    takes the next palette entry if one is left; the colours of the labels listed so far stay.
   */
  method Admit(
    ghost all: seq<string>, palette: seq<string>, ghost noAnnotationFilter: bool, ghost noAnnotationTag: string,
    i: nat, name: string, lookup: map<string, string>, colorCount: nat)
    returns (ok: bool, lookup': map<string, string>, colorCount': nat)
    requires i < |all| && name == all[i] && |Distinct(all[..i])| <= |palette|
    requires lookup == Lookup(Distinct(all[..i]), palette) && colorCount == |Distinct(all[..i])|
    ensures ok <==> |Distinct(all[..i + 1])| <= |palette|
    ensures ok ==> lookup' == Lookup(Distinct(all[..i + 1]), palette) && colorCount' == |Distinct(all[..i + 1])|
    ensures ok ==> name in lookup' && lookup'[name] == Colour(Distinct(all[..i + 1]), palette, name)
    ensures ok ==> var labels := ShownLabels(all[..i], noAnnotationFilter, noAnnotationTag);
      ColoursOf(labels, Distinct(all[..i + 1]), palette) == ColoursOf(labels, Distinct(all[..i]), palette)
  {
    ghost var ls := all[..i];
    ghost var categories := Distinct(ls);
    assert all[..i + 1] == ls + [name];
    DistinctSpec(ls);
    LookupSpec(categories, palette, name);
    lookup', colorCount' := lookup, colorCount;
    if name !in lookup {
      if colorCount >= |palette| {
        return false, lookup', colorCount';
      }
      NewCategory(ls, palette, noAnnotationFilter, noAnnotationTag, name);
      lookup' := lookup[name := palette[colorCount]];
      colorCount' := colorCount + 1;
    }
    DistinctSpec(all[..i + 1]);
    LookupColour(Distinct(all[..i + 1]), palette, name);
    return true, lookup', colorCount';
  }

  /**
    One turn of the loop once the item's label is known: a new label gets the next colour of the
    palette, if one is left, and the label is listed with its colour unless it is the filtered
    no-annotation tag.
   */
  method Place(
    items: seq<string>, ghost all: seq<string>, palette: seq<string>, noAnnotationFilter: bool, noAnnotationTag: string,
    i: nat, name: string,
    lookup: map<string, string>, colorCount: nat, labels: seq<string>, colours: seq<string>, withAnnotation: set<string>)
    returns (ok: bool, lookup': map<string, string>, colorCount': nat, labels': seq<string>, colours': seq<string>, withAnnotation': set<string>)
    requires i < |items| == |all| && name == all[i]
    requires Labelling(items, all, palette, noAnnotationFilter, noAnnotationTag, i, lookup, colorCount, labels, colours, withAnnotation)
    ensures ok <==> |Distinct(all[..i + 1])| <= |palette|
    ensures ok ==> Labelling(items, all, palette, noAnnotationFilter, noAnnotationTag, i + 1, lookup', colorCount', labels', colours', withAnnotation')
  {
    LabelsSnoc(items, all, noAnnotationFilter, noAnnotationTag, i);
    ok, lookup', colorCount' := Admit(all, palette, noAnnotationFilter, noAnnotationTag, i, name, lookup, colorCount);
    labels', colours', withAnnotation' := labels, colours, withAnnotation;
    if !ok {
      return;
    }
    if noAnnotationFilter && name == noAnnotationTag {
    } else {
      labels' := labels + [name];
      colours' := colours + [lookup'[name]];
      withAnnotation' := withAnnotation + {items[i]};
      assert labels'[..|labels|] == labels;
    }
  }

  /** The distinct labels of a prefix are no more than those of the whole. */
  lemma {:induction false} DistinctPrefixShorter(s: seq<string>, i: nat)
    requires i <= |s|
    ensures |Distinct(s[..i])| <= |Distinct(s)|
    decreases |s| - i
  {
    if i < |s| {
      DistinctPrefixShorter(s, i + 1);
      assert s[..i + 1][..i] == s[..i];
    } else {
      assert s[..i] == s;
    }
  }

  /** `len(set(listOfColors)) == len(set(annotations))`. */
  method CountsAgree(
    labels: seq<string>, colours: seq<string>,
    ghost ls: seq<string>, ghost palette: seq<string>, ghost noAnnotationFilter: bool, ghost noAnnotationTag: string)
    returns (agree: bool)
    requires labels == ShownLabels(ls, noAnnotationFilter, noAnnotationTag)
    requires colours == ColoursOf(labels, Distinct(ls), palette) && |Distinct(ls)| <= |palette|
    ensures agree <==> |Elements(colours)| == |Elements(labels)|
    ensures !agree ==> !NoDuplicates(palette)
  {
    agree := |Elements(colours)| == |Elements(labels)|;
    if !agree && NoDuplicates(palette) {
      // In any state of the loop, a palette without repetitions keeps the check true.
      ShownInDistinct(ls, noAnnotationFilter, noAnnotationTag);
      DistinctColourCount(labels, Distinct(ls), palette);
    }
  }

  /** What the written file says: the shown labels and their colours on two tab-joined lines. */
  ghost predicate Describes(f: AnnotationFile, items: seq<string>, all: seq<string>, palette: seq<string>, noAnnotationFilter: bool, noAnnotationTag: string)
    requires |all| == |items|
  {
    var labels := ShownLabels(all, noAnnotationFilter, noAnnotationTag);
    var categories := Distinct(all);
    |categories| <= |palette| &&
    f.labelLine == Join(labels, "\t") + "\n" &&
    f.colourLine == Join(ColoursOf(labels, categories, palette), "\t") + "\n" &&
    f.withAnnotation == ShownItems(items, all, noAnnotationFilter, noAnnotationTag)
  }

  /**
    The colour line of a file so described lists, for each label shown, the palette entry at the
    place where that label first appears among all labels.
   */
  lemma ColourLineMeaning(all: seq<string>, palette: seq<string>, noAnnotationFilter: bool, noAnnotationTag: string)
    requires |Distinct(all)| <= |palette|
    ensures var labels := ShownLabels(all, noAnnotationFilter, noAnnotationTag);
      var colours := ColoursOf(labels, Distinct(all), palette);
      |colours| == |labels| &&
      forall k | 0 <= k < |labels| :: labels[k] in Distinct(all) && labels[k] in all && colours[k] == palette[IndexOf(Distinct(all), labels[k])]
  {
    var labels := ShownLabels(all, noAnnotationFilter, noAnnotationTag);
    ShownInDistinct(all, noAnnotationFilter, noAnnotationTag);
    ColoursOfSpec(labels, Distinct(all), palette);
    DistinctSpec(all);
  }

  /**
    Why the labelling stops: an item of the list whose annotation set is empty, the first position
    at which the labels need more colours than the palette has, or a palette with a repeated colour.
   */
  ghost predicate Explains(e: AnnotationError, items: seq<string>, dict: map<string, set<string>>, all: seq<string>, palette: seq<string>)
    requires |all| == |items|
  {
    match e
    case EmptyAnnotation(item) => item in items && !Labelled(item, dict)
    case TooManyCategories(position) =>
      position < |items| && |Distinct(all[..position + 1])| > |palette| && |Distinct(all)| > |palette|
    case ColoursDisagree => !NoDuplicates(palette)
  }

  /** The reason one turn of the loop gives for stopping at item `i`. */
  lemma StepExplains(e: AnnotationError, items: seq<string>, dict: map<string, set<string>>, all: seq<string>, palette: seq<string>, i: nat)
    requires i < |items| == |all|
    requires e.EmptyAnnotation? ==> e.item == items[i] && !Labelled(items[i], dict)
    requires e.TooManyCategories? ==> e.position == i && |Distinct(all[..i + 1])| > |palette| && |Distinct(all)| > |palette|
    requires e == ColoursDisagree ==> !NoDuplicates(palette)
    ensures Explains(e, items, dict, all, palette)
  {
    if e.EmptyAnnotation? {
      assert items[i] in items;
    }
  }

  /** None of the reasons to stop arises when every item is labelled, the colours suffice and none repeats. */
  lemma ExplainsExcludes(e: AnnotationError, items: seq<string>, dict: map<string, set<string>>, all: seq<string>, palette: seq<string>)
    requires |all| == |items| && Explains(e, items, dict, all, palette)
    ensures !((forall k | 0 <= k < |items| :: Labelled(items[k], dict)) && |Distinct(all)| <= |palette| && NoDuplicates(palette))
  {
  }

  /**
    One turn of the loop of `_write_matrix_annotation_file` over item `i`, whose label is `all[i]`:
    `None` and the next state, or the error that aborts the loop at this item.
   */
  method LabelStep(
    items: seq<string>, dict: map<string, set<string>>, maskMultiple: int, noAnnotationTag: string,
    palette: seq<string>, noAnnotationFilter: bool, listing: (string, set<string>) -> seq<string>, ghost all: seq<string>, i: nat,
    lookup: map<string, string>, colorCount: nat, labels: seq<string>, colours: seq<string>, withAnnotation: set<string>)
    returns (failure: Option<AnnotationError>,
      lookup': map<string, string>, colorCount': nat, labels': seq<string>, colours': seq<string>, withAnnotation': set<string>)
    requires i < |items| == |all| && all[i] == Label(items[i], dict, maskMultiple, noAnnotationTag, listing)
    requires LabelledUpTo(items, dict, i)
    requires Labelling(items, all, palette, noAnnotationFilter, noAnnotationTag, i, lookup, colorCount, labels, colours, withAnnotation)
    ensures failure.None? ==> Labelled(items[i], dict) && LabelledUpTo(items, dict, i + 1)
    ensures failure.None? ==> Labelling(items, all, palette, noAnnotationFilter, noAnnotationTag, i + 1, lookup', colorCount', labels', colours', withAnnotation')
    ensures failure.Some? && failure.value.EmptyAnnotation? ==> failure.value.item == items[i] && !Labelled(items[i], dict)
    ensures failure.Some? && failure.value.TooManyCategories? ==>
      failure.value.position == i && |Distinct(all[..i + 1])| > |palette| && |Distinct(all)| > |palette|
    ensures failure == Some(ColoursDisagree) ==> !NoDuplicates(palette)
  {
    lookup', colorCount', labels', colours', withAnnotation' := lookup, colorCount, labels, colours, withAnnotation;
    if !Labelled(items[i], dict) {
      assert items[i] in items;
      return Some(EmptyAnnotation(items[i])), lookup', colorCount', labels', colours', withAnnotation';
    }
    var name := Label(items[i], dict, maskMultiple, noAnnotationTag, listing);
    var ok;
    ok, lookup', colorCount', labels', colours', withAnnotation' :=
      Place(items, all, palette, noAnnotationFilter, noAnnotationTag, i, name,
            lookup, colorCount, labels, colours, withAnnotation);
    if !ok {
      DistinctPrefixShorter(all, i + 1);
      return Some(TooManyCategories(i)), lookup', colorCount', labels', colours', withAnnotation';
    }
    // `len(listOfColors) == len(annotations)` holds by construction; the distinct counts are checked.
    var agree := CountsAgree(labels', colours', all[..i + 1], palette, noAnnotationFilter, noAnnotationTag);
    if !agree {
      return Some(ColoursDisagree), lookup', colorCount', labels', colours', withAnnotation';
    }
    return None, lookup', colorCount', labels', colours', withAnnotation';
  }

  /** The state of the loop before the first item. */
  lemma LabellingStart(items: seq<string>, dict: map<string, set<string>>, all: seq<string>, palette: seq<string>, noAnnotationFilter: bool, noAnnotationTag: string)
    requires |items| == |all|
    ensures Labelling(items, all, palette, noAnnotationFilter, noAnnotationTag, 0, map[], 0, [], [], {})
    ensures LabelledUpTo(items, dict, 0)
  {
    assert all[..0] == [] && items[..0] == [];
  }

  /** The final state of the loop describes the file. */
  lemma LabellingDescribes(
    items: seq<string>, all: seq<string>, palette: seq<string>, noAnnotationFilter: bool, noAnnotationTag: string,
    lookup: map<string, string>, colorCount: nat, labels: seq<string>, colours: seq<string>, withAnnotation: set<string>)
    requires Labelling(items, all, palette, noAnnotationFilter, noAnnotationTag, |items|, lookup, colorCount, labels, colours, withAnnotation)
    ensures Describes(AnnotationFile(Join(labels, "\t") + "\n", Join(colours, "\t") + "\n", withAnnotation),
      items, all, palette, noAnnotationFilter, noAnnotationTag)
  {
    assert all[..|items|] == all && items[..|items|] == items;
  }

  /**
    The loop of `_write_matrix_annotation_file` over the items, whose labels are `all`: the state
    after the last item, or the error that stops it.
   */
  method LabelItems(
    items: seq<string>, dict: map<string, set<string>>, maskMultiple: int, noAnnotationTag: string,
    palette: seq<string>, noAnnotationFilter: bool, listing: (string, set<string>) -> seq<string>, ghost all: seq<string>)
    returns (failure: Option<AnnotationError>, lookup: map<string, string>, colorCount: nat,
      labels: seq<string>, colours: seq<string>, withAnnotation: set<string>)
    requires all == Labels(items, dict, maskMultiple, noAnnotationTag, listing)
    ensures failure.None? ==> LabelledUpTo(items, dict, |items|)
    ensures failure.None? ==>
      Labelling(items, all, palette, noAnnotationFilter, noAnnotationTag, |items|, lookup, colorCount, labels, colours, withAnnotation)
    ensures failure.Some? ==> Explains(failure.value, items, dict, all, palette)
  {
    hide *;
    lookup, colorCount, labels, colours, withAnnotation := map[], 0, [], [], {};
    failure := None;
    var i := 0;
    LabellingStart(items, dict, all, palette, noAnnotationFilter, noAnnotationTag);
    while i < |items|
      invariant i <= |items| && LabelledUpTo(items, dict, i) && failure.None?
      invariant Labelling(items, all, palette, noAnnotationFilter, noAnnotationTag, i, lookup, colorCount, labels, colours, withAnnotation)
    {
      LabelAt(items, dict, maskMultiple, noAnnotationTag, listing, i);
      failure, lookup, colorCount, labels, colours, withAnnotation :=
        LabelStep(items, dict, maskMultiple, noAnnotationTag, palette, noAnnotationFilter, listing, all, i,
          lookup, colorCount, labels, colours, withAnnotation);
      if failure.Some? {
        StepExplains(failure.value, items, dict, all, palette, i);
        return;
      }
      i := i + 1;
    }
  }

  /**
    `_write_matrix_annotation_file`: the tab-joined labels and colours of the items shown, and the
    set of those items; or the error that aborts it.
   */
  method WriteMatrixAnnotationFile(
    items: seq<string>, dict: map<string, set<string>>, maskMultiple: int, noAnnotationTag: string,
    palette: seq<string>, noAnnotationFilter: bool, listing: (string, set<string>) -> seq<string>)
    returns (r: Result<AnnotationFile, AnnotationError>)
    requires ListsSets(listing)
    ensures r.Ok? ==> forall k | 0 <= k < |items| :: Labelled(items[k], dict)
    ensures r.Ok? ==> Describes(r.value, items, Labels(items, dict, maskMultiple, noAnnotationTag, listing), palette, noAnnotationFilter, noAnnotationTag)
    ensures (forall k | 0 <= k < |items| :: Labelled(items[k], dict)) &&
      |Distinct(Labels(items, dict, maskMultiple, noAnnotationTag, listing))| <= |palette| && NoDuplicates(palette)
      ==> r.Ok?
    ensures r.Err? && r.error.EmptyAnnotation? ==> r.error.item in items && !Labelled(r.error.item, dict)
    ensures r.Err? && r.error.TooManyCategories? ==>
      r.error.position < |items| && |Distinct(Labels(items, dict, maskMultiple, noAnnotationTag, listing)[..r.error.position + 1])| > |palette|
    ensures r == Err(ColoursDisagree) ==> !NoDuplicates(palette)
  {
    ghost var all := Labels(items, dict, maskMultiple, noAnnotationTag, listing);
    var failure, lookup, colorCount, labels, colours, withAnnotation :=
      LabelItems(items, dict, maskMultiple, noAnnotationTag, palette, noAnnotationFilter, listing, all);
    LabelledUpToIff(items, dict, |items|);
    if failure.Some? {
      ExplainsExcludes(failure.value, items, dict, all, palette);
      return Err(failure.value);
    }
    LabellingDescribes(items, all, palette, noAnnotationFilter, noAnnotationTag, lookup, colorCount, labels, colours, withAnnotation);
    return Ok(AnnotationFile(Join(labels, "\t") + "\n", Join(colours, "\t") + "\n", withAnnotation));
  }
}
