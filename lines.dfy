/**
  Reading a text file line by line with a line parser that may reject a line: the records of all
  lines, or nothing once some line is malformed (the Python scripts raise and stop there).
 */
module Lines {
  import opened Results

  /**
    The records of the lines as `parse` reads them, when every line parses. The properties below hold
    for any line parser.
   */
  function ParseAll<T>(parse: string -> Option<T>, lines: seq<string>): (recs: Option<seq<T>>)
    ensures recs.Some? ==> |recs.value| == |lines|
    decreases |lines|
  {
    if lines == [] then Some([])
    else
      match ParseAll(parse, lines[..|lines| - 1])
      case None => None
      case Some(init) =>
        match parse(lines[|lines| - 1])
        case None => None
        case Some(it) => Some(init + [it])
  }

  /** The records are the lines parsed one by one, and they exist exactly when every line parses. */
  lemma {:induction false} ParseAllIff<T>(parse: string -> Option<T>, lines: seq<string>)
    ensures ParseAll(parse, lines).Some? <==> forall j | 0 <= j < |lines| :: parse(lines[j]).Some?
    ensures ParseAll(parse, lines).Some? ==> forall j | 0 <= j < |lines| :: parse(lines[j]) == Some(ParseAll(parse, lines).value[j])
    decreases |lines|
  {
    if lines != [] {
      var n := |lines| - 1;
      ParseAllIff(parse, lines[..n]);
      assert forall j | 0 <= j < n :: lines[..n][j] == lines[j];
    }
  }

  /** A malformed line makes every longer prefix malformed too. */
  lemma {:induction false} MalformedPrefix<T>(parse: string -> Option<T>, lines: seq<string>, k: nat)
    requires k <= |lines| && ParseAll(parse, lines[..k]).None?
    ensures ParseAll(parse, lines).None?
    decreases |lines|
  {
    if k < |lines| {
      var n := |lines| - 1;
      assert lines[..n][..k] == lines[..k];
      MalformedPrefix(parse, lines[..n], k);
    } else {
      assert lines[..k] == lines;
    }
  }

  /** One more parsed line extends the records by its record. */
  lemma ParseAllSnoc<T>(parse: string -> Option<T>, lines: seq<string>, i: nat, recs: seq<T>, it: T)
    requires i < |lines| && ParseAll(parse, lines[..i]) == Some(recs) && parse(lines[i]) == Some(it)
    ensures ParseAll(parse, lines[..i + 1]) == Some(recs + [it])
  {
    assert lines[..i + 1][..i] == lines[..i];
  }

  /** A line that does not parse leaves the prefix ending in it without records. */
  lemma ParseAllStops<T>(parse: string -> Option<T>, lines: seq<string>, i: nat)
    requires i < |lines| && parse(lines[i]).None?
    ensures ParseAll(parse, lines[..i + 1]).None?
  {
    assert lines[..i + 1][..i] == lines[..i];
  }}
