/**
  One line of a catRAPID interaction file, `sp|Q96DC8|ECHD3_HUMAN ENST00000579524\t-12.33\t0.10\t0.00`:
  the protein and the RNA are separated by a space, the remaining values by tabs. Both the catRAPID
  reader and the target-type counter read lines this way.
 */
module Interactions {
  import opened Results
  import opened Text
  import opened Numbers

  datatype Interaction = Interaction(protein: string, rna: string, score: Decimal)

  /** The three fields a line is read for, still as text. */
  datatype Fields = Fields(protein: string, rna: string, scoreText: string)

  /**
    `spl = line.split(" ")`, `protID = spl[0].split("|")[1]`, `spl2 = spl[1].split("\t")`,
    `rnaID = spl2[0]` and the text of `spl2[1]`. A missing field raises IndexError: `None`.
   */
  function SplitFields(line: string): (r: Option<Fields>)
    ensures r.Some? ==> '|' !in r.value.protein && ' ' !in r.value.protein
    ensures r.Some? ==> ' ' !in r.value.rna && '\t' !in r.value.rna
  {
    var spl := Split(line, ' ');
    var head := Split(spl[0], '|');
    if |head| < 2 || |spl| < 2 then None
    else
      var spl2 := Split(spl[1], '\t');
      if |spl2| < 2 then None
      else
        SplitPartsFrom(spl[0], '|', ' ');
        SplitPartsFrom(spl[1], '\t', ' ');
        Some(Fields(head[1], spl2[0], spl2[1]))
  }

  /**
    The fields, then `score = float(spl2[1])`: a score that is not a number raises ValueError, and
    like a missing field it aborts the script: `None`.
   */
  function ParseInteraction(line: string): (r: Option<Interaction>)
    ensures r.Some? ==> '|' !in r.value.protein && ' ' !in r.value.protein
    ensures r.Some? ==> ' ' !in r.value.rna && '\t' !in r.value.rna
  {
    match SplitFields(line)
    case None => None
    case Some(f) =>
      match ParseDecimal(f.scoreText)
      case None => None
      case Some(score) => Some(Interaction(f.protein, f.rna, score))
  }

  /** Parts of a split contain no character the whole text lacks. */
  lemma {:induction false} SplitPartsFrom(s: string, sep: char, c: char)
    requires c !in s
    ensures forall i | 0 <= i < |Split(s, sep)| :: c !in Split(s, sep)[i]
    decreases |s|
  {
    if s != [] {
      SplitPartsFrom(s[1..], sep, c);
      var rest := Split(s[1..], sep);
      if s[0] != sep {
        assert c !in [s[0]] + rest[0];
      }
    }
  }

  /**
    The line catRAPID writes for an interaction: `db|protein|tag rna<TAB>num` followed by more
    fields, `num` being the score's text. `tail` is whatever follows it.
   */
  function LineOf(db: string, protein: string, tag: string, rna: string, num: string, tail: string): string {
    (db + "|" + protein + "|" + tag) + " " + (rna + "\t" + num + tail)
  }

  /**
    A well-formed line parses back to its protein, RNA and score, whatever the further fields are:
    the score is what `float` reads from `num` up to the next tab.
   */
  lemma ParseLineOf(db: string, protein: string, tag: string, rna: string, num: string, tail: string, score: Decimal)
    requires '|' !in db && ' ' !in db && '|' !in protein && ' ' !in protein && ' ' !in tag
    requires ' ' !in rna && '\t' !in rna && ' ' !in tail && ' ' !in num && '\t' !in num
    requires ParseDecimal(num + Split(tail, '\t')[0]) == Some(score)
    ensures ParseInteraction(LineOf(db, protein, tag, rna, num, tail)) == Some(Interaction(protein, rna, score))
  {
    FieldsOfLine(db, protein, tag, rna, num, tail);
    ParseOfFields(LineOf(db, protein, tag, rna, num, tail), Fields(protein, rna, num + Split(tail, '\t')[0]), score);
  }

  /** The fields of `db|protein|tag rna<TAB>num...`, for any score text `num`. */
  lemma FieldsOfLine(db: string, protein: string, tag: string, rna: string, num: string, tail: string)
    requires '|' !in db && ' ' !in db && '|' !in protein && ' ' !in protein && ' ' !in tag
    requires ' ' !in rna && '\t' !in rna && ' ' !in tail && ' ' !in num && '\t' !in num
    ensures SplitFields(LineOf(db, protein, tag, rna, num, tail)) == Some(Fields(protein, rna, num + Split(tail, '\t')[0]))
  {
    var first := db + "|" + protein + "|" + tag;
    var second := rna + "\t" + num + tail;
    assert LineOf(db, protein, tag, rna, num, tail) == first + [' '] + second;
    FirstToken(db, protein, tag);
    SecondToken(rna, num, tail);
    FieldsOfTokens(first, second, protein, rna, num + Split(tail, '\t')[0]);
  }

  /** Two space-free tokens whose fields are as expected. */
  lemma FieldsOfTokens(first: string, second: string, protein: string, rna: string, field: string)
    requires ' ' !in first && ' ' !in second
    requires |Split(first, '|')| >= 2 && Split(first, '|')[1] == protein
    requires |Split(second, '\t')| >= 2 && Split(second, '\t')[0] == rna && Split(second, '\t')[1] == field
    ensures SplitFields(first + [' '] + second) == Some(Fields(protein, rna, field))
  {
    SplitAtSeparator(first, second, ' ');
    SplitNoSeparator(second, ' ');
  }

  /** Fields whose score text is a number give the interaction. */
  lemma ParseOfFields(line: string, f: Fields, score: Decimal)
    requires SplitFields(line) == Some(f) && ParseDecimal(f.scoreText) == Some(score)
    ensures ParseInteraction(line) == Some(Interaction(f.protein, f.rna, score))
  {
  }

  /** `spl[0].split("|")[1]` of `db|protein|tag` is the protein. */
  lemma FirstToken(db: string, protein: string, tag: string)
    requires '|' !in db && '|' !in protein
    ensures var head := Split(db + "|" + protein + "|" + tag, '|'); |head| >= 2 && head[1] == protein
  {
    var first := db + "|" + protein + "|" + tag;
    assert first == db + ['|'] + (protein + "|" + tag);
    SplitAtSeparator(db, protein + "|" + tag, '|');
    assert protein + "|" + tag == protein + ['|'] + tag;
    SplitAtSeparator(protein, tag, '|');
  }

  /** `spl[1].split("\t")` of `rna<TAB>score...` has the RNA first and the score text second. */
  lemma SecondToken(rna: string, num: string, tail: string)
    requires '\t' !in rna && '\t' !in num
    ensures var spl2 := Split(rna + "\t" + num + tail, '\t');
      |spl2| >= 2 && spl2[0] == rna && spl2[1] == num + Split(tail, '\t')[0]
  {
    assert rna + "\t" + num + tail == rna + ['\t'] + (num + tail);
    SplitAtSeparator(rna, num + tail, '\t');
    SplitPrefix(num, tail, '\t');
  }

  /** A line with no space has no second token: `spl[1]` raises. */
  lemma NoSpaceRejected(line: string)
    requires ' ' !in line
    ensures ParseInteraction(line) == None
  {
    SplitNoSeparator(line, ' ');
  }

  /** A first token without a `|` has no second field: `split("|")[1]` raises. */
  lemma NoBarRejected(token: string, rest: string)
    requires ' ' !in token && '|' !in token
    ensures ParseInteraction(token + " " + rest) == None
  {
    assert token + " " + rest == token + [' '] + rest;
    SplitAtSeparator(token, rest, ' ');
    SplitNoSeparator(token, '|');
  }
}
