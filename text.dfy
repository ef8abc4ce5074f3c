/**
  The subset of Python's string handling the scripts rely on: `str.split(sep)`, `sep.join(parts)`,
  `str.strip()`, `str.replace(c, "")` and text built by appending lines to a buffer.
  Strings are sequences of characters.
 */
module Text {

  /** The characters Python 2's `str.strip()` removes: space, tab, newline, vertical tab, form feed, carriage return. */
  predicate IsSpace(c: char) {
    c == ' ' || '\t' <= c <= '\r'
  }

  predicate AllSpace(s: string) {
    forall k | 0 <= k < |s| :: IsSpace(s[k])
  }

  /** `s.split(sep)` for a one-character separator: always one more part than separators, none containing `sep`. */
  function Split(s: string, sep: char): (parts: seq<string>)
    ensures |parts| >= 1
    ensures forall i | 0 <= i < |parts| :: sep !in parts[i]
    decreases |s|
  {
    if s == [] then [""]
    else
      var rest := Split(s[1..], sep);
      if s[0] == sep then [""] + rest else [[s[0]] + rest[0]] + rest[1..]
  }

  /** `sep.join(parts)`. */
  function Join(parts: seq<string>, sep: string): string
    decreases |parts|
  {
    if |parts| == 0 then ""
    else if |parts| == 1 then parts[0]
    else parts[0] + sep + Join(parts[1..], sep)
  }

  /** Joining the parts of a split with the same separator gives back the string. */
  lemma {:induction false} JoinSplit(s: string, sep: char)
    ensures Join(Split(s, sep), [sep]) == s
    decreases |s|
  {
    if s != [] {
      var rest := Split(s[1..], sep);
      JoinSplit(s[1..], sep);
      if s[0] == sep {
        assert Split(s, sep) == [""] + rest;
        assert ([""] + rest)[1..] == rest;
      } else {
        var parts := [[s[0]] + rest[0]] + rest[1..];
        assert Split(s, sep) == parts;
        if |rest| == 1 {
          assert Join(rest, [sep]) == rest[0];
        } else {
          assert parts[1..] == rest[1..];
          assert Join(rest, [sep]) == rest[0] + [sep] + Join(rest[1..], [sep]);
        }
      }
    }
  }

  /** A prefix without the separator becomes the front of the first part. */
  lemma {:induction false} SplitPrefix(a: string, t: string, sep: char)
    requires sep !in a
    ensures Split(a + t, sep) == [a + Split(t, sep)[0]] + Split(t, sep)[1..]
    decreases |a|
  {
    if a != [] {
      assert (a + t)[1..] == a[1..] + t;
      assert (a + t)[0] == a[0];
      SplitPrefix(a[1..], t, sep);
      var rest := Split(a[1..] + t, sep);
      assert rest[0] == a[1..] + Split(t, sep)[0];
      assert rest[1..] == Split(t, sep)[1..];
      assert Split(a + t, sep) == [[a[0]] + rest[0]] + rest[1..];
      assert [a[0]] + (a[1..] + Split(t, sep)[0]) == a + Split(t, sep)[0];
    } else {
      var parts := Split(t, sep);
      assert a + t == t && a + parts[0] == parts[0];
      assert [parts[0]] + parts[1..] == parts;
    }
  }

  /** A string without the separator splits into itself alone. */
  lemma SplitNoSeparator(a: string, sep: char)
    requires sep !in a
    ensures Split(a, sep) == [a]
  {
    SplitPrefix(a, "", sep);
    assert a + "" == a;
  }

  /** Splitting at the first separator: the text before it, then the parts of the text after it. */
  lemma SplitAtSeparator(a: string, b: string, sep: char)
    requires sep !in a
    ensures Split(a + [sep] + b, sep) == [a] + Split(b, sep)
  {
    SplitPrefix(a, [sep] + b, sep);
    assert a + [sep] + b == a + ([sep] + b);
    assert ([sep] + b)[1..] == b;
    var parts := Split([sep] + b, sep);
    assert parts == [""] + Split(b, sep);
    assert parts[0] == "" && parts[1..] == Split(b, sep);
    assert a + "" == a;
  }

  /** Splitting a join recovers the parts, when no part contains the separator. */
  lemma {:induction false} SplitJoin(parts: seq<string>, sep: char)
    requires |parts| >= 1
    requires forall i | 0 <= i < |parts| :: sep !in parts[i]
    ensures Split(Join(parts, [sep]), sep) == parts
    decreases |parts|
  {
    if |parts| == 1 {
      SplitNoSeparator(parts[0], sep);
    } else {
      SplitJoin(parts[1..], sep);
      SplitAtSeparator(parts[0], Join(parts[1..], [sep]), sep);
      assert [parts[0]] + parts[1..] == parts;
    }
  }

  /** A line written as the join of separator-free fields and a line break reads back as those fields. */
  lemma JoinedLineFields(parts: seq<string>, sep: char)
    requires |parts| >= 1
    requires forall i | 0 <= i < |parts| :: sep !in parts[i]
    ensures var line := Join(parts, [sep]) + "\n"; Split(line[..|line| - 1], sep) == parts
  {
    var line := Join(parts, [sep]) + "\n";
    assert line[..|line| - 1] == Join(parts, [sep]);
    SplitJoin(parts, sep);
  }

  /** The join of four fields, written out. */
  lemma JoinFour(a: string, b: string, c: string, d: string, sep: string)
    ensures Join([a, b, c, d], sep) == a + sep + (b + sep + (c + sep + d))
  {
    assert [c, d][1..] == [d];
    assert Join([c, d], sep) == c + sep + d;
    assert [b, c, d][1..] == [c, d];
    assert Join([b, c, d], sep) == b + sep + (c + sep + d);
    assert [a, b, c, d][1..] == [b, c, d];
  }

  /** A non-empty text without surrounding whitespace, such as an identifier or a field of a written line. */
  predicate Trimmed(s: string) {
    s != [] && !IsSpace(s[0]) && !IsSpace(s[|s| - 1])
  }

  /** A join starts with its first part. */
  lemma JoinStartsWith(parts: seq<string>, sep: string)
    requires |parts| >= 1
    ensures |parts[0]| <= |Join(parts, sep)| && Join(parts, sep)[..|parts[0]|] == parts[0]
  {
  }

  /** A join ends with its last part. */
  lemma {:induction false} JoinEndsWith(parts: seq<string>, sep: string)
    requires |parts| >= 1
    ensures var j, last := Join(parts, sep), parts[|parts| - 1]; |last| <= |j| && j[|j| - |last|..] == last
    decreases |parts|
  {
    if |parts| > 1 {
      JoinEndsWith(parts[1..], sep);
      var j, rest := Join(parts, sep), Join(parts[1..], sep);
      assert j == parts[0] + sep + rest;
      assert j[|j| - |rest|..] == rest;
    }
  }

  /**
    A line written as the tab-joined fields of a record, with whitespace around it, strips and
    splits back into those fields.
   */
  lemma StripSplitJoin(w1: string, parts: seq<string>, sep: char, w2: string)
    requires AllSpace(w1) && AllSpace(w2) && |parts| >= 1
    requires forall i | 0 <= i < |parts| :: sep !in parts[i]
    requires Trimmed(parts[0]) && Trimmed(parts[|parts| - 1])
    ensures Split(Strip(w1 + Join(parts, [sep]) + w2), sep) == parts
  {
    var j := Join(parts, [sep]);
    JoinStartsWith(parts, [sep]);
    JoinEndsWith(parts, [sep]);
    var last := parts[|parts| - 1];
    assert j[0] == j[..|parts[0]|][0];
    assert j[|j| - 1] == j[|j| - |last|..][|last| - 1];
    StripFramed(w1, j, w2);
    SplitJoin(parts, sep);
  }

  /** Drops leading whitespace. */
  function TrimLeft(s: string): (r: string)
    ensures |r| <= |s| && r == s[|s| - |r|..]
    ensures AllSpace(s[..|s| - |r|])
    ensures r == [] || !IsSpace(r[0])
    decreases |s|
  {
    if s != [] && IsSpace(s[0]) then TrimLeft(s[1..]) else s
  }

  /** Drops trailing whitespace. */
  function TrimRight(s: string): (r: string)
    ensures |r| <= |s| && r == s[..|r|]
    ensures AllSpace(s[|r|..])
    ensures r == [] || !IsSpace(r[|r| - 1])
    decreases |s|
  {
    if s != [] && IsSpace(s[|s| - 1]) then
      var r := TrimRight(s[..|s| - 1]);
      assert s[|r|..] == s[..|s| - 1][|r|..] + [s[|s| - 1]];
      r
    else s
  }

  /** `s.strip()`: an infix of `s` that neither starts nor ends with whitespace. */
  function Strip(s: string): (r: string)
    ensures |r| <= |s|
    ensures r == [] || (!IsSpace(r[0]) && !IsSpace(r[|r| - 1]))
  {
    TrimRight(TrimLeft(s))
  }

  lemma {:induction false} TrimLeftOver(w: string, u: string)
    requires AllSpace(w)
    requires u == [] || !IsSpace(u[0])
    ensures TrimLeft(w + u) == u
    decreases |w|
  {
    if w != [] {
      assert (w + u)[1..] == w[1..] + u;
      TrimLeftOver(w[1..], u);
    } else {
      assert w + u == u;
    }
  }

  lemma {:induction false} TrimRightOver(u: string, w: string)
    requires AllSpace(w)
    requires u == [] || !IsSpace(u[|u| - 1])
    ensures TrimRight(u + w) == u
    decreases |w|
  {
    if w != [] {
      assert (u + w)[..|u + w| - 1] == u + w[..|w| - 1];
      TrimRightOver(u, w[..|w| - 1]);
    } else {
      assert u + w == u;
    }
  }

  /**
    `strip()` is determined by its result's shape: whitespace around a text that neither starts nor
    ends with whitespace strips to exactly that text.
   */
  lemma StripFramed(w1: string, t: string, w2: string)
    requires AllSpace(w1) && AllSpace(w2)
    requires t == [] || (!IsSpace(t[0]) && !IsSpace(t[|t| - 1]))
    ensures Strip(w1 + t + w2) == t
  {
    assert w1 + t + w2 == w1 + (t + w2);
    if t == [] {
      assert AllSpace(w1 + w2);
      assert w1 + w2 == (w1 + w2) + "";
      TrimLeftOver(w1 + w2, "");
    } else {
      TrimLeftOver(w1, t + w2);
      TrimRightOver(t, w2);
    }
  }

  /** `strip()` adds no character: a character the text lacks, its stripped form lacks too. */
  lemma StripKeepsOut(s: string, c: char)
    requires c !in s
    ensures c !in Strip(s)
  {
    var l := TrimLeft(s);
    var t := TrimRight(l);
    forall k | 0 <= k < |t|
      ensures t[k] != c
    {
      assert t[k] == l[k] == s[|s| - |l| + k];
    }
  }

  /** A text that neither starts nor ends with whitespace is left alone by `strip()`. */
  lemma StripTrimmed(t: string)
    requires t == [] || (!IsSpace(t[0]) && !IsSpace(t[|t| - 1]))
    ensures Strip(t) == t
  {
    StripFramed("", t, "");
    assert "" + t + "" == t;
  }

  /** `s.replace(c, "")`. */
  function RemoveChar(s: string, c: char): (r: string)
    ensures c !in r
    ensures |r| <= |s|
    decreases |s|
  {
    if s == [] then [] else (if s[0] == c then [] else [s[0]]) + RemoveChar(s[1..], c)
  }

  lemma {:induction false} RemoveCharAppend(a: string, b: string, c: char)
    ensures RemoveChar(a + b, c) == RemoveChar(a, c) + RemoveChar(b, c)
    decreases |a|
  {
    if a != [] {
      assert (a + b)[1..] == a[1..] + b;
      RemoveCharAppend(a[1..], b, c);
    } else {
      assert a + b == b;
    }
  }

  lemma {:induction false} RemoveCharAbsent(s: string, c: char)
    requires c !in s
    ensures RemoveChar(s, c) == s
    decreases |s|
  {
    if s != [] {
      RemoveCharAbsent(s[1..], c);
    }
  }

  /** Removing the quote character from a quoted field gives the field's text. */
  lemma Unquote(t: string)
    requires '"' !in t
    ensures RemoveChar("\"" + t + "\"", '"') == t
  {
    RemoveCharAppend("\"" + t, "\"", '"');
    RemoveCharAppend("\"", t, '"');
    RemoveCharAbsent(t, '"');
  }

  /** No element occurs twice in `s`. */
  predicate NoDuplicates<T(==)>(s: seq<T>) {
    forall i, j | 0 <= i < j < |s| :: s[i] != s[j]
  }

  /** The text of a buffer to which the given pieces were appended in order. */
  function Concat(pieces: seq<string>): string
    decreases |pieces|
  {
    if pieces == [] then "" else Concat(pieces[..|pieces| - 1]) + pieces[|pieces| - 1]
  }

  lemma {:induction false} ConcatAppend(a: seq<string>, b: seq<string>)
    ensures Concat(a + b) == Concat(a) + Concat(b)
    decreases |b|
  {
    if b == [] {
      assert a + b == a;
    } else {
      var b' := b[..|b| - 1];
      assert (a + b)[..|a + b| - 1] == a + b';
      ConcatAppend(a, b');
    }
  }

  /** Lines as a file holds them: each followed by a newline. */
  function Terminated(lines: seq<string>): (r: seq<string>)
    ensures |r| == |lines| && forall i | 0 <= i < |lines| :: r[i] == lines[i] + "\n"
  {
    seq(|lines|, i requires 0 <= i < |lines| => lines[i] + "\n")
  }

  lemma TerminatedSnoc(lines: seq<string>, x: string)
    ensures Concat(Terminated(lines + [x])) == Concat(Terminated(lines)) + (x + "\n")
  {
    assert Terminated(lines + [x])[..|lines|] == Terminated(lines);
  }
}
