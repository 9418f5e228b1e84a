/** The batch writer: `count_elements_in_file` and `write_content`. An open
    input file is a `LineStream`, a sequence of lines with a read cursor that
    only moves forward; the text written to one output file is returned as
    a string. */
module BatchWriter {
  import opened Strings
  import opened Normalize
  import opened Document

  // ---------------------------------------------------------------------
  // Which lines are records

  /** A line is a record unless, once stripped of surrounding whitespace,
      it starts with `#`: that is, unless its first non-blank character is
      `#`. */
  predicate IsRecord(line: string)
    ensures IsRecord(line) <==> LeadingSpaces(line) == |line| || line[LeadingSpaces(line)] != '#'
  {
    StripFirst(line);
    !StartsWith(Strip(line), "#")
  }

  /** The stripped line starts at the first non-blank character. */
  lemma StripFirst(line: string)
    ensures var a := LeadingSpaces(line);
            (a == |line| ==> Strip(line) == [])
            && (a < |line| ==> Strip(line) != [] && Strip(line)[0] == line[a])
  {
  }

  /** A line made only of whitespace, the empty line included, is a record:
      its stripped form is empty and so does not start with `#`. */
  lemma BlankLineIsRecord(line: string)
    requires forall i :: 0 <= i < |line| ==> IsSpace(line[i])
    ensures IsRecord(line)
  {
    assert LeadingSpaces(line) == |line|;
  }

  /** A line whose first non-blank character is `#` is a comment. */
  lemma HashLineIsComment(line: string, k: nat)
    requires k < |line| && line[k] == '#'
    requires forall i :: 0 <= i < k ==> IsSpace(line[i])
    ensures !IsRecord(line)
  {
    assert LeadingSpaces(line) == k;
    var r := Strip(line);
    assert r != [] by { assert !IsSpace(line[k]); }
    assert r[0] == '#';
  }

  function CountRecords(lines: seq<string>): nat
    decreases |lines|
  {
    if lines == [] then 0 else (if IsRecord(lines[0]) then 1 else 0) + CountRecords(lines[1..])
  }

  /** `count_elements_in_file`: one pass over the lines with a counter. */
  method CountElements(lines: seq<string>) returns (n: int)
    ensures n == CountRecords(lines)
    ensures 0 <= n <= |lines|
  {
    n := 0;
    for i := 0 to |lines|
      invariant 0 <= n <= i
      invariant n + CountRecords(lines[i..]) == CountRecords(lines)
    {
      assert lines[i..][0] == lines[i];
      assert lines[i..][1..] == lines[i + 1..];
      if IsRecord(lines[i]) {
        n := n + 1;
      }
    }
  }

  // ---------------------------------------------------------------------
  // What each line amounts to

  /** What the writer makes of one line: a comment it reads and drops, a
      record line whose extraction raises IndexError, or a record together
      with the words its extraction adds to the vocabulary. */
  datatype LineKind = Comment | Broken | Good(rec: Record, words: set<string>)

  function Classify(line: string, nMaxSplits: int, stem: string -> string, stopWords: set<string>): LineKind {
    if !IsRecord(line) then Comment
    else
      match Extract(line, nMaxSplits, stem, stopWords)
      case None => Broken
      case Some(r) => Good(r, RecordVocab(line, nMaxSplits, stem, stopWords))
  }

  /** `ks` holds the kind of each line of `lines`, in order. */
  predicate KindsOf(ks: seq<LineKind>, lines: seq<string>, nMaxSplits: int, stem: string -> string, stopWords: set<string>) {
    |ks| == |lines|
    && forall i {:trigger lines[i]} :: 0 <= i < |lines| ==> ks[i] == Classify(lines[i], nMaxSplits, stem, stopWords)
  }

  /** The kinds of all lines of a file, line by line. */
  function Classified(lines: seq<string>, nMaxSplits: int, stem: string -> string, stopWords: set<string>): (ks: seq<LineKind>)
    ensures KindsOf(ks, lines, nMaxSplits, stem, stopWords)
    decreases |lines|
  {
    if lines == [] then []
    else
      var rest := Classified(lines[1..], nMaxSplits, stem, stopWords);
      assert forall i :: 1 <= i < |lines| ==> lines[1..][i - 1] == lines[i];
      [Classify(lines[0], nMaxSplits, stem, stopWords)] + rest
  }

  /** The kinds of a file's lines are determined by its lines. */
  lemma KindsOfUnique(ks: seq<LineKind>, lines: seq<string>, nMaxSplits: int, stem: string -> string, stopWords: set<string>)
    requires KindsOf(ks, lines, nMaxSplits, stem, stopWords)
    ensures ks == Classified(lines, nMaxSplits, stem, stopWords)
  {
    var cs := Classified(lines, nMaxSplits, stem, stopWords);
    forall i | 0 <= i < |ks|
      ensures ks[i] == cs[i]
    {
      assert ks[i] == Classify(lines[i], nMaxSplits, stem, stopWords);
    }
  }

  // The lines from `i` up to `j` (exclusive) of a file with kinds `ks`.

  /** The number of record lines, as `count_elements_in_file` counts them. */
  function CountIn(ks: seq<LineKind>, i: nat, j: nat): nat
    requires i <= j <= |ks|
    decreases j - i
  {
    if i == j then 0 else (if ks[i].Comment? then 0 else 1) + CountIn(ks, i + 1, j)
  }

  /** The records, in the order of their lines. */
  function RecordsIn(ks: seq<LineKind>, i: nat, j: nat): seq<Record>
    requires i <= j <= |ks|
    decreases j - i
  {
    if i == j then [] else (if ks[i].Good? then [ks[i].rec] else []) + RecordsIn(ks, i + 1, j)
  }

  lemma RecordsInGood(ks: seq<LineKind>, i: nat, j: nat)
    requires i < j <= |ks| && ks[i].Good?
    ensures RecordsIn(ks, i, j) == [ks[i].rec] + RecordsIn(ks, i + 1, j)
  {
  }

  lemma RecordsInSkip(ks: seq<LineKind>, i: nat, j: nat)
    requires i < j <= |ks| && !ks[i].Good?
    ensures RecordsIn(ks, i, j) == RecordsIn(ks, i + 1, j)
  {
  }

  /** The words the record lines add to the vocabulary. */
  function VocabIn(ks: seq<LineKind>, i: nat, j: nat): set<string>
    requires i <= j <= |ks|
    decreases j - i
  {
    if i == j then {} else (if ks[i].Good? then ks[i].words else {}) + VocabIn(ks, i + 1, j)
  }

  /** No record line raises IndexError. */
  predicate WellFormedIn(ks: seq<LineKind>, i: nat, j: nat)
    requires i <= j <= |ks|
  {
    forall k :: i <= k < j ==> !ks[k].Broken?
  }

  /** Consecutive ranges hold consecutive runs of records. */
  lemma {:induction false} RecordsInSplit(ks: seq<LineKind>, i: nat, j: nat, k: nat)
    requires i <= j <= k <= |ks|
    ensures RecordsIn(ks, i, k) == RecordsIn(ks, i, j) + RecordsIn(ks, j, k)
    decreases j - i
  {
    if i < j {
      RecordsInSplit(ks, i + 1, j, k);
      ConcatAssoc(if ks[i].Good? then [ks[i].rec] else [], RecordsIn(ks, i + 1, j), RecordsIn(ks, j, k));
    }
  }

  /** On well-formed lines there is exactly one record per record line. */
  lemma {:induction false} RecordsInCount(ks: seq<LineKind>, i: nat, j: nat)
    requires i <= j <= |ks| && WellFormedIn(ks, i, j)
    ensures |RecordsIn(ks, i, j)| == CountIn(ks, i, j)
    decreases j - i
  {
    if i < j {
      RecordsInCount(ks, i + 1, j);
    }
  }

  /** The kinds count the record lines as the line predicate does. */
  lemma {:induction false} KindsCount(ks: seq<LineKind>, lines: seq<string>, k: nat)
    requires |ks| == |lines| && k <= |lines|
    requires forall i :: 0 <= i < |lines| ==> (ks[i].Comment? <==> !IsRecord(lines[i]))
    ensures CountIn(ks, k, |ks|) == CountRecords(lines[k..])
    decreases |lines| - k
  {
    if k < |lines| {
      assert lines[k..][0] == lines[k];
      assert lines[k..][1..] == lines[k + 1..];
      KindsCount(ks, lines, k + 1);
    }
  }

  /** The number of records of a file is what `count_elements_in_file`
      returns for it. */
  lemma ClassifiedCount(lines: seq<string>, nMaxSplits: int, stem: string -> string, stopWords: set<string>)
    ensures var ks := Classified(lines, nMaxSplits, stem, stopWords);
            CountIn(ks, 0, |ks|) == CountRecords(lines)
  {
    var ks := Classified(lines, nMaxSplits, stem, stopWords);
    forall i | 0 <= i < |lines|
      ensures ks[i].Comment? <==> !IsRecord(lines[i])
    {
      assert ks[i] == Classify(lines[i], nMaxSplits, stem, stopWords);
    }
    KindsCount(ks, lines, 0);
    assert lines[0..] == lines;
  }

  /** A file is well formed exactly when every record line has the six
      fields `extract_blast_fields` reads. */
  lemma ClassifiedWellFormed(lines: seq<string>, nMaxSplits: int, stem: string -> string, stopWords: set<string>)
    ensures var ks := Classified(lines, nMaxSplits, stem, stopWords);
            WellFormedIn(ks, 0, |ks|)
            <==> forall i :: 0 <= i < |lines| && IsRecord(lines[i]) ==> |Fields(lines[i], nMaxSplits)| >= 6
  {
    var ks := Classified(lines, nMaxSplits, stem, stopWords);
    forall i | 0 <= i < |lines|
      ensures ks[i].Broken? <==> IsRecord(lines[i]) && |Fields(lines[i], nMaxSplits)| < 6
    {
      assert ks[i] == Classify(lines[i], nMaxSplits, stem, stopWords);
    }
  }

  // ---------------------------------------------------------------------
  // The documents of a batch

  /** The documents of `recs` as the writer appends them: only the first of
      a batch is written without the leading comma. */
  function Docs(year: string, isFirst: bool, recs: seq<Record>): string
    decreases |recs|
  {
    if recs == [] then ""
    else Encode(year, isFirst, recs[0].id, recs[0].authors, recs[0].title) + Docs(year, false, recs[1..])
  }

  /** A run of documents that does not open its batch is the same run with
      one extra comma in front: the comma separates it from what precedes. */
  lemma DocsContinuing(year: string, recs: seq<Record>)
    requires recs != []
    ensures Docs(year, false, recs) == "," + Docs(year, true, recs)
  {
    var r := recs[0];
    var e := Encode(year, true, r.id, r.authors, r.title);
    var d := Docs(year, false, recs[1..]);
    EncodeCommaOnly(year, r.id, r.authors, r.title);
    assert Docs(year, false, recs) == ("," + e) + d;
    assert Docs(year, true, recs) == e + d;
    ConcatAssoc(",", e, d);
  }

  lemma DocsCons(year: string, isFirst: bool, r: Record, recs: seq<Record>)
    ensures Docs(year, isFirst, [r] + recs) == Encode(year, isFirst, r.id, r.authors, r.title) + Docs(year, false, recs)
  {
    assert ([r] + recs)[0] == r;
    assert ([r] + recs)[1..] == recs;
  }

  /** Writing two runs one after the other writes the concatenation, and
      only the very first document can lack the comma. */
  lemma {:induction false} DocsAppend(year: string, isFirst: bool, a: seq<Record>, b: seq<Record>)
    ensures Docs(year, isFirst, a + b) == Docs(year, isFirst, a) + Docs(year, isFirst && a == [], b)
    decreases |a|
  {
    if a == [] {
      assert a + b == b;
    } else {
      var r := a[0];
      var e := Encode(year, isFirst, r.id, r.authors, r.title);
      assert (a + b)[0] == r;
      assert (a + b)[1..] == a[1..] + b;
      var x := Docs(year, false, a[1..]);
      var y := Docs(year, false, b);
      DocsAppend(year, false, a[1..], b);
      assert Docs(year, isFirst, a + b) == e + (x + y);
      assert Docs(year, isFirst, a) == e + x;
      ConcatAssoc(e, x, y);
    }
  }

  // ---------------------------------------------------------------------
  // write_content

  /** The outcome of one call of `write_content`: the number of records
      counted, the text written to the output file, where the input cursor
      stopped, the vocabulary afterwards, and whether no exception was
      raised. A failed call leaves the file without its closing `]`. */
  datatype BatchResult = BatchResult(count: int, text: string, end: nat, vocab: set<string>, ok: bool)

  /** The loop of `write_content`, one input line per step, from cursor
      `pos` with `count` records counted, `text` written and vocabulary
      `vocab` so far. */
  function WriteLoop(ks: seq<LineKind>, pos: nat, count: int, text: string, vocab: set<string>,
                     max: int, year: string): (b: BatchResult)
    requires pos <= |ks|
    ensures pos <= b.end <= |ks|
    decreases |ks| - pos
  {
    if pos == |ks| then BatchResult(count, text + "\n]", pos, vocab, true)
    else
      match ks[pos]
      case Comment => WriteLoop(ks, pos + 1, count, text, vocab, max, year)
      case Broken => BatchResult(count + 1, text, pos + 1, vocab, false)
      case Good(r, words) =>
        var text' := text + Encode(year, count == 0, r.id, r.authors, r.title);
        if count + 1 == max then BatchResult(count + 1, text' + "\n]", pos + 1, vocab + words, true)
        else WriteLoop(ks, pos + 1, count + 1, text', vocab + words, max, year)
  }

  /** The vocabulary afterwards is the one before plus the words of the
      record lines the loop read, whether or not it completed. */
  lemma {:induction false} WriteLoopVocab(ks: seq<LineKind>, pos: nat, count: int, text: string, vocab: set<string>,
                                        max: int, year: string)
    requires pos <= |ks|
    ensures var b := WriteLoop(ks, pos, count, text, vocab, max, year);
            b.vocab == vocab + VocabIn(ks, pos, b.end)
    decreases |ks| - pos
  {
    if pos < |ks| {
      match ks[pos]
      case Comment =>
        WriteLoopVocab(ks, pos + 1, count, text, vocab, max, year);
      case Broken =>
      case Good(r, words) =>
        var text' := text + Encode(year, count == 0, r.id, r.authors, r.title);
        if count + 1 != max {
          WriteLoopVocab(ks, pos + 1, count + 1, text', vocab + words, max, year);
        }
    }
  }

  /** A call that completes has read no raising line, and the writer
      completes whenever the rest of the input has none; then the count
      grows by the records it consumed and the text by their documents, the
      comma before all but the first of the file, followed by `\n]`. Lines
      after the cursor play no part: a later raising line does not undo a
      batch already closed. */
  lemma {:induction false} WriteLoopWrites(ks: seq<LineKind>, pos: nat, count: int, text: string, vocab: set<string>,
                                         max: int, year: string)
    requires pos <= |ks| && 0 <= count
    ensures var b := WriteLoop(ks, pos, count, text, vocab, max, year);
            WellFormedIn(ks, pos, |ks|) ==> b.ok
    ensures var b := WriteLoop(ks, pos, count, text, vocab, max, year);
            var taken := RecordsIn(ks, pos, b.end);
            b.ok ==> WellFormedIn(ks, pos, b.end)
                     && b.count == count + |taken| && b.text == text + Docs(year, count == 0, taken) + "\n]"
    decreases |ks| - pos, 1
  {
    WriteLoopCompletes(ks, pos, count, text, vocab, max, year);
    WritesOk(ks, pos, count, text, vocab, max, year);
  }

  /** The writer completes exactly when the lines it read do not raise, so
      it completes on input without raising lines. */
  lemma WriteLoopCompletes(ks: seq<LineKind>, pos: nat, count: int, text: string, vocab: set<string>,
                           max: int, year: string)
    requires pos <= |ks| && 0 <= count
    ensures var b := WriteLoop(ks, pos, count, text, vocab, max, year);
            (b.ok <==> WellFormedIn(ks, pos, b.end)) && (WellFormedIn(ks, pos, |ks|) ==> b.ok)
  {
    WriteLoopFails(ks, pos, count, text, vocab, max, year);
  }

  /** The text and count of a call that completes, by induction on the
      lines it reads. */
  lemma {:induction false} WritesOk(ks: seq<LineKind>, pos: nat, count: int, text: string, vocab: set<string>,
                                  max: int, year: string)
    requires pos <= |ks| && 0 <= count
    ensures var b := WriteLoop(ks, pos, count, text, vocab, max, year);
            var taken := RecordsIn(ks, pos, b.end);
            b.ok ==> b.count == count + |taken| && b.text == text + Docs(year, count == 0, taken) + "\n]"
    decreases |ks| - pos, 1
  {
    if pos < |ks| {
      match ks[pos]
      case Comment =>
        WritesOk(ks, pos + 1, count, text, vocab, max, year);
        RecordsInSkip(ks, pos, WriteLoop(ks, pos + 1, count, text, vocab, max, year).end);
      case Broken =>
      case Good(r, words) =>
        if count + 1 == max {
          assert RecordsIn(ks, pos, pos + 1) == [r];
          DocsCons(year, count == 0, r, []);
        } else {
          WritesRecord(ks, pos, count, text, vocab, max, year);
        }
    }
  }

  lemma WritesRecord(ks: seq<LineKind>, pos: nat, count: int, text: string, vocab: set<string>,
                     max: int, year: string)
    requires pos < |ks| && ks[pos].Good?
    requires 0 <= count && count + 1 != max
    ensures var b := WriteLoop(ks, pos, count, text, vocab, max, year);
            var taken := RecordsIn(ks, pos, b.end);
            b.ok ==> b.count == count + |taken| && b.text == text + Docs(year, count == 0, taken) + "\n]"
    decreases |ks| - pos, 0
  {
    var r := ks[pos].rec;
    var e := Encode(year, count == 0, r.id, r.authors, r.title);
    WriteLoopGood(ks, pos, count, text, vocab, max, year, r, ks[pos].words, count == 0);
    WritesOk(ks, pos + 1, count + 1, text + e, vocab + ks[pos].words, max, year);
    var b := WriteLoop(ks, pos + 1, count + 1, text + e, vocab + ks[pos].words, max, year);
    var rest := RecordsIn(ks, pos + 1, b.end);
    RecordsInGood(ks, pos, b.end);
    if b.ok {
      WritesCons(b, RecordsIn(ks, pos, b.end), rest, count, text, year, count == 0, r);
    }
  }

  /** The bookkeeping of WritesRecord: a batch result for the records after
      `r`, started from the text with `r`'s document, is one for `r` and
      them, started from the text without it. */
  lemma WritesCons(b: BatchResult, taken: seq<Record>, rest: seq<Record>, count: int, text: string,
                   year: string, isFirst: bool, r: Record)
    requires taken == [r] + rest
    requires var e := Encode(year, isFirst, r.id, r.authors, r.title);
             b.ok && b.count == count + 1 + |rest| && b.text == (text + e) + Docs(year, false, rest) + "\n]"
    ensures b.ok && b.count == count + |taken| && b.text == text + Docs(year, isFirst, taken) + "\n]"
  {
    var e := Encode(year, isFirst, r.id, r.authors, r.title);
    DocsCons(year, isFirst, r, rest);
    ConcatAssoc(text, e, Docs(year, false, rest));
  }

  /** How a call that raised ends: the line before its cursor is the first
      raising line after `pos`, that line was counted, and the file holds the
      documents of the records before it with no closing `]`. */
  predicate Raised(ks: seq<LineKind>, pos: nat, count: int, text: string, year: string, b: BatchResult)
    requires pos <= b.end <= |ks|
  {
    pos < b.end && ks[b.end - 1].Broken? && WellFormedIn(ks, pos, b.end - 1)
    && b.count == count + |RecordsIn(ks, pos, b.end)| + 1
    && b.text == text + Docs(year, count == 0, RecordsIn(ks, pos, b.end))
  }

  /** The error path of the writer: a call raises exactly when a line it
      read raises, and then it stops at that line, as Raised says. */
  lemma {:induction false} WriteLoopFails(ks: seq<LineKind>, pos: nat, count: int, text: string, vocab: set<string>,
                                        max: int, year: string)
    requires pos <= |ks| && 0 <= count
    ensures var b := WriteLoop(ks, pos, count, text, vocab, max, year);
            (b.ok <==> WellFormedIn(ks, pos, b.end))
            && (!b.ok ==> Raised(ks, pos, count, text, year, b))
    decreases |ks| - pos
  {
    if pos < |ks| {
      match ks[pos]
      case Comment =>
        WriteLoopFails(ks, pos + 1, count, text, vocab, max, year);
        var b := WriteLoop(ks, pos + 1, count, text, vocab, max, year);
        RecordsInSkip(ks, pos, b.end);
      case Broken =>
        assert RecordsIn(ks, pos, pos + 1) == [];
      case Good(r, words) =>
        var e := Encode(year, count == 0, r.id, r.authors, r.title);
        WriteLoopGood(ks, pos, count, text, vocab, max, year, r, words, count == 0);
        if count + 1 != max {
          WriteLoopFails(ks, pos + 1, count + 1, text + e, vocab + words, max, year);
          var b := WriteLoop(ks, pos + 1, count + 1, text + e, vocab + words, max, year);
          if !b.ok {
            RaisedCons(ks, pos, count, text, year, r, words, e, b);
          }
        }
    }
  }

  /** The bookkeeping of WriteLoopFails at a record line. */
  lemma RaisedCons(ks: seq<LineKind>, pos: nat, count: int, text: string, year: string,
                   r: Record, words: set<string>, e: string, b: BatchResult)
    requires pos < b.end <= |ks| && ks[pos] == Good(r, words) && 0 <= count
    requires e == Encode(year, count == 0, r.id, r.authors, r.title)
    requires Raised(ks, pos + 1, count + 1, text + e, year, b)
    ensures Raised(ks, pos, count, text, year, b)
  {
    var rest := RecordsIn(ks, pos + 1, b.end);
    RecordsInGood(ks, pos, b.end);
    WellFormedCons(ks, pos, b.end - 1);
    DocsText(b.text, text, e, year, count == 0, r, rest);
  }

  lemma WellFormedCons(ks: seq<LineKind>, i: nat, j: nat)
    requires i < j <= |ks| && !ks[i].Broken? && WellFormedIn(ks, i + 1, j)
    ensures WellFormedIn(ks, i, j)
  {
  }

  lemma DocsText(t: string, text: string, e: string, year: string, isFirst: bool, r: Record, rest: seq<Record>)
    requires e == Encode(year, isFirst, r.id, r.authors, r.title)
    requires t == (text + e) + Docs(year, false, rest)
    ensures t == text + Docs(year, isFirst, [r] + rest)
  {
    DocsCons(year, isFirst, r, rest);
    ConcatAssoc(text, e, Docs(year, false, rest));
  }

  /** Where a call that completes stops, counting from below the limit: at
      the end of the input with the limit not reached (or no limit at all),
      or right after the record that reaches it. */
  lemma {:induction false} WriteLoopStops(ks: seq<LineKind>, pos: nat, count: int, text: string, vocab: set<string>,
                                        max: int, year: string)
    requires pos <= |ks|
    requires 0 <= count && (max < 1 || count < max)
    ensures var b := WriteLoop(ks, pos, count, text, vocab, max, year);
            var m := |RecordsIn(ks, pos, b.end)|;
            b.ok ==>
            || (b.end == |ks| && (max < 1 || count + m < max))
            || (max >= 1 && count + m == max && pos < b.end && ks[b.end - 1].Good?)
    decreases |ks| - pos
  {
    if pos < |ks| {
      match ks[pos]
      case Comment =>
        WriteLoopStops(ks, pos + 1, count, text, vocab, max, year);
        RecordsInSkip(ks, pos, WriteLoop(ks, pos + 1, count, text, vocab, max, year).end);
      case Broken =>
      case Good(r, words) =>
        var e := Encode(year, count == 0, r.id, r.authors, r.title);
        if count + 1 == max {
          assert RecordsIn(ks, pos, pos + 1) == [r];
        } else {
          WriteLoopStops(ks, pos + 1, count + 1, text + e, vocab + words, max, year);
          var b := WriteLoop(ks, pos + 1, count + 1, text + e, vocab + words, max, year);
          RecordsInGood(ks, pos, b.end);
        }
    }
  }

  /** How many of `n` remaining records the writer takes when it has
      counted `count` already: up to the limit, or all of them when the
      limit cannot be reached. */
  function Take(max: int, count: int, n: nat): (m: nat)
    ensures m <= n
    ensures max >= 1 && count <= max ==> count + m <= max
    ensures m < n ==> count + m == max
  {
    if max >= 1 && 0 <= max - count < n then max - count else n
  }

  /** What one batch is, for a call that completes: the writer takes the next records up to the limit, writes `text` followed by
      their documents, the comma before all but the first of the file, and
      closes it with `\n]`; the records it consumed are exactly the taken
      ones, and the cursor stops right after the last taken record when the
      limit is reached and at the end of the input otherwise. */
  predicate IsBatch(ks: seq<LineKind>, pos: nat, count: int, text: string, max: int, year: string, b: BatchResult)
    requires pos <= |ks|
  {
    var rs := RecordsIn(ks, pos, |ks|);
    var m := Take(max, count, |rs|);
    pos <= b.end <= |ks|
    && b.ok
    && b.count == count + m
    && b.text == text + Docs(year, count == 0, rs[..m]) + "\n]"
    && RecordsIn(ks, pos, b.end) == rs[..m]
    && RecordsIn(ks, b.end, |ks|) == rs[m..]
    && (max >= 1 && count + m == max ==> pos < b.end && ks[b.end - 1].Good?)
    && (max < 1 || count + m < max ==> b.end == |ks|)
  }

  /** A call that completes has read only lines that do not raise and has
      written one batch, whatever the lines after its cursor hold; on input
      without raising lines it always completes. */
  lemma WriteLoopBatch(ks: seq<LineKind>, pos: nat, count: int, text: string, vocab: set<string>,
                       max: int, year: string)
    requires pos <= |ks|
    requires 0 <= count && (max < 1 || count < max)
    ensures var b := WriteLoop(ks, pos, count, text, vocab, max, year);
            WellFormedIn(ks, pos, |ks|) ==> b.ok
    ensures var b := WriteLoop(ks, pos, count, text, vocab, max, year);
            b.ok ==> WellFormedIn(ks, pos, b.end) && IsBatch(ks, pos, count, text, max, year, b)
  {
    var b := WriteLoop(ks, pos, count, text, vocab, max, year);
    WriteLoopWrites(ks, pos, count, text, vocab, max, year);
    WriteLoopStops(ks, pos, count, text, vocab, max, year);
    if !b.ok {
      return;
    }
    var taken := RecordsIn(ks, pos, b.end);
    var left := RecordsIn(ks, b.end, |ks|);
    RecordsInSplit(ks, pos, b.end, |ks|);
    var rs := taken + left;
    assert rs[..|taken|] == taken && rs[|taken|..] == left;
    if b.end == |ks| {
      assert left == [];
    }
    assert Take(max, count, |rs|) == |taken|;
  }

  /** A call that starts below the limit, on lines up to `e` that do not
      raise and hold enough records to reach the limit, completes without
      reading past `e`, whatever the lines from `e` on hold. */
  lemma {:induction false} WriteLoopWithin(ks: seq<LineKind>, pos: nat, e: nat, count: int, text: string,
                                         vocab: set<string>, max: int, year: string)
    requires pos <= e <= |ks| && WellFormedIn(ks, pos, e)
    requires 0 <= count < max && count + |RecordsIn(ks, pos, e)| >= max
    ensures var b := WriteLoop(ks, pos, count, text, vocab, max, year);
            b.ok && b.end <= e
    decreases e - pos
  {
    assert pos < e;
    match ks[pos]
    case Comment =>
      RecordsInSkip(ks, pos, e);
      WriteLoopWithin(ks, pos + 1, e, count, text, vocab, max, year);
    case Broken =>
      assert false;
    case Good(r, words) =>
      WriteLoopGood(ks, pos, count, text, vocab, max, year, r, words, count == 0);
      if count + 1 != max {
        RecordsInGood(ks, pos, e);
        var e' := Encode(year, count == 0, r.id, r.authors, r.title);
        WriteLoopWithin(ks, pos + 1, e, count + 1, text + e', vocab + words, max, year);
      }
  }

  // ---------------------------------------------------------------------
  // The line stream and the method

  /** An open input file: its lines and the iterator's cursor. */
  class LineStream {
    const lines: seq<string>
    var pos: nat

    ghost predicate Valid()
      reads this
    {
      pos <= |lines|
    }

    constructor (lines: seq<string>)
      ensures Valid() && this.lines == lines && pos == 0
    {
      this.lines := lines;
      pos := 0;
    }

    /** One step of `for line in input_file`. */
    method Next() returns (line: Option<string>)
      requires Valid()
      modifies this
      ensures Valid()
      ensures old(pos) < |lines| ==> line == Some(lines[old(pos)]) && pos == old(pos) + 1
      ensures old(pos) == |lines| ==> line == None && pos == old(pos)
    {
      if pos < |lines| {
        line := Some(lines[pos]);
        pos := pos + 1;
      } else {
        line := None;
      }
    }
  }

  lemma WriteLoopGood(ks: seq<LineKind>, pos: nat, count: int, text: string, vocab: set<string>,
                      max: int, year: string, r: Record, words: set<string>, isFirst: bool)
    requires pos < |ks| && ks[pos] == Good(r, words) && isFirst == (count == 0)
    ensures var text' := text + Encode(year, isFirst, r.id, r.authors, r.title);
            WriteLoop(ks, pos, count, text, vocab, max, year)
            == if count + 1 == max then BatchResult(count + 1, text' + "\n]", pos + 1, vocab + words, true)
               else WriteLoop(ks, pos + 1, count + 1, text', vocab + words, max, year)
  {
  }

  /** One turn of the loop, as the method takes it, is one step of
      WriteLoop: either it continues from the next line with the same
      outcome, or it is the outcome. */
  lemma StepKeepsSpec(ks: seq<LineKind>, pos: nat, count: int, text: string, vocab: set<string>,
                      max: int, year: string, isFirst: bool,
                      count': int, text': string, done: bool, ok: bool, vocab': set<string>)
    requires pos < |ks| && isFirst == (count == 0)
    requires match ks[pos]
             case Comment => !done && ok && count' == count && text' == text && vocab' == vocab
             case Broken => done && !ok && count' == count + 1 && text' == text && vocab' == vocab
             case Good(r, words) =>
               done == (count + 1 == max) && ok && count' == count + 1
               && text' == text + Encode(year, isFirst, r.id, r.authors, r.title) && vocab' == vocab + words
    ensures !done ==> ok && WriteLoop(ks, pos + 1, count', text', vocab', max, year)
                            == WriteLoop(ks, pos, count, text, vocab, max, year)
    ensures done ==> WriteLoop(ks, pos, count, text, vocab, max, year)
                     == BatchResult(count', if ok then text' + "\n]" else text', pos + 1, vocab', ok)
  {
  }

  /** One turn of the loop of `write_content`: reads the next line and
      handles it according to its kind. `done` says that the loop ends
      here: at the end of the input, at the limit, or with IndexError (`ok`
      false). */
  method WriteStep(norm: Normalizer, input: LineStream, ghost ks: seq<LineKind>,
                   max: int, nMaxSplits: int, year: string, n: int, written: string, isFirst: bool)
    returns (n': int, written': string, done: bool, ok: bool, ghost kind: LineKind)
    requires input.Valid() && KindsOf(ks, input.lines, nMaxSplits, norm.stem, norm.stopWords)
    modifies norm, input
    ensures input.Valid()
    ensures old(input.pos) == |input.lines| ==>
              done && ok && n' == n && written' == written && input.pos == old(input.pos)
              && norm.vocab == old(norm.vocab)
    ensures old(input.pos) < |input.lines| ==>
              input.pos == old(input.pos) + 1
              && kind == ks[old(input.pos)]
              && match kind
                 case Comment =>
                   !done && ok && n' == n && written' == written && norm.vocab == old(norm.vocab)
                 case Broken =>
                   done && !ok && n' == n + 1 && written' == written && norm.vocab == old(norm.vocab)
                 case Good(r, words) =>
                   done == (n + 1 == max) && ok && n' == n + 1
                   && written' == written + Encode(year, isFirst, r.id, r.authors, r.title)
                   && norm.vocab == old(norm.vocab) + words
  {
    n', written', done, ok, kind := n, written, false, true, Comment;
    var next := input.Next();
    if next.None? {
      done := true;
      return;
    }
    var line := next.value;
    assert ks[old(input.pos)] == Classify(line, nMaxSplits, norm.stem, norm.stopWords);
    if IsRecord(line) {
      n' := n + 1;
      var rec := norm.ExtractFields(line, nMaxSplits);
      if rec.None? {
        kind := Broken;
        done, ok := true, false;
        return;
      }
      kind := Good(rec.value, RecordVocab(line, nMaxSplits, norm.stem, norm.stopWords));
      var document := Encode(year, isFirst, rec.value.id, rec.value.authors, rec.value.title);
      written' := written + document;
      done := n' == max;
    }
  }

  /** `write_content`: writes `[`, then one document per record line read
      until `max` records are counted, then `\n]`; comment lines are read
      and dropped. Returns the count, the text of the output file and
      whether it completed (false where the source raises IndexError,
      which leaves the file without its closing bracket). */
  method WriteContent(norm: Normalizer, input: LineStream, ghost ks: seq<LineKind>,
                      max: int, nMaxSplits: int, year: string)
    returns (n: int, written: string, ok: bool)
    requires input.Valid() && KindsOf(ks, input.lines, nMaxSplits, norm.stem, norm.stopWords)
    modifies norm, input
    ensures input.Valid()
    ensures var b := WriteLoop(ks, old(input.pos), 0, "[", old(norm.vocab), max, year);
            n == b.count && written == b.text && input.pos == b.end
            && norm.vocab == b.vocab && ok == b.ok
  {
    ghost var spec := WriteLoop(ks, input.pos, 0, "[", norm.vocab, max, year);
    written := "[";
    n := 0;
    var isFirst := true;
    ok := true;
    var done := false;
    while !done
      invariant input.Valid() && n >= 0 && isFirst == (n == 0)
      invariant !done ==> ok && WriteLoop(ks, input.pos, n, written, norm.vocab, max, year) == spec
      invariant done ==> spec == BatchResult(n, if ok then written + "\n]" else written, input.pos, norm.vocab, ok)
      decreases !done, |ks| - input.pos
    {
      ghost var kind;
      ghost var pos, count, text, vocab := input.pos, n, written, norm.vocab;
      n, written, done, ok, kind := WriteStep(norm, input, ks, max, nMaxSplits, year, n, written, isFirst);
      if pos < |ks| {
        StepKeepsSpec(ks, pos, count, text, vocab, max, year, isFirst, n, written, done, ok, norm.vocab);
      }
      isFirst := n == 0;
    }
    if ok {
      written := written + "\n]";
    }
  }
}
