/** The text normalisers of the converter: `clean_field`, `clean_id`,
    `clean_authors`, `clean_title` and the field extractor
    `extract_blast_fields`. The pure rewrites are functions; the process-wide
    vocabulary that `clean_authors` and `clean_title` add to is the field of a
    `Normalizer` object, which also holds the stemmer and the stop-word set. */
module Normalize {
  import opened Strings

  // ---------------------------------------------------------------------
  // clean_field

  /** Every double quote removed. */
  function DropQuotes(s: string): (r: string)
    ensures '"' !in r
    decreases |s|
  {
    if s == [] then []
    else (if s[0] == '"' then [] else [s[0]]) + DropQuotes(s[1..])
  }

  /** Dropping quotes works piece by piece: the other characters keep their
      order. */
  lemma {:induction false} DropQuotesAppend(a: string, b: string)
    ensures DropQuotes(a + b) == DropQuotes(a) + DropQuotes(b)
    decreases |a|
  {
    if a == [] {
      assert a + b == b;
    } else {
      assert (a + b)[1..] == a[1..] + b;
      DropQuotesAppend(a[1..], b);
    }
  }

  /** Every tab turned into a space. */
  function TabsToSpaces(s: string): (r: string)
    ensures |r| == |s|
    ensures forall i :: 0 <= i < |s| ==> r[i] == (if s[i] == '\t' then ' ' else s[i])
  {
    seq(|s|, i requires 0 <= i < |s| => if s[i] == '\t' then ' ' else s[i])
  }

  /** Every backslash doubled. */
  function EscapeBackslashes(s: string): (r: string)
    ensures |r| == |s| + Count(s, '\\')
    decreases |s|
  {
    if s == [] then []
    else (if s[0] == '\\' then "\\\\" else [s[0]]) + EscapeBackslashes(s[1..])
  }

  /** Reads back an escaped text: a backslash must come doubled. The partner
      of EscapeBackslashes. */
  function UnescapeBackslashes(r: string): Option<string>
    decreases |r|
  {
    if r == [] then Some([])
    else if r[0] != '\\' then
      match UnescapeBackslashes(r[1..])
      case Some(t) => Some([r[0]] + t)
      case None => None
    else if |r| >= 2 && r[1] == '\\' then
      match UnescapeBackslashes(r[2..])
      case Some(t) => Some(['\\'] + t)
      case None => None
    else None
  }

  /** `clean_field`: the three replacements, in the source's order. */
  function CleanField(s: string): (r: string)
    ensures '"' !in r && '\t' !in r
  {
    var t := TabsToSpaces(DropQuotes(s));
    assert '"' !in t && '\t' !in t;
    EscapeKeepsOthers(t, '"');
    EscapeKeepsOthers(t, '\t');
    EscapeBackslashes(t)
  }

  lemma {:induction false} EscapeRoundTrip(s: string)
    ensures UnescapeBackslashes(EscapeBackslashes(s)) == Some(s)
    decreases |s|
  {
    if s != [] {
      EscapeRoundTrip(s[1..]);
      var e := EscapeBackslashes(s);
      assert s == [s[0]] + s[1..];
      if s[0] == '\\' {
        assert e[0] == '\\' && e[1] == '\\';
        assert e[2..] == EscapeBackslashes(s[1..]);
      } else {
        assert e[0] == s[0];
        assert e[1..] == EscapeBackslashes(s[1..]);
      }
    }
  }

  lemma {:induction false} EscapeKeepsOthers(s: string, c: char)
    requires c != '\\'
    ensures Count(EscapeBackslashes(s), c) == Count(s, c)
    ensures c in EscapeBackslashes(s) <==> c in s
    decreases |s|
  {
    if s != [] {
      EscapeKeepsOthers(s[1..], c);
      CountAppend(if s[0] == '\\' then "\\\\" else [s[0]], EscapeBackslashes(s[1..]), c);
      assert s == [s[0]] + s[1..];
    }
  }

  lemma {:induction false} DropQuotesKeepsOthers(s: string, c: char)
    requires c != '"'
    ensures Count(DropQuotes(s), c) == Count(s, c)
    decreases |s|
  {
    if s != [] {
      DropQuotesKeepsOthers(s[1..], c);
      CountAppend(if s[0] == '"' then [] else [s[0]], DropQuotes(s[1..]), c);
    }
  }

  /** What `clean_field` promises: no double quote and no tab survive, each
      tab became one space, and undoing the backslash doubling gives back the
      quote-stripped, tab-replaced text exactly, so every backslash of the
      quote-stripped input appears doubled and nothing else changed. Every
      other character keeps its number of occurrences. */
  lemma CleanFieldSpec(s: string)
    ensures '"' !in CleanField(s) && '\t' !in CleanField(s)
    ensures UnescapeBackslashes(CleanField(s)) == Some(TabsToSpaces(DropQuotes(s)))
    ensures forall c :: c != '"' && c != '\t' && c != '\\' && c != ' ' ==>
              Count(CleanField(s), c) == Count(s, c)
  {
    var q := DropQuotes(s);
    var t := TabsToSpaces(q);
    EscapeRoundTrip(t);
    assert '"' !in t;
    assert '\t' !in t;
    EscapeKeepsOthers(t, '"');
    EscapeKeepsOthers(t, '\t');
    forall c | c != '"' && c != '\t' && c != '\\' && c != ' '
      ensures Count(CleanField(s), c) == Count(s, c)
    {
      EscapeKeepsOthers(t, c);
      CountAligned(t, q, c);
      DropQuotesKeepsOthers(s, c);
    }
  }

  // ---------------------------------------------------------------------
  // clean_id

  /** `clean_id`: the cleaned field with every run of non-word characters
      replaced by one `_`. */
  function CleanId(s: string): (r: string)
    ensures forall i :: 0 <= i < |r| ==> IsWordChar(r[i])
  {
    var f := CleanField(s);
    SubRunsChars(f, IsWordChar, '_');
    var r := SubRuns(f, IsWordChar, '_');
    assert forall i :: 0 <= i < |r| ==> r[i] in r;
    r
  }

  /** The identifier of a typical record: the dot becomes an underscore. */
  lemma CleanIdSample()
    ensures CleanId("1501.00001") == "1501_00001"
  {
    SampleCleanField();
    SampleSubRuns();
  }

  lemma SampleCleanField()
    ensures CleanField("1501.00001") == "1501.00001"
  {
    var s := "1501.00001";
    assert forall i :: 0 <= i < |s| ==> IsDigit(s[i]) || s[i] == '.';
    CleanFieldPlain(s);
  }

  /** Text without double quotes, tabs and backslashes passes
      `clean_field` unchanged. */
  lemma CleanFieldPlain(s: string)
    requires forall i :: 0 <= i < |s| ==> s[i] != '"' && s[i] != '\t' && s[i] != '\\'
    ensures CleanField(s) == s
  {
    DropQuotesAbsent(s);
    assert TabsToSpaces(s) == s;
    EscapeAbsent(s);
  }

  lemma SampleSubRuns()
    ensures SubRuns("1501.00001", IsWordChar, '_') == "1501_00001"
  {
    var a, b := "1501", "00001";
    assert forall i :: 0 <= i < |a| ==> IsWordChar(a[i]);
    assert forall i :: 0 <= i < |b| ==> IsWordChar(b[i]);
    SubRunsOneSeparator(a, '.', b, IsWordChar, '_');
    assert a + ['.'] + b == "1501.00001";
    assert a + ['_'] + b == "1501_00001";
  }

  lemma {:induction false} DropQuotesAbsent(s: string)
    requires '"' !in s
    ensures DropQuotes(s) == s
    decreases |s|
  {
    if s != [] {
      assert '"' !in s[1..];
      DropQuotesAbsent(s[1..]);
    }
  }

  lemma {:induction false} EscapeAbsent(s: string)
    requires '\\' !in s
    ensures EscapeBackslashes(s) == s
    decreases |s|
  {
    if s != [] {
      assert '\\' !in s[1..];
      EscapeAbsent(s[1..]);
    }
  }

  // ---------------------------------------------------------------------
  // clean_authors

  /** One author entry: strip, keep the text after the last `.`, then
      replace every run of characters other than ASCII letters and spaces
      by one space. */
  function AuthorEntry(part: string): string {
    var pieces := Split(Strip(part), '.');
    SubRuns(pieces[|pieces| - 1], IsLetterOrSpace, ' ')
  }

  /** The lower-cased, cleaned field cut at every comma. */
  function AuthorParts(s: string): seq<string> {
    Split(Lower(CleanField(s)), ',')
  }

  /** The entries `clean_authors` adds to the vocabulary and joins. */
  function AuthorEntries(s: string): (es: seq<string>)
    ensures |es| == Count(Lower(CleanField(s)), ',') + 1
  {
    var parts := AuthorParts(s);
    seq(|parts|, i requires 0 <= i < |parts| => AuthorEntry(parts[i]))
  }

  /** What the joined result of `clean_authors` is made of: one entry per
      comma-separated part of the raw field, each holding only lower-case
      ASCII letters and spaces (so no `.`). An entry may be empty. */
  lemma AuthorEntriesSpec(s: string)
    ensures |AuthorEntries(s)| == Count(s, ',') + 1
    ensures forall i, ch :: 0 <= i < |AuthorEntries(s)| && ch in AuthorEntries(s)[i] ==>
              IsLower(ch) || ch == ' '
  {
    var f := CleanField(s);
    CleanFieldSpec(s);
    CountAligned(Lower(f), f, ',');
    AuthorEntriesChars(s);
  }

  lemma AuthorEntriesChars(s: string)
    ensures forall i, ch :: 0 <= i < |AuthorEntries(s)| && ch in AuthorEntries(s)[i] ==>
              IsLower(ch) || ch == ' '
  {
    var l := Lower(CleanField(s));
    var parts := AuthorParts(s);
    SplitChars(l, ',');
    forall i, ch | 0 <= i < |parts| && ch in AuthorEntry(parts[i])
      ensures IsLower(ch) || ch == ' '
    {
      AuthorEntryChars(parts[i]);
      if ch != ' ' {
        assert ch in l;
      }
    }
  }

  /** An entry holds spaces and letters of its part only. */
  lemma AuthorEntryChars(part: string)
    ensures forall ch :: ch in AuthorEntry(part) ==> ch == ' ' || (IsLetter(ch) && ch in part)
  {
    var pieces := Split(Strip(part), '.');
    var last := pieces[|pieces| - 1];
    SubRunsChars(last, IsLetterOrSpace, ' ');
    SplitChars(Strip(part), '.');
    StripChars(part);
    forall ch | ch in AuthorEntry(part) && ch != ' '
      ensures IsLetter(ch) && ch in part
    {
      assert ch in last;
    }
  }

  // ---------------------------------------------------------------------
  // clean_title

  /** The whitespace-separated words of the lower-cased, letters-only title. */
  function TitleWords(s: string): seq<string> {
    Words(SubRuns(Lower(CleanField(s)), IsLetterOrSpace, ' '))
  }

  /** Every title word is a non-empty run of lower-case ASCII letters. */
  lemma TitleWordsSpec(s: string)
    ensures forall i :: 0 <= i < |TitleWords(s)| ==> TitleWords(s)[i] != []
    ensures forall i, ch :: 0 <= i < |TitleWords(s)| && ch in TitleWords(s)[i] ==> IsLower(ch)
  {
    var l := Lower(CleanField(s));
    var u := SubRuns(l, IsLetterOrSpace, ' ');
    SubRunsChars(l, IsLetterOrSpace, ' ');
    var ws := TitleWords(s);
    forall i, ch | 0 <= i < |ws| && ch in ws[i] ensures IsLower(ch) {
      assert ch in u && !IsSpace(ch);
      assert ch in l && IsLetter(ch);
    }
  }

  /** The filter of `clean_title`, applied to the word before stemming. */
  predicate Kept(w: string, stopWords: set<string>) {
    |w| > 3 && w !in stopWords
  }

  /** The stems of the words longer than three characters that are not
      stop words, in order. */
  function StemKept(ws: seq<string>, stem: string -> string, stopWords: set<string>): (r: seq<string>)
    ensures |r| <= |ws|
    ensures (forall i :: 0 <= i < |ws| ==> Kept(ws[i], stopWords)) ==> |r| == |ws|
    decreases |ws|
  {
    if ws == [] then []
    else (if Kept(ws[0], stopWords) then [stem(ws[0])] else []) + StemKept(ws[1..], stem, stopWords)
  }

  /** The comprehension works word by word: it distributes over
      concatenation, so its output keeps the order of the words. */
  lemma {:induction false} StemKeptAppend(a: seq<string>, b: seq<string>, stem: string -> string, stopWords: set<string>)
    ensures StemKept(a + b, stem, stopWords) == StemKept(a, stem, stopWords) + StemKept(b, stem, stopWords)
    decreases |a|
  {
    if a == [] {
      assert a + b == b;
    } else {
      assert (a + b)[0] == a[0];
      assert (a + b)[1..] == a[1..] + b;
      StemKeptAppend(a[1..], b, stem, stopWords);
    }
  }

  /** A token comes out if and only if it is the stem of a kept word; at
      most one token per word. */
  lemma {:induction false} StemKeptMembers(ws: seq<string>, stem: string -> string, stopWords: set<string>)
    ensures |StemKept(ws, stem, stopWords)| <= |ws|
    ensures forall t :: t in StemKept(ws, stem, stopWords) <==>
              exists j :: 0 <= j < |ws| && Kept(ws[j], stopWords) && stem(ws[j]) == t
    decreases |ws|
  {
    if ws != [] {
      StemKeptMembers(ws[1..], stem, stopWords);
      forall t | (exists j :: 0 <= j < |ws| && Kept(ws[j], stopWords) && stem(ws[j]) == t)
        ensures t in StemKept(ws, stem, stopWords)
      {
        var j :| 0 <= j < |ws| && Kept(ws[j], stopWords) && stem(ws[j]) == t;
        if j > 0 {
          assert ws[1..][j - 1] == ws[j];
        }
      }
      forall t | t in StemKept(ws, stem, stopWords)
        ensures exists j :: 0 <= j < |ws| && Kept(ws[j], stopWords) && stem(ws[j]) == t
      {
        if t !in StemKept(ws[1..], stem, stopWords) {
          assert Kept(ws[0], stopWords) && stem(ws[0]) == t;
        } else {
          var j :| 0 <= j < |ws| - 1 && Kept(ws[1..][j], stopWords) && stem(ws[1..][j]) == t;
          assert ws[j + 1] == ws[1..][j];
        }
      }
    }
  }

  /** The tokens `clean_title` adds to the vocabulary and joins. */
  function TitleTokens(s: string, stem: string -> string, stopWords: set<string>): seq<string> {
    StemKept(TitleWords(s), stem, stopWords)
  }

  // ---------------------------------------------------------------------
  // extract_blast_fields

  datatype Record = Record(id: string, authors: string, title: string)

  function Elems(ws: seq<string>): set<string> {
    set w | w in ws
  }

  /** The fields of a line: cut at `;`, at most `nMaxSplits` times. */
  function Fields(line: string, nMaxSplits: int): seq<string> {
    SplitN(line, ';', nMaxSplits)
  }

  /** `extract_blast_fields`, None where the source raises IndexError for
      a missing sixth field. An empty identifier is not rejected. */
  function Extract(line: string, nMaxSplits: int, stem: string -> string, stopWords: set<string>): (r: Option<Record>)
    ensures r.None? <==> |Fields(line, nMaxSplits)| < 6
    ensures r.Some? ==> forall i :: 0 <= i < |r.value.id| ==> IsWordChar(r.value.id[i])
  {
    var fields := Fields(line, nMaxSplits);
    if |fields| < 6 then None
    else Some(Record(CleanId(fields[0]),
                     Join(AuthorEntries(fields[5]), " "),
                     Join(TitleTokens(fields[|fields| - 1], stem, stopWords), " ")))
  }

  /** The tokens `extract_blast_fields` adds to the vocabulary. */
  function RecordVocab(line: string, nMaxSplits: int, stem: string -> string, stopWords: set<string>): set<string> {
    var fields := Fields(line, nMaxSplits);
    if |fields| < 6 then {}
    else Elems(AuthorEntries(fields[5])) + Elems(TitleTokens(fields[|fields| - 1], stem, stopWords))
  }

  /** Extraction fails exactly when the line has fewer than five `;` (or
      when fewer than five splits are allowed at all), and a failed
      extraction adds nothing to the vocabulary. */
  lemma ExtractFailure(line: string, nMaxSplits: int, stem: string -> string, stopWords: set<string>)
    ensures 0 <= nMaxSplits < 5 ==> Extract(line, nMaxSplits, stem, stopWords) == None
    ensures (nMaxSplits < 0 || nMaxSplits >= 5) ==>
              (Extract(line, nMaxSplits, stem, stopWords) == None <==> Count(line, ';') < 5)
    ensures Extract(line, nMaxSplits, stem, stopWords) == None ==>
              RecordVocab(line, nMaxSplits, stem, stopWords) == {}
  {
    if nMaxSplits >= 0 {
      assert Fields(line, nMaxSplits) == SplitAtMost(line, ';', nMaxSplits);
      SplitAtMostCount(line, ';', nMaxSplits);
    }
  }

  /** The title is taken from the remainder of the line after the last
      permitted cut, `;` included. */
  lemma ExtractTitleSource(line: string, nMaxSplits: int, stem: string -> string, stopWords: set<string>)
    requires Extract(line, nMaxSplits, stem, stopWords).Some?
    ensures var fields := Fields(line, nMaxSplits);
            Join(fields[..|fields| - 1], ";") + ";" + fields[|fields| - 1] == line
            && Extract(line, nMaxSplits, stem, stopWords).value.title
               == Join(TitleTokens(fields[|fields| - 1], stem, stopWords), " ")
  {
    var fields := Fields(line, nMaxSplits);
    SplitNJoin(line, ';', nMaxSplits);
    JoinLast(fields, ";");
  }

  lemma {:induction false} JoinLast(parts: seq<string>, sep: string)
    requires |parts| >= 2
    ensures Join(parts[..|parts| - 1], sep) + sep + parts[|parts| - 1] == Join(parts, sep)
    decreases |parts|
  {
    if |parts| > 2 {
      JoinLast(parts[1..], sep);
      assert parts[1..][..|parts| - 2] == parts[..|parts| - 1][1..];
    }
  }

  // ---------------------------------------------------------------------
  // The vocabulary and the stateful normalisers

  class Normalizer {
    const stem: string -> string
    const stopWords: set<string>
    var vocab: set<string>

    constructor (stem: string -> string, stopWords: set<string>)
      ensures this.stem == stem && this.stopWords == stopWords && vocab == {}
    {
      this.stem := stem;
      this.stopWords := stopWords;
      vocab := {};
    }

    /** Adds each of the words to the vocabulary. */
    method AddAll(ws: seq<string>)
      modifies this
      ensures vocab == old(vocab) + Elems(ws)
    {
      var i := 0;
      while i < |ws|
        invariant 0 <= i <= |ws|
        invariant vocab == old(vocab) + Elems(ws[..i])
      {
        assert ws[..i + 1] == ws[..i] + [ws[i]];
        vocab := vocab + {ws[i]};
        i := i + 1;
      }
      assert ws[..i] == ws;
    }

    /** `clean_authors` */
    method CleanAuthors(s: string) returns (r: string)
      modifies this
      ensures r == Join(AuthorEntries(s), " ")
      ensures vocab == old(vocab) + Elems(AuthorEntries(s))
    {
      var entries := AuthorEntries(s);
      AddAll(entries);
      r := Join(entries, " ");
    }

    /** `clean_title` */
    method CleanTitle(s: string) returns (r: string)
      modifies this
      ensures r == Join(TitleTokens(s, stem, stopWords), " ")
      ensures vocab == old(vocab) + Elems(TitleTokens(s, stem, stopWords))
    {
      var tokens := TitleTokens(s, stem, stopWords);
      AddAll(tokens);
      r := Join(tokens, " ");
    }

    /** `extract_blast_fields`: None where the source raises IndexError. */
    method ExtractFields(line: string, nMaxSplits: int) returns (rec: Option<Record>)
      modifies this
      ensures rec == Extract(line, nMaxSplits, stem, stopWords)
      ensures vocab == old(vocab) + RecordVocab(line, nMaxSplits, stem, stopWords)
    {
      var fields := Fields(line, nMaxSplits);
      var id := CleanId(fields[0]);
      if |fields| < 6 {
        return None;
      }
      var authors := CleanAuthors(fields[5]);
      var title := CleanTitle(fields[|fields| - 1]);
      rec := Some(Record(id, authors, title));
    }
  }
}
