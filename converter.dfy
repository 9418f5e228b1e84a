/** The conversion run of `main`: every input file in turn, each cut into
    output files of at most `max` records named after the file's year. */
module Converter {
  import opened Strings
  import opened Normalize
  import opened BatchWriter
  import opened Driver

  /** The output directory for the search engine: file names and what
      each file holds. */
  class OutputDir {
    var files: map<string, string>

    constructor (files: map<string, string>)
      ensures this.files == files
    {
      this.files := files;
    }

    /** Whether a file of that name is already in the directory. */
    method Exists(name: string) returns (b: bool)
      ensures b == (name in files)
    {
      b := name in files;
    }

    /** Opening `name` for writing and writing `text` to it: the file is
        created or replaced. */
    method Write(name: string, text: string)
      modifies this
      ensures files == old(files)[name := text]
    {
      files := files[name := text];
    }
  }

  /** One input file of `main`: its name and its lines, in the order the
      caller gives them. */
  datatype InputFile = InputFile(name: string, lines: seq<string>)

  /** The outcome of converting a sequence of input files: the directory,
      the vocabulary, the running total and whether no exception was
      raised. */
  datatype Job = Job(files: map<string, string>, vocab: set<string>, total: int, ok: bool)

  /** The run of one input file: its lines classified, its records
      counted, and its slots filled. */
  function InputRun(f: InputFile, files: map<string, string>, vocab: set<string>,
                    max: int, nMaxSplits: int, stem: string -> string, stopWords: set<string>): Run
  {
    FileRun(Classified(f.lines, nMaxSplits, stem, stopWords), CountRecords(f.lines), f.name, files, vocab, max)
  }

  /** The body of the loop over the input files of `main`: each file is
      run slot by slot, its count is added to the total, and an exception
      ends the run with the total as it was. */
  function JobLoop(inputs: seq<InputFile>, files: map<string, string>, vocab: set<string>, total: int,
                   max: int, nMaxSplits: int, stem: string -> string, stopWords: set<string>): Job
    decreases |inputs|, 0
  {
    if inputs == [] then Job(files, vocab, total, true)
    else JobAfter(InputRun(inputs[0], files, vocab, max, nMaxSplits, stem, stopWords), inputs[1..], total,
                  max, nMaxSplits, stem, stopWords)
  }

  /** The rest of the job once an input file has run with outcome `r`. */
  function JobAfter(r: Run, rest: seq<InputFile>, total: int,
                    max: int, nMaxSplits: int, stem: string -> string, stopWords: set<string>): Job
    decreases |rest|, 1
  {
    if !r.ok then Job(r.files, r.vocab, total, false)
    else JobLoop(rest, r.files, r.vocab, total + r.converted, max, nMaxSplits, stem, stopWords)
  }

  /** One input file: count its records, work out how many output files
      it needs, then fill each slot whose file is absent from where the
      previous one stopped reading. */
  method ConvertFile(norm: Normalizer, out: OutputDir, name: string, lines: seq<string>,
                     max: int, nMaxSplits: int)
    returns (converted: int, ok: bool)
    modifies norm, out
    ensures var ks := Classified(lines, nMaxSplits, norm.stem, norm.stopWords);
            var r := FileRun(ks, CountRecords(lines), name, old(out.files), old(norm.vocab), max);
            out.files == r.files && norm.vocab == r.vocab && converted == r.converted && ok == r.ok
  {
    var year := Year(name);
    var count := CountElements(lines);
    var needed := FilesNeeded(count, max);
    if needed.None? {
      return 0, false;
    }
    ghost var ks := Classified(lines, nMaxSplits, norm.stem, norm.stopWords);
    ghost var spec := SlotLoop(ks, 0, 0, needed.value, out.files, norm.vocab, 0, max, year);
    assert spec == FileRun(ks, CountRecords(lines), name, out.files, norm.vocab, max);
    var input := new LineStream(lines);
    converted, ok := 0, true;
    var j := 0;
    while j < needed.value
      invariant j <= needed.value && input.Valid() && input.lines == lines
      invariant SlotLoop(ks, input.pos, j, needed.value, out.files, norm.vocab, converted, max, year) == spec
      decreases needed.value - j
    {
      var target := OutputName(year, j);
      var present := out.Exists(target);
      ghost var pos0, files0, vocab0, converted0 := input.pos, out.files, norm.vocab, converted;
      if present {
        SlotSkipped(ks, pos0, j, needed.value, files0, vocab0, converted0, max, year);
      } else {
        var n, written, wrote := WriteContent(norm, input, ks, max, nMaxSplits, year);
        out.Write(target, written);
        if !wrote {
          SlotFailed(ks, pos0, j, needed.value, files0, vocab0, converted0, max, year, input.pos, out.files, norm.vocab);
          return converted, false;
        }
        converted := converted + n;
        SlotWritten(ks, pos0, j, needed.value, files0, vocab0, converted0, max, year,
                    input.pos, out.files, norm.vocab, converted);
      }
      j := j + 1;
    }
  }

  /** Proof step: an input file converted without an exception adds its
      count to the total and leaves its directory and vocabulary to the
      next one. */
  lemma JobGoesOn(inputs: seq<InputFile>, i: nat, files: map<string, string>, vocab: set<string>, total: int,
                  max: int, nMaxSplits: int, stem: string -> string, stopWords: set<string>,
                  files': map<string, string>, vocab': set<string>, total': int)
    requires i < |inputs|
    requires var r := InputRun(inputs[i], files, vocab, max, nMaxSplits, stem, stopWords);
             r.ok && files' == r.files && vocab' == r.vocab && total' == total + r.converted
    ensures JobLoop(inputs[i..], files, vocab, total, max, nMaxSplits, stem, stopWords)
            == JobLoop(inputs[i + 1..], files', vocab', total', max, nMaxSplits, stem, stopWords)
  {
    var rest := inputs[i..];
    assert rest[0] == inputs[i] && rest[1..] == inputs[i + 1..];
    JobCons(rest, files, vocab, total, max, nMaxSplits, stem, stopWords, files', vocab', total');
  }

  lemma JobCons(inputs: seq<InputFile>, files: map<string, string>, vocab: set<string>, total: int,
                max: int, nMaxSplits: int, stem: string -> string, stopWords: set<string>,
                files': map<string, string>, vocab': set<string>, total': int)
    requires inputs != []
    requires var r := InputRun(inputs[0], files, vocab, max, nMaxSplits, stem, stopWords);
             r.ok && files' == r.files && vocab' == r.vocab && total' == total + r.converted
    ensures JobLoop(inputs, files, vocab, total, max, nMaxSplits, stem, stopWords)
            == JobLoop(inputs[1..], files', vocab', total', max, nMaxSplits, stem, stopWords)
  {
  }

  /** Proof step: an exception while converting an input file ends the run. */
  lemma JobStops(inputs: seq<InputFile>, i: nat, files: map<string, string>, vocab: set<string>, total: int,
                 max: int, nMaxSplits: int, stem: string -> string, stopWords: set<string>,
                 files': map<string, string>, vocab': set<string>)
    requires i < |inputs|
    requires var r := InputRun(inputs[i], files, vocab, max, nMaxSplits, stem, stopWords);
             !r.ok && files' == r.files && vocab' == r.vocab
    ensures JobLoop(inputs[i..], files, vocab, total, max, nMaxSplits, stem, stopWords) == Job(files', vocab', total, false)
  {
    var rest := inputs[i..];
    assert rest[0] == inputs[i];
  }

  /** `main`'s loop over the input files, with the vocabulary shared by
      all of them; the total counts the records converted. */
  method Convert(norm: Normalizer, out: OutputDir, inputs: seq<InputFile>, max: int, nMaxSplits: int)
    returns (total: int, ok: bool)
    modifies norm, out
    ensures var job := JobLoop(inputs, old(out.files), old(norm.vocab), 0, max, nMaxSplits, norm.stem, norm.stopWords);
            out.files == job.files && norm.vocab == job.vocab && total == job.total && ok == job.ok
  {
    ghost var spec := JobLoop(inputs, out.files, norm.vocab, 0, max, nMaxSplits, norm.stem, norm.stopWords);
    total := 0;
    for i := 0 to |inputs|
      invariant JobLoop(inputs[i..], out.files, norm.vocab, total, max, nMaxSplits, norm.stem, norm.stopWords) == spec
    {
      ghost var files0, vocab0, total0 := out.files, norm.vocab, total;
      var converted, fileOk := ConvertFile(norm, out, inputs[i].name, inputs[i].lines, max, nMaxSplits);
      if !fileOk {
        JobStops(inputs, i, files0, vocab0, total0, max, nMaxSplits, norm.stem, norm.stopWords, out.files, norm.vocab);
        return total, false;
      }
      total := total + converted;
      JobGoesOn(inputs, i, files0, vocab0, total0, max, nMaxSplits, norm.stem, norm.stopWords,
                out.files, norm.vocab, total);
    }
    ok := true;
  }

  // ---------------------------------------------------------------------
  // A run into a directory that holds none of the output files

  /** The number of record lines of all input files. */
  function RecordCount(inputs: seq<InputFile>): nat
    decreases |inputs|
  {
    if inputs == [] then 0 else CountRecords(inputs[0].lines) + RecordCount(inputs[1..])
  }

  /** Every record line of the file has the six fields `extract_blast_fields`
      reads. */
  predicate WellFormedInput(f: InputFile, nMaxSplits: int) {
    forall i :: 0 <= i < |f.lines| && IsRecord(f.lines[i]) ==> |Fields(f.lines[i], nMaxSplits)| >= 6
  }

  /** The input files carry four-character years, no two the same, and no
      output file of any of those years exists yet. */
  ghost predicate FreshYears(inputs: seq<InputFile>, files: map<string, string>) {
    && (forall a :: 0 <= a < |inputs| ==> |inputs[a].name| >= 9)
    && (forall a, b :: 0 <= a < b < |inputs| ==> Year(inputs[a].name) != Year(inputs[b].name))
    && (forall a, k: nat :: 0 <= a < |inputs| ==> OutputName(Year(inputs[a].name), k) !in files)
  }

  /** `files'` keeps every file of `files` and adds only output files of
      `year`. */
  ghost predicate AddsOnly(files: map<string, string>, files': map<string, string>, year: string) {
    && (forall nm :: nm in files ==> nm in files' && files'[nm] == files[nm])
    && (forall nm :: nm in files' ==> nm in files || exists i: nat :: nm == OutputName(year, i))
  }

  /** With a fresh directory, converting every input file raises nothing,
      the total counts every record line of every file, and no file that
      existed before is touched. */
  lemma {:induction false} JobFresh(inputs: seq<InputFile>, files: map<string, string>, vocab: set<string>, total: int,
                                  max: int, nMaxSplits: int, stem: string -> string, stopWords: set<string>)
    requires max >= 1 && FreshYears(inputs, files)
    requires forall a :: 0 <= a < |inputs| ==> WellFormedInput(inputs[a], nMaxSplits)
    ensures var job := JobLoop(inputs, files, vocab, total, max, nMaxSplits, stem, stopWords);
            && job.ok && job.total == total + RecordCount(inputs)
            && forall nm :: nm in files ==> nm in job.files && job.files[nm] == files[nm]
    decreases |inputs|
  {
    if inputs != [] {
      var r := InputRun(inputs[0], files, vocab, max, nMaxSplits, stem, stopWords);
      assert WellFormedInput(inputs[0], nMaxSplits);
      InputFresh(inputs[0], files, vocab, max, nMaxSplits, stem, stopWords);
      FreshYearsAfter(inputs, files, r.files);
      forall a | 0 <= a < |inputs[1..]|
        ensures WellFormedInput(inputs[1..][a], nMaxSplits)
      {
        assert inputs[1..][a] == inputs[a + 1];
      }
      JobFresh(inputs[1..], r.files, r.vocab, total + r.converted, max, nMaxSplits, stem, stopWords);
      JobCons(inputs, files, vocab, total, max, nMaxSplits, stem, stopWords, r.files, r.vocab, total + r.converted);
    }
  }

  /** One input file into a directory without its year's output files. */
  lemma InputFresh(f: InputFile, files: map<string, string>, vocab: set<string>,
                   max: int, nMaxSplits: int, stem: string -> string, stopWords: set<string>)
    requires max >= 1 && WellFormedInput(f, nMaxSplits)
    requires forall k: nat :: OutputName(Year(f.name), k) !in files
    ensures var r := InputRun(f, files, vocab, max, nMaxSplits, stem, stopWords);
            r.ok && r.converted == CountRecords(f.lines) && AddsOnly(files, r.files, Year(f.name))
  {
    var ks := Classified(f.lines, nMaxSplits, stem, stopWords);
    var rs := RecordsIn(ks, 0, |ks|);
    FreshFile(f.lines, f.name, files, vocab, max, nMaxSplits, stem, stopWords);
    WrittenKeeps(files, Year(f.name), 0, Chunks(rs, max));
    WrittenOnly(files, Year(f.name), 0, Chunks(rs, max));
  }

  /** The files the first input adds are of its year, so the later inputs
      still find none of theirs. */
  lemma FreshYearsAfter(inputs: seq<InputFile>, files: map<string, string>, files': map<string, string>)
    requires inputs != [] && FreshYears(inputs, files) && AddsOnly(files, files', Year(inputs[0].name))
    ensures FreshYears(inputs[1..], files')
  {
    var rest := inputs[1..];
    var y := Year(inputs[0].name);
    forall a, k: nat | 0 <= a < |rest|
      ensures OutputName(Year(rest[a].name), k) !in files'
    {
      assert rest[a] == inputs[a + 1];
      var y' := Year(rest[a].name);
      assert |y| == 4 && |y'| == 4 && y != y';
      forall i: nat
        ensures OutputName(y', k) != OutputName(y, i)
      {
        OutputNamesOfYears(y', y, k, i);
      }
    }
    forall a, b | 0 <= a < b < |rest|
      ensures Year(rest[a].name) != Year(rest[b].name)
    {
      assert rest[a] == inputs[a + 1] && rest[b] == inputs[b + 1];
    }
  }

  /** Whatever the inputs and the directory, raising or not, the run never
      changes a file that existed before it. */
  lemma {:induction false} JobLoopKeeps(inputs: seq<InputFile>, files: map<string, string>, vocab: set<string>, total: int,
                                      max: int, nMaxSplits: int, stem: string -> string, stopWords: set<string>)
    ensures Keeps(files, JobLoop(inputs, files, vocab, total, max, nMaxSplits, stem, stopWords).files)
    decreases |inputs|, 0
  {
    if inputs != [] {
      var r := InputRun(inputs[0], files, vocab, max, nMaxSplits, stem, stopWords);
      var job := JobAfter(r, inputs[1..], total, max, nMaxSplits, stem, stopWords);
      JobAfterKeeps(r, inputs[1..], total, max, nMaxSplits, stem, stopWords);
      KeepsTrans(files, r.files, job.files);
    }
  }

  lemma {:induction false} JobAfterKeeps(r: Run, rest: seq<InputFile>, total: int,
                                       max: int, nMaxSplits: int, stem: string -> string, stopWords: set<string>)
    ensures Keeps(r.files, JobAfter(r, rest, total, max, nMaxSplits, stem, stopWords).files)
    decreases |rest|, 1
  {
    if r.ok {
      JobLoopKeeps(rest, r.files, r.vocab, total + r.converted, max, nMaxSplits, stem, stopWords);
    }
  }
}
