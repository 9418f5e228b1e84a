/** The driver: `main`'s loop over the input files and, per file, over the
    output files it needs. The output directory is a map from file name to
    file text; the input files come in the order `main` visits them. */
module Driver {
  import opened Strings
  import opened Normalize
  import opened Document
  import opened BatchWriter

  // ---------------------------------------------------------------------
  // Names

  /** The year of an input file: the characters at offsets 5 to 8 of its
      name, clamped to the name's length. */
  function Year(name: string): (y: string)
    ensures |y| <= 4
    ensures |name| >= 9 ==> y == name[5..9]
  {
    var y := Slice(name, 5, 9);
    assert |name| >= 9 ==> y == name[5..9];
    y
  }

  /** The year is the four characters after a five-character prefix, such
      as `data_` in `data_2015.csv`. */
  lemma YearOf(prefix: string, year: string, rest: string)
    requires |prefix| == 5 && |year| == 4
    ensures Year(prefix + year + rest) == year
  {
    var name := prefix + year + rest;
    assert forall k :: 0 <= k < 4 ==> name[5 + k] == year[k];
  }

  /** The name of the output file of slot `index` of a year, the slots
      counting from 0 and the names from 1: the year, an underscore, the
      decimal number `index + 1` and the extension `.json`. */
  function OutputName(year: string, index: nat): string {
    year + "_" + NatToString(index + 1) + ".json"
  }

  /** An output name is made of the year, `_`, the digits of `index + 1`
      and `.json`, and its digits read back as `index + 1`. */
  lemma OutputNameParts(year: string, index: nat)
    ensures var s := OutputName(year, index);
            && |s| == |year| + 1 + |NatToString(index + 1)| + 5
            && s[..|year|] == year && s[|year|] == '_' && s[|s| - 5..] == ".json"
            && s[|year| + 1..|s| - 5] == NatToString(index + 1)
            && ParseDigits(s[|year| + 1..|s| - 5]) == index + 1
  {
    var d := NatToString(index + 1);
    var s := OutputName(year, index);
    assert s == year + ("_" + d + ".json");
    assert s[|year| + 1..|s| - 5] == d;
    ParseNatToString(index + 1);
  }

  /** Distinct slots of one year have distinct output files. */
  lemma OutputNamesDistinct(year: string, i: nat, j: nat)
    requires i != j
    ensures OutputName(year, i) != OutputName(year, j)
  {
    OutputNameParts(year, i);
    OutputNameParts(year, j);
  }

  /** Output names of years of the same length differ when the years do. */
  lemma OutputNamesOfYears(y: string, y': string, i: nat, j: nat)
    requires |y| == |y'| && y != y'
    ensures OutputName(y, i) != OutputName(y', j)
  {
    OutputNameParts(y, i);
    OutputNameParts(y', j);
  }

  // ---------------------------------------------------------------------
  // How many output files

  /** `s` is the ceiling of `n / max`. */
  predicate IsCeil(n: nat, max: int, s: nat) {
    n <= s * max && (s == 0 || (s - 1) * max < n)
  }

  /** The number of output files for `n` records: the ceiling of `n`
      over the limit, None where the division raises ZeroDivisionError. A negative limit
      gives a ceiling of at most zero and so no turn. */
  function FilesNeeded(n: nat, max: int): (s: Option<nat>)
    ensures s.None? <==> max == 0
    ensures max < 0 ==> s == Some(0)
    ensures max >= 1 ==> s.Some? && IsCeil(n, max, s.value)
  {
    if max == 0 then None
    else if max < 0 then Some(0)
    else
      var q := (n + max - 1) / max;
      CeilBounds(n, max, q);
      Some(q)
  }

  lemma CeilBounds(n: nat, max: int, q: int)
    requires max >= 1 && q == (n + max - 1) / max
    ensures q >= 0 && IsCeil(n, max, q)
  {
    var r := (n + max - 1) % max;
    assert q * max + r == n + max - 1 && 0 <= r < max;
    assert (q - 1) * max == q * max - max;
    LessByFactor(-1, q, max);
  }

  /** Comparing two multiples of a positive number compares the factors. */
  lemma LessByFactor(a: int, b: int, m: int)
    requires m >= 1 && a * m < b * m
    ensures a < b
  {
    assert (b - a) * m == b * m - a * m;
  }

  /** The ceiling is unique; no output file is needed exactly when there
      are no records. */
  lemma CeilUnique(n: nat, max: int, s: nat, t: nat)
    requires max >= 1 && IsCeil(n, max, s) && IsCeil(n, max, t)
    ensures s == t
    ensures s == 0 <==> n == 0
  {
    CeilAtMost(n, max, s, t);
    CeilAtMost(n, max, t, s);
    if n == 0 {
      assert IsCeil(0, max, 0);
      CeilAtMost(n, max, s, 0);
    }
  }

  lemma CeilAtMost(n: nat, max: int, s: nat, t: nat)
    requires max >= 1 && IsCeil(n, max, s) && IsCeil(n, max, t)
    ensures s <= t
  {
    if s != 0 {
      LessByFactor(s - 1, t, max);
    }
  }

  // ---------------------------------------------------------------------
  // Batches of records

  /** The records cut into consecutive batches of `max`, the last one
      possibly shorter. */
  function Chunks(rs: seq<Record>, max: nat): (cs: seq<seq<Record>>)
    requires max >= 1
    ensures cs == [] <==> rs == []
    decreases |rs|
  {
    if rs == [] then []
    else
      var m := if |rs| < max then |rs| else max;
      [rs[..m]] + Chunks(rs[m..], max)
  }

  function Flatten(cs: seq<seq<Record>>): seq<Record> {
    if cs == [] then [] else cs[0] + Flatten(cs[1..])
  }

  /** The batches hold all the records, in order. */
  lemma {:induction false} ChunksFlatten(rs: seq<Record>, max: nat)
    requires max >= 1
    ensures Flatten(Chunks(rs, max)) == rs
    decreases |rs|
  {
    if rs != [] {
      var m := if |rs| < max then |rs| else max;
      var cs := Chunks(rs, max);
      ChunksFlatten(rs[m..], max);
      assert cs[0] == rs[..m] && cs[1..] == Chunks(rs[m..], max);
      assert rs == rs[..m] + rs[m..];
    }
  }

  /** Every batch is non-empty and at most `max` long, and all but the last
      are exactly `max` long. */
  lemma {:induction false} ChunksSizes(rs: seq<Record>, max: nat)
    requires max >= 1
    ensures var cs := Chunks(rs, max);
            forall k :: 0 <= k < |cs| ==> 1 <= |cs[k]| <= max && (k < |cs| - 1 ==> |cs[k]| == max)
    decreases |rs|
  {
    if rs != [] {
      var m := if |rs| < max then |rs| else max;
      var cs := Chunks(rs, max);
      ChunksSizes(rs[m..], max);
      assert cs[1..] == Chunks(rs[m..], max);
      forall k | 1 <= k < |cs|
        ensures 1 <= |cs[k]| <= max && (k < |cs| - 1 ==> |cs[k]| == max)
      {
        assert cs[k] == cs[1..][k - 1];
      }
      if |cs| > 1 {
        assert rs[m..] != [];
      }
    }
  }

  /** There are as many batches as `main` provides output files for. */
  lemma {:induction false} ChunksCount(rs: seq<Record>, max: nat)
    requires max >= 1
    ensures FilesNeeded(|rs|, max) == Some(|Chunks(rs, max)|)
    decreases |rs|
  {
    var n := |rs|;
    var s := FilesNeeded(n, max).value;
    if rs == [] {
      assert IsCeil(0, max, 0);
      CeilUnique(0, max, s, 0);
    } else {
      var m := if n < max then n else max;
      ChunksCount(rs[m..], max);
      var q := FilesNeeded(n - m, max).value;
      assert |Chunks(rs, max)| == 1 + q;
      assert (q + 1) * max == q * max + max;
      if n < max {
        CeilUnique(0, max, q, 0);
      } else {
        assert (q - 1) * max == q * max - max;
      }
      assert IsCeil(n, max, q + 1);
      CeilUnique(n, max, s, q + 1);
    }
  }

  // ---------------------------------------------------------------------
  // The output files of one input file

  /** Where `main` is after some slots of one input file: the input
      cursor, the output directory, the vocabulary, the number of records
      converted, and whether no exception was raised. */
  datatype Run = Run(pos: nat, files: map<string, string>, vocab: set<string>, converted: int, ok: bool)

  /** The loop over the output slots from slot `j` of `slots`, as written: a
      slot whose file exists is skipped without reading any input; any
      other slot gets the next batch from the shared input cursor. An
      IndexError leaves the half-written file behind and ends the run
      without adding that call's count. */
  function SlotLoop(ks: seq<LineKind>, pos: nat, j: nat, slots: nat, files: map<string, string>,
                    vocab: set<string>, converted: int, max: int, year: string): (r: Run)
    requires pos <= |ks| && j <= slots
    ensures pos <= r.pos <= |ks|
    decreases slots - j
  {
    if j == slots then Run(pos, files, vocab, converted, true)
    else
      var name := OutputName(year, j);
      if name in files then SlotLoop(ks, pos, j + 1, slots, files, vocab, converted, max, year)
      else
        var b := WriteLoop(ks, pos, 0, "[", vocab, max, year);
        var files' := files[name := b.text];
        if !b.ok then Run(b.end, files', b.vocab, converted, false)
        else SlotLoop(ks, b.end, j + 1, slots, files', b.vocab, converted + b.count, max, year)
  }

  /** Proof step: a slot whose file exists is skipped and reads nothing. */
  lemma SlotSkipped(ks: seq<LineKind>, pos: nat, j: nat, slots: nat, files: map<string, string>,
                    vocab: set<string>, converted: int, max: int, year: string)
    requires pos <= |ks| && j < slots && OutputName(year, j) in files
    ensures SlotLoop(ks, pos, j, slots, files, vocab, converted, max, year)
            == SlotLoop(ks, pos, j + 1, slots, files, vocab, converted, max, year)
  {
  }

  /** Proof step: a slot whose file is absent gets the next batch and the
      run goes on from where the batch stopped reading. */
  lemma SlotWritten(ks: seq<LineKind>, pos: nat, j: nat, slots: nat, files: map<string, string>,
                    vocab: set<string>, converted: int, max: int, year: string,
                    pos': nat, files': map<string, string>, vocab': set<string>, converted': int)
    requires pos <= |ks| && j < slots && OutputName(year, j) !in files
    requires var b := WriteLoop(ks, pos, 0, "[", vocab, max, year);
             b.ok && pos' == b.end && files' == files[OutputName(year, j) := b.text]
             && vocab' == b.vocab && converted' == converted + b.count
    ensures pos' <= |ks|
    ensures SlotLoop(ks, pos, j, slots, files, vocab, converted, max, year)
            == SlotLoop(ks, pos', j + 1, slots, files', vocab', converted', max, year)
  {
  }

  /** Proof step: SlotWritten for the result `b` of the slot's call. */
  lemma SlotWrites(ks: seq<LineKind>, pos: nat, j: nat, slots: nat, files: map<string, string>,
                   vocab: set<string>, converted: int, max: int, year: string,
                   b: BatchResult, files': map<string, string>)
    requires pos <= |ks| && j < slots && OutputName(year, j) !in files
    requires b == WriteLoop(ks, pos, 0, "[", vocab, max, year) && b.ok
    requires files' == Put(files, OutputName(year, j), b.text)
    ensures SlotLoop(ks, pos, j, slots, files, vocab, converted, max, year)
            == SlotLoop(ks, b.end, j + 1, slots, files', b.vocab, converted + b.count, max, year)
  {
  }

  /** Proof step: a slot whose batch raises ends the run with the file
      written so far. */
  lemma SlotFailed(ks: seq<LineKind>, pos: nat, j: nat, slots: nat, files: map<string, string>,
                   vocab: set<string>, converted: int, max: int, year: string,
                   pos': nat, files': map<string, string>, vocab': set<string>)
    requires pos <= |ks| && j < slots && OutputName(year, j) !in files
    requires var b := WriteLoop(ks, pos, 0, "[", vocab, max, year);
             !b.ok && pos' == b.end && files' == files[OutputName(year, j) := b.text] && vocab' == b.vocab
    ensures SlotLoop(ks, pos, j, slots, files, vocab, converted, max, year) == Run(pos', files', vocab', converted, false)
  {
  }

  /** One input file named `name` with line kinds `ks`, of which `count`
      are record lines. */
  function FileRun(ks: seq<LineKind>, count: nat, name: string, files: map<string, string>,
                   vocab: set<string>, max: int): (r: Run)
    ensures max == 0 ==> !r.ok && r.files == files && r.converted == 0
    ensures max < 0 ==> r.ok && r.files == files && r.vocab == vocab && r.converted == 0
    ensures Keeps(files, r.files)
  {
    match FilesNeeded(count, max)
    case None => Run(0, files, vocab, 0, false)
    case Some(slots) =>
      SlotLoopKeeps(ks, 0, 0, slots, files, vocab, 0, max, Year(name));
      SlotLoop(ks, 0, 0, slots, files, vocab, 0, max, Year(name))
  }

  /** The text of an output file holding one batch. */
  function BatchFile(year: string, batch: seq<Record>): string {
    "[" + Docs(year, true, batch) + "\n]"
  }

  /** Creates a file unless it exists. */
  function Put(files: map<string, string>, name: string, text: string): map<string, string> {
    if name in files then files else files[name := text]
  }

  /** Puts `texts[k]` to file `names[k]` for each `k` in turn. */
  function PutAll(files: map<string, string>, names: seq<string>, texts: seq<string>): map<string, string>
    requires |names| == |texts|
    decreases |names|
  {
    if names == [] then files else PutAll(Put(files, names[0], texts[0]), names[1..], texts[1..])
  }

  /** File `name` of `w` is the one of `files`, or `text` where `files`
      has none. */
  predicate Holds(w: map<string, string>, files: map<string, string>, name: string, text: string) {
    name in w && w[name] == if name in files then files[name] else text
  }

  predicate Distinct(names: seq<string>) {
    forall a, b :: 0 <= a < b < |names| ==> names[a] != names[b]
  }

  /** Each of distinct names gets its text, unless its file existed. */
  lemma {:induction false} PutAllSlot(files: map<string, string>, names: seq<string>, texts: seq<string>, k: nat)
    requires |names| == |texts| && Distinct(names) && k < |names|
    ensures Holds(PutAll(files, names, texts), files, names[k], texts[k])
    decreases |names|
  {
    var files' := Put(files, names[0], texts[0]);
    if k == 0 {
      PutAllKeeps(files', names[1..], texts[1..]);
    } else {
      assert names[1..][k - 1] == names[k] && texts[1..][k - 1] == texts[k];
      assert names[0] != names[k];
      PutAllSlot(files', names[1..], texts[1..], k - 1);
    }
  }

  /** No file that exists is changed. */
  lemma {:induction false} PutAllKeeps(files: map<string, string>, names: seq<string>, texts: seq<string>)
    requires |names| == |texts|
    ensures var w := PutAll(files, names, texts);
            forall nm :: nm in files ==> nm in w && w[nm] == files[nm]
    decreases |names|
  {
    if names != [] {
      var files' := Put(files, names[0], texts[0]);
      PutAllKeeps(files', names[1..], texts[1..]);
      assert forall nm :: nm in files ==> nm in files' && files'[nm] == files[nm];
    }
  }

  /** Only the named files are created. */
  lemma {:induction false} PutAllOnly(files: map<string, string>, names: seq<string>, texts: seq<string>)
    requires |names| == |texts|
    ensures forall nm :: nm in PutAll(files, names, texts) ==> nm in files || nm in names
    decreases |names|
  {
    if names != [] {
      var files' := Put(files, names[0], texts[0]);
      PutAllOnly(files', names[1..], texts[1..]);
      assert forall nm :: nm in files' ==> nm in files || nm == names[0];
      assert forall nm :: nm in names[1..] ==> nm in names;
    }
  }

  /** The output names of the slots from `j` on. */
  function SlotNames(year: string, j: nat, n: nat): (names: seq<string>)
    ensures |names| == n
    decreases n
  {
    if n == 0 then [] else [OutputName(year, j)] + SlotNames(year, j + 1, n - 1)
  }

  lemma {:induction false} SlotNamesAt(year: string, j: nat, n: nat)
    ensures forall i :: 0 <= i < n ==> SlotNames(year, j, n)[i] == OutputName(year, j + i)
    decreases n
  {
    if n > 0 {
      SlotNamesAt(year, j + 1, n - 1);
      var names := SlotNames(year, j, n);
      assert forall i :: 1 <= i < n ==> names[i] == SlotNames(year, j + 1, n - 1)[i - 1];
    }
  }

  lemma SlotNamesDistinct(year: string, j: nat, n: nat)
    ensures Distinct(SlotNames(year, j, n))
  {
    SlotNamesAt(year, j, n);
    forall a, b | 0 <= a < b < n
      ensures SlotNames(year, j, n)[a] != SlotNames(year, j, n)[b]
    {
      OutputNamesDistinct(year, j + a, j + b);
    }
  }

  /** The texts of the batches. */
  function BatchFiles(year: string, cs: seq<seq<Record>>): (texts: seq<string>)
    ensures |texts| == |cs|
  {
    if cs == [] then [] else [BatchFile(year, cs[0])] + BatchFiles(year, cs[1..])
  }

  lemma {:induction false} BatchFileAt(year: string, cs: seq<seq<Record>>, k: nat)
    requires k < |cs|
    ensures BatchFiles(year, cs)[k] == BatchFile(year, cs[k])
    decreases k
  {
    if k > 0 {
      BatchFileAt(year, cs[1..], k - 1);
      assert cs[1..][k - 1] == cs[k];
    }
  }


  /** The directory after the batches `cs` are given to the slots from
      `j` on, one file per batch, where a slot whose file exists keeps it. */
  function Written(files: map<string, string>, year: string, j: nat, cs: seq<seq<Record>>): map<string, string>
    decreases |cs|
  {
    if cs == [] then files
    else Written(Put(files, OutputName(year, j), BatchFile(year, cs[0])), year, j + 1, cs[1..])
  }

  lemma {:induction false} WrittenPutAll(files: map<string, string>, year: string, j: nat, cs: seq<seq<Record>>)
    ensures Written(files, year, j, cs) == PutAll(files, SlotNames(year, j, |cs|), BatchFiles(year, cs))
    decreases |cs|
  {
    if cs != [] {
      var names := SlotNames(year, j, |cs|);
      var texts := BatchFiles(year, cs);
      WrittenPutAll(Put(files, OutputName(year, j), BatchFile(year, cs[0])), year, j + 1, cs[1..]);
      assert names[0] == OutputName(year, j) && names[1..] == SlotNames(year, j + 1, |cs| - 1);
      assert texts[0] == BatchFile(year, cs[0]) && texts[1..] == BatchFiles(year, cs[1..]);
    }
  }

  /** Slot `i` holds the batch of that slot, unless its file existed
      before. */
  lemma WrittenSlot(files: map<string, string>, year: string, j: nat, cs: seq<seq<Record>>, i: nat)
    requires j <= i < j + |cs|
    ensures Holds(Written(files, year, j, cs), files, OutputName(year, i), BatchFile(year, cs[i - j]))
  {
    var names := SlotNames(year, j, |cs|);
    var texts := BatchFiles(year, cs);
    WrittenPutAll(files, year, j, cs);
    SlotNamesAt(year, j, |cs|);
    SlotNamesDistinct(year, j, |cs|);
    BatchFileAt(year, cs, i - j);
    PutAllSlot(files, names, texts, i - j);
    assert names[i - j] == OutputName(year, i);
  }

  /** Existing files are unchanged. */
  lemma WrittenKeeps(files: map<string, string>, year: string, j: nat, cs: seq<seq<Record>>)
    ensures var w := Written(files, year, j, cs);
            forall nm :: nm in files ==> nm in w && w[nm] == files[nm]
  {
    WrittenPutAll(files, year, j, cs);
    PutAllKeeps(files, SlotNames(year, j, |cs|), BatchFiles(year, cs));
  }

  /** No file other than the slots' is created. */
  lemma WrittenOnly(files: map<string, string>, year: string, j: nat, cs: seq<seq<Record>>)
    ensures forall nm :: nm in Written(files, year, j, cs) ==>
              nm in files || exists i :: j <= i < j + |cs| && nm == OutputName(year, i)
  {
    var names := SlotNames(year, j, |cs|);
    WrittenPutAll(files, year, j, cs);
    PutAllOnly(files, names, BatchFiles(year, cs));
    SlotNamesAt(year, j, |cs|);
    forall nm | nm in names
      ensures exists i :: j <= i < j + |cs| && nm == OutputName(year, i)
    {
      var k :| 0 <= k < |names| && names[k] == nm;
      assert nm == OutputName(year, j + k);
    }
  }

  /** The outcome of the slots from `j` on with a fresh directory: no
      exception, `n` more records converted, no record left unread, and
      the batches `cs` written to the slots in order. */
  predicate FreshOutcome(r: Run, ks: seq<LineKind>, converted: int, n: nat,
                         files: map<string, string>, year: string, j: nat, cs: seq<seq<Record>>)
    requires r.pos <= |ks|
  {
    r.ok && r.converted == converted + n && RecordsIn(ks, r.pos, |ks|) == [] && r.files == Written(files, year, j, cs)
  }

  /** With none of the slots' files present and well-formed input, every
      slot gets the next batch of `max` records: all records are converted
      and read, and the directory gains one file per batch. */
  lemma {:induction false} SlotLoopFresh(ks: seq<LineKind>, pos: nat, j: nat, slots: nat, files: map<string, string>,
                                       vocab: set<string>, converted: int, max: int, year: string,
                                       cs: seq<seq<Record>>, n: nat)
    requires pos <= |ks| && j <= slots && max >= 1 && WellFormedIn(ks, pos, |ks|)
    requires cs == Chunks(RecordsIn(ks, pos, |ks|), max) && n == |RecordsIn(ks, pos, |ks|)|
    requires slots - j == |cs| && FreshSlots(files, year, j, slots)
    ensures FreshOutcome(SlotLoop(ks, pos, j, slots, files, vocab, converted, max, year), ks, converted, n, files, year, j, cs)
    decreases slots - j
  {
    if j < slots {
      var pos', files', vocab', converted', rest := FreshNext(ks, pos, j, slots, files, vocab, converted, max, year, cs, n);
      SlotLoopFresh(ks, pos', j + 1, slots, files', vocab', converted', max, year, cs[1..], rest);
    } else {
      assert RecordsIn(ks, pos, |ks|) == [];
    }
  }

  /** The step of SlotLoopFresh: the state after the first slot, which
      meets the lemma's requirements for the next slot, and from whose
      outcome the outcome from slot `j` follows. */
  lemma FreshNext(ks: seq<LineKind>, pos: nat, j: nat, slots: nat, files: map<string, string>,
                  vocab: set<string>, converted: int, max: int, year: string, cs: seq<seq<Record>>, n: nat)
    returns (pos': nat, files': map<string, string>, vocab': set<string>, converted': int, rest: nat)
    requires pos <= |ks| && j < slots && max >= 1 && WellFormedIn(ks, pos, |ks|)
    requires cs == Chunks(RecordsIn(ks, pos, |ks|), max) && n == |RecordsIn(ks, pos, |ks|)|
    requires slots - j == |cs| && FreshSlots(files, year, j, slots)
    ensures pos' <= |ks| && WellFormedIn(ks, pos', |ks|)
    ensures cs[1..] == Chunks(RecordsIn(ks, pos', |ks|), max) && rest == |RecordsIn(ks, pos', |ks|)|
    ensures slots - (j + 1) == |cs[1..]| && FreshSlots(files', year, j + 1, slots)
    ensures FreshOutcome(SlotLoop(ks, pos', j + 1, slots, files', vocab', converted', max, year),
                         ks, converted', rest, files', year, j + 1, cs[1..])
            ==> FreshOutcome(SlotLoop(ks, pos, j, slots, files, vocab, converted, max, year), ks, converted, n, files, year, j, cs)
  {
    var b := WriteLoop(ks, pos, 0, "[", vocab, max, year);
    FirstBatch(ks, pos, vocab, max, year, b, cs);
    pos', vocab', converted' := b.end, b.vocab, converted + b.count;
    files' := Put(files, OutputName(year, j), BatchFile(year, cs[0]));
    FreshAfterPut(files, year, j, slots, BatchFile(year, cs[0]));
    rest := |RecordsIn(ks, b.end, |ks|)|;
    var r' := SlotLoop(ks, pos', j + 1, slots, files', vocab', converted', max, year);
    if FreshOutcome(r', ks, converted', rest, files', year, j + 1, cs[1..]) {
      FreshStep(ks, pos, j, slots, files, vocab, converted, max, year, b, cs, files', rest, n, r');
    }
  }

  /** None of the files of the slots from `j` up to `slots` exists. */
  predicate FreshSlots(files: map<string, string>, year: string, j: nat, slots: nat) {
    forall k :: j <= k < slots ==> OutputName(year, k) !in files
  }

  lemma FreshAfterPut(files: map<string, string>, year: string, j: nat, slots: nat, text: string)
    requires FreshSlots(files, year, j, slots)
    ensures FreshSlots(Put(files, OutputName(year, j), text), year, j + 1, slots)
  {
    forall k | j < k < slots
      ensures OutputName(year, k) != OutputName(year, j)
    {
      OutputNamesDistinct(year, j, k);
    }
  }

  /** The step of SlotLoopFresh: the first slot gets the first batch, and
      the later slots the others. */
  lemma FreshStep(ks: seq<LineKind>, pos: nat, j: nat, slots: nat, files: map<string, string>,
                  vocab: set<string>, converted: int, max: int, year: string,
                  b: BatchResult, cs: seq<seq<Record>>, files': map<string, string>, rest: nat, n: nat, r': Run)
    requires pos <= |ks| && j < slots && OutputName(year, j) !in files && cs != []
    requires max >= 1 && WellFormedIn(ks, pos, |ks|) && cs == Chunks(RecordsIn(ks, pos, |ks|), max)
    requires b == WriteLoop(ks, pos, 0, "[", vocab, max, year) && b.ok && n == b.count + rest
    requires files' == Put(files, OutputName(year, j), BatchFile(year, cs[0]))
    requires r' == SlotLoop(ks, b.end, j + 1, slots, files', b.vocab, converted + b.count, max, year)
    requires FreshOutcome(r', ks, converted + b.count, rest, files', year, j + 1, cs[1..])
    ensures FreshOutcome(SlotLoop(ks, pos, j, slots, files, vocab, converted, max, year), ks, converted, n, files, year, j, cs)
  {
    FirstBatchText(ks, pos, vocab, max, year, b, cs);
    SlotWrites(ks, pos, j, slots, files, vocab, converted, max, year, b, files');
  }

  /** On well-formed input, one call of `write_content` for a fresh
      file consumes the first batch and leaves the cursor before the
      others. */
  lemma FirstBatch(ks: seq<LineKind>, pos: nat, vocab: set<string>, max: int, year: string,
                   b: BatchResult, cs: seq<seq<Record>>)
    requires pos <= |ks| && max >= 1 && WellFormedIn(ks, pos, |ks|)
    requires b == WriteLoop(ks, pos, 0, "[", vocab, max, year)
    requires cs == Chunks(RecordsIn(ks, pos, |ks|), max) && cs != []
    ensures b.ok && b.count == |cs[0]|
    ensures |RecordsIn(ks, pos, |ks|)| == |cs[0]| + |RecordsIn(ks, b.end, |ks|)|
    ensures cs[1..] == Chunks(RecordsIn(ks, b.end, |ks|), max)
    ensures WellFormedIn(ks, b.end, |ks|)
  {
    var rs := RecordsIn(ks, pos, |ks|);
    WriteLoopBatch(ks, pos, 0, "[", vocab, max, year);
    var m := if |rs| < max then |rs| else max;
    assert Chunks(rs, max) == [rs[..m]] + Chunks(rs[m..], max);
  }

  /** ... and writes the first batch. */
  lemma FirstBatchText(ks: seq<LineKind>, pos: nat, vocab: set<string>, max: int, year: string,
                       b: BatchResult, cs: seq<seq<Record>>)
    requires pos <= |ks| && max >= 1 && WellFormedIn(ks, pos, |ks|)
    requires b == WriteLoop(ks, pos, 0, "[", vocab, max, year)
    requires cs == Chunks(RecordsIn(ks, pos, |ks|), max) && cs != []
    ensures b.text == BatchFile(year, cs[0])
  {
    var rs := RecordsIn(ks, pos, |ks|);
    WriteLoopBatch(ks, pos, 0, "[", vocab, max, year);
    var m := if |rs| < max then |rs| else max;
    assert Chunks(rs, max) == [rs[..m]] + Chunks(rs[m..], max);
  }

  /** One input file converted into a directory holding none of its
      year's output files: when every record line has the six fields, the
      run completes, converts each of the `count_elements_in_file` records
      once, and writes the `k`-th batch of `max` records, in input order, to
      `{year}_{k + 1}.json`. */
  lemma FreshFile(lines: seq<string>, name: string, files: map<string, string>, vocab: set<string>, max: int,
                  nMaxSplits: int, stem: string -> string, stopWords: set<string>)
    requires max >= 1
    requires forall i :: 0 <= i < |lines| && IsRecord(lines[i]) ==> |Fields(lines[i], nMaxSplits)| >= 6
    requires forall k: nat :: OutputName(Year(name), k) !in files
    ensures var ks := Classified(lines, nMaxSplits, stem, stopWords);
            var rs := RecordsIn(ks, 0, |ks|);
            && |rs| == CountRecords(lines)
            && FreshOutcome(FileRun(ks, CountRecords(lines), name, files, vocab, max), ks, 0, |rs|,
                            files, Year(name), 0, Chunks(rs, max))
  {
    var ks := Classified(lines, nMaxSplits, stem, stopWords);
    var rs := RecordsIn(ks, 0, |ks|);
    ClassifiedWellFormed(lines, nMaxSplits, stem, stopWords);
    ClassifiedCount(lines, nMaxSplits, stem, stopWords);
    RecordsInCount(ks, 0, |ks|);
    ChunksCount(rs, max);
    SlotLoopFresh(ks, 0, 0, |Chunks(rs, max)|, files, vocab, 0, max, Year(name), Chunks(rs, max), |rs|);
  }

  /** With none of the slots' files present, every full batch of `max`
      records that lies before position `e`, up to which no line raises,
      is written intact to its slot, whatever the lines from `e` on hold:
      a raising line further on does not touch the files already closed. */
  lemma {:induction false} SlotLoopFreshPrefix(ks: seq<LineKind>, pos: nat, e: nat, j: nat, slots: nat,
                                             files: map<string, string>, vocab: set<string>, converted: int,
                                             max: int, year: string, k: nat)
    requires pos <= e <= |ks| && WellFormedIn(ks, pos, e)
    requires j + k < slots && max >= 1 && FreshSlots(files, year, j, slots)
    requires (k + 1) * max <= |RecordsIn(ks, pos, e)|
    ensures HoldsBatch(SlotLoop(ks, pos, j, slots, files, vocab, converted, max, year).files,
                       year, j + k, Chunks(RecordsIn(ks, pos, e), max), k)
    decreases k
  {
    var pos', files', vocab', converted' := PrefixStep(ks, pos, e, j, slots, files, vocab, converted, max, year, k);
    if k > 0 {
      SlotLoopFreshPrefix(ks, pos', e, j + 1, slots, files', vocab', converted', max, year, k - 1);
    }
  }

  /** The step of SlotLoopFreshPrefix: the state after the first slot,
      which meets the lemma's requirements for the next slot, and from
      whose outcome the outcome from slot `j` follows. */
  lemma PrefixStep(ks: seq<LineKind>, pos: nat, e: nat, j: nat, slots: nat, files: map<string, string>,
                   vocab: set<string>, converted: int, max: int, year: string, k: nat)
    returns (pos': nat, files': map<string, string>, vocab': set<string>, converted': int)
    requires pos <= e <= |ks| && WellFormedIn(ks, pos, e)
    requires j + k < slots && max >= 1 && FreshSlots(files, year, j, slots)
    requires (k + 1) * max <= |RecordsIn(ks, pos, e)|
    ensures pos' <= e && WellFormedIn(ks, pos', e) && FreshSlots(files', year, j + 1, slots)
    ensures k > 0 ==> k * max <= |RecordsIn(ks, pos', e)|
    ensures var w := SlotLoop(ks, pos, j, slots, files, vocab, converted, max, year).files;
            var w' := SlotLoop(ks, pos', j + 1, slots, files', vocab', converted', max, year).files;
            (k == 0 || HoldsBatch(w', year, j + k, Chunks(RecordsIn(ks, pos', e), max), k - 1))
            ==> HoldsBatch(w, year, j + k, Chunks(RecordsIn(ks, pos, e), max), k)
  {
    var rs := RecordsIn(ks, pos, e);
    pos', files', vocab', converted' := PrefixNext(ks, pos, e, j, slots, files, vocab, converted, max, year);
    var w' := SlotLoop(ks, pos', j + 1, slots, files', vocab', converted', max, year).files;
    var cs' := Chunks(rs[max..], max);
    assert Chunks(rs, max) == [rs[..max]] + cs';
    assert cs' == Chunks(RecordsIn(ks, pos', e), max);
    assert SlotLoop(ks, pos, j, slots, files, vocab, converted, max, year).files == w';
    if k == 0 {
      SlotLoopKeeps(ks, pos', j + 1, slots, files', vocab', converted', max, year);
      HoldsFirst(files', w', year, j, Chunks(rs, max), rs[..max]);
    } else {
      assert k * max <= |rs[max..]| by {
        assert (k + 1) * max == k * max + max;
      }
      if HoldsBatch(w', year, j + k, cs', k - 1) {
        HoldsShift(w', year, j + k, Chunks(rs, max), rs[..max], cs', k);
      }
    }
  }

  /** The file of slot `i` in `w` holds batch `k` of `cs`. */
  predicate HoldsBatch(w: map<string, string>, year: string, i: nat, cs: seq<seq<Record>>, k: nat) {
    k < |cs| && OutputName(year, i) in w && w[OutputName(year, i)] == BatchFile(year, cs[k])
  }

  lemma HoldsFirst(files: map<string, string>, w: map<string, string>, year: string, j: nat,
                   cs: seq<seq<Record>>, c: seq<Record>)
    requires Keeps(files, w) && cs != [] && cs[0] == c
    requires OutputName(year, j) in files && files[OutputName(year, j)] == BatchFile(year, c)
    ensures HoldsBatch(w, year, j, cs, 0)
  {
  }

  lemma HoldsShift(w: map<string, string>, year: string, i: nat, cs: seq<seq<Record>>, c: seq<Record>,
                   cs': seq<seq<Record>>, k: nat)
    requires cs == [c] + cs' && 0 < k && HoldsBatch(w, year, i, cs', k - 1)
    ensures HoldsBatch(w, year, i, cs, k)
  {
  }

  /** The step of SlotLoopFreshPrefix: the first slot's call takes the
      first `max` records before `e`, closes the file, and leaves the
      cursor before the others. */
  lemma PrefixNext(ks: seq<LineKind>, pos: nat, e: nat, j: nat, slots: nat, files: map<string, string>,
                   vocab: set<string>, converted: int, max: int, year: string)
    returns (pos': nat, files': map<string, string>, vocab': set<string>, converted': int)
    requires pos <= e <= |ks| && WellFormedIn(ks, pos, e)
    requires j < slots && max >= 1 && FreshSlots(files, year, j, slots)
    requires max <= |RecordsIn(ks, pos, e)|
    ensures pos' <= e && WellFormedIn(ks, pos', e)
    ensures var rs := RecordsIn(ks, pos, e);
            RecordsIn(ks, pos', e) == rs[max..]
            && OutputName(year, j) in files' && files'[OutputName(year, j)] == BatchFile(year, rs[..max])
    ensures FreshSlots(files', year, j + 1, slots)
    ensures SlotLoop(ks, pos, j, slots, files, vocab, converted, max, year)
            == SlotLoop(ks, pos', j + 1, slots, files', vocab', converted', max, year)
  {
    var b := WriteLoop(ks, pos, 0, "[", vocab, max, year);
    WriteLoopWithin(ks, pos, e, 0, "[", vocab, max, year);
    WriteLoopWrites(ks, pos, 0, "[", vocab, max, year);
    WriteLoopStops(ks, pos, 0, "[", vocab, max, year);
    var rs := RecordsIn(ks, pos, e);
    var taken := RecordsIn(ks, pos, b.end);
    RecordsInSplit(ks, pos, b.end, e);
    if b.end == |ks| {
      assert RecordsIn(ks, b.end, e) == [];
    }
    assert |taken| == max;
    assert rs[..max] == taken;
    pos', files', vocab', converted' := b.end, files[OutputName(year, j) := b.text], b.vocab, converted + b.count;
    FreshAfterPut(files, year, j, slots, b.text);
    SlotWritten(ks, pos, j, slots, files, vocab, converted, max, year, pos', files', vocab', converted');
  }

  // ---------------------------------------------------------------------
  // Resuming into a directory that holds some of the files

  /** As written, a skipped slot reads no input, so the slot after it gets
      the batch the skipped slot stands for. Two records, one per file,
      and the first file present: the second file gets the first record
      again, and the second record is never converted. */
  lemma SkipRepeatsBatch(year: string, text: string)
    requires '"' !in year
    ensures var r1 := Record("a", "", "");
            var r2 := Record("b", "", "");
            var ks := [Good(r1, {}), Good(r2, {})];
            var files := map[OutputName(year, 0) := text];
            var r := SlotLoop(ks, 0, 0, 2, files, {}, 0, 1, year);
            && FilesNeeded(2, 1) == Some(2)
            && r.ok && r.converted == 1
            && r.files[OutputName(year, 1)] == BatchFile(year, [r1])
            && r.files[OutputName(year, 1)] != BatchFile(year, [r2])
            && RecordsIn(ks, r.pos, |ks|) == [r2]
  {
    var r1 := Record("a", "", "");
    var r2 := Record("b", "", "");
    var ks := [Good(r1, {}), Good(r2, {})];
    var files := map[OutputName(year, 0) := text];
    assert IsCeil(2, 1, 2);
    CeilUnique(2, 1, FilesNeeded(2, 1).value, 2);
    OutputNamesDistinct(year, 0, 1);
    var b := WriteLoop(ks, 0, 0, "[", {}, 1, year);
    WriteOneRecord(ks, 0, {}, year);
    var files' := Put(files, OutputName(year, 1), b.text);
    assert SlotLoop(ks, 0, 0, 2, files, {}, 0, 1, year) == SlotLoop(ks, 0, 1, 2, files, {}, 0, 1, year);
    SlotWrites(ks, 0, 1, 2, files, {}, 0, 1, year, b, files');
    assert RecordsIn(ks, 1, 2) == [r2];
    BatchFilesDiffer(year, r1, r2);
  }

  /** With a limit of one, a call of `write_content` at a record line
      writes that record alone. */
  lemma WriteOneRecord(ks: seq<LineKind>, pos: nat, vocab: set<string>, year: string)
    requires pos < |ks| && ks[pos].Good?
    ensures WriteLoop(ks, pos, 0, "[", vocab, 1, year)
            == BatchResult(1, BatchFile(year, [ks[pos].rec]), pos + 1, vocab + ks[pos].words, true)
  {
    var r := ks[pos].rec;
    var e := Encode(year, true, r.id, r.authors, r.title);
    assert Docs(year, true, [r]) == e + Docs(year, false, []);
  }

  /** Batches of one record with different ids make different files. */
  lemma BatchFilesDiffer(year: string, r1: Record, r2: Record)
    requires '"' !in year && r1.id != r2.id
    requires '"' !in r1.id && '"' !in r1.authors && '"' !in r1.title
    requires '"' !in r2.id && '"' !in r2.authors && '"' !in r2.title
    ensures BatchFile(year, [r1]) != BatchFile(year, [r2])
  {
    BatchFileOne(year, r1);
    BatchFileOne(year, r2);
    DecodeEncode(year, true, r1.id, r1.authors, r1.title);
    DecodeEncode(year, true, r2.id, r2.authors, r2.title);
  }

  /** A batch of one record is its document between the brackets. */
  lemma BatchFileOne(year: string, r: Record)
    ensures var f := BatchFile(year, [r]);
            |f| >= 3 && f[1..|f| - 2] == Encode(year, true, r.id, r.authors, r.title)
  {
    var e := Encode(year, true, r.id, r.authors, r.title);
    assert Docs(year, true, [r]) == e + Docs(year, false, []);
    assert BatchFile(year, [r]) == "[" + e + "\n]";
  }

  /** The slots as evidently intended: a slot whose file exists still
      reads its batch from the input, and only skips writing it. */
  function ResumeSlots(ks: seq<LineKind>, pos: nat, j: nat, slots: nat, files: map<string, string>,
                       vocab: set<string>, converted: int, max: int, year: string): (r: Run)
    requires pos <= |ks| && j <= slots
    ensures pos <= r.pos <= |ks|
    decreases slots - j
  {
    if j == slots then Run(pos, files, vocab, converted, true)
    else
      var name := OutputName(year, j);
      var b := WriteLoop(ks, pos, 0, "[", vocab, max, year);
      var files' := Put(files, name, b.text);
      var converted' := if name in files then converted else converted + b.count;
      if !b.ok then Run(b.end, files', b.vocab, converted, false)
      else ResumeSlots(ks, b.end, j + 1, slots, files', b.vocab, converted', max, year)
  }

  /** Proof step: one slot of ResumeSlots on input that does not raise. */
  lemma ResumeStep(ks: seq<LineKind>, pos: nat, j: nat, slots: nat, files: map<string, string>,
                   vocab: set<string>, converted: int, max: int, year: string,
                   b: BatchResult, files': map<string, string>, converted': int)
    requires pos <= |ks| && j < slots
    requires b == WriteLoop(ks, pos, 0, "[", vocab, max, year) && b.ok
    requires files' == Put(files, OutputName(year, j), b.text)
    requires converted' == if OutputName(year, j) in files then converted else converted + b.count
    ensures ResumeSlots(ks, pos, j, slots, files, vocab, converted, max, year)
            == ResumeSlots(ks, b.end, j + 1, slots, files', b.vocab, converted', max, year)
  {
  }

  /** The outcome of ResumeSlots from slot `j` on. */
  predicate ResumeOutcome(r: Run, ks: seq<LineKind>, files: map<string, string>, year: string, j: nat, cs: seq<seq<Record>>)
    requires r.pos <= |ks|
  {
    r.ok && RecordsIn(ks, r.pos, |ks|) == [] && r.files == Written(files, year, j, cs)
  }

  /** Whatever files exist, a resumed run on well-formed input gives every
      missing slot the batch a run from scratch gives it, and leaves the
      existing files alone. */
  lemma {:induction false} ResumeSlotsWritten(ks: seq<LineKind>, pos: nat, j: nat, slots: nat, files: map<string, string>,
                                            vocab: set<string>, converted: int, max: int, year: string)
    requires pos <= |ks| && j <= slots && max >= 1 && WellFormedIn(ks, pos, |ks|)
    requires slots - j == |Chunks(RecordsIn(ks, pos, |ks|), max)|
    ensures ResumeOutcome(ResumeSlots(ks, pos, j, slots, files, vocab, converted, max, year), ks,
                          files, year, j, Chunks(RecordsIn(ks, pos, |ks|), max))
    decreases slots - j
  {
    if j < slots {
      var name := OutputName(year, j);
      var b := WriteLoop(ks, pos, 0, "[", vocab, max, year);
      var cs := Chunks(RecordsIn(ks, pos, |ks|), max);
      FirstBatch(ks, pos, vocab, max, year, b, cs);
      FirstBatchText(ks, pos, vocab, max, year, b, cs);
      var files' := Put(files, name, b.text);
      var converted' := if name in files then converted else converted + b.count;
      ResumeSlotsWritten(ks, b.end, j + 1, slots, files', b.vocab, converted', max, year);
      ResumeStep(ks, pos, j, slots, files, vocab, converted, max, year, b, files', converted');
      var r := ResumeSlots(ks, pos, j, slots, files, vocab, converted, max, year);
      var r' := ResumeSlots(ks, b.end, j + 1, slots, files', b.vocab, converted', max, year);
      ResumeCons(r, r', ks, files, files', year, j, cs);
    } else {
      assert RecordsIn(ks, pos, |ks|) == [];
    }
  }

  lemma ResumeCons(r: Run, r': Run, ks: seq<LineKind>, files: map<string, string>, files': map<string, string>,
                   year: string, j: nat, cs: seq<seq<Record>>)
    requires r'.pos <= |ks| && cs != [] && r == r'
    requires files' == Put(files, OutputName(year, j), BatchFile(year, cs[0]))
    requires ResumeOutcome(r', ks, files', year, j + 1, cs[1..])
    ensures ResumeOutcome(r, ks, files, year, j, cs)
  {
  }

  /** Where none of the slots' files exists, the source's loop and the
      resumed one are the same. */
  lemma {:induction false} SlotLoopResumeFresh(ks: seq<LineKind>, pos: nat, j: nat, slots: nat, files: map<string, string>,
                                             vocab: set<string>, converted: int, max: int, year: string)
    requires pos <= |ks| && j <= slots
    requires forall k :: j <= k < slots ==> OutputName(year, k) !in files
    ensures SlotLoop(ks, pos, j, slots, files, vocab, converted, max, year)
            == ResumeSlots(ks, pos, j, slots, files, vocab, converted, max, year)
    decreases slots - j
  {
    if j < slots {
      var name := OutputName(year, j);
      var b := WriteLoop(ks, pos, 0, "[", vocab, max, year);
      var files' := files[name := b.text];
      if b.ok {
        forall k | j < k < slots
          ensures OutputName(year, k) !in files'
        {
          OutputNamesDistinct(year, j, k);
        }
        SlotLoopResumeFresh(ks, b.end, j + 1, slots, files', b.vocab, converted + b.count, max, year);
      }
    }
  }

  // ---------------------------------------------------------------------
  // The loop as written, whatever files exist

  /** Every file of `files` is in `w` with the same text. */
  predicate Keeps(files: map<string, string>, w: map<string, string>) {
    forall nm :: nm in files ==> nm in w && w[nm] == files[nm]
  }

  /** Every file of `w` was in `files` or is the file of a slot from `j`
      up to `slots`. */
  predicate OnlySlots(files: map<string, string>, w: map<string, string>, year: string, j: nat, slots: nat) {
    forall nm :: nm in w ==> nm in files || exists k :: j <= k < slots && nm == OutputName(year, k)
  }

  /** On any input and any directory, raising or not, the slot loop changes
      no existing file and creates no file but its slots' own. */
  lemma {:induction false} SlotLoopKeeps(ks: seq<LineKind>, pos: nat, j: nat, slots: nat, files: map<string, string>,
                                       vocab: set<string>, converted: int, max: int, year: string)
    requires pos <= |ks| && j <= slots
    ensures var w := SlotLoop(ks, pos, j, slots, files, vocab, converted, max, year).files;
            Keeps(files, w) && OnlySlots(files, w, year, j, slots)
    decreases slots - j
  {
    if j < slots {
      var name := OutputName(year, j);
      if name in files {
        SlotSkipped(ks, pos, j, slots, files, vocab, converted, max, year);
        SlotLoopKeeps(ks, pos, j + 1, slots, files, vocab, converted, max, year);
        OnlySlotsWiden(files, SlotLoop(ks, pos, j + 1, slots, files, vocab, converted, max, year).files, year, j, slots);
      } else {
        var more, pos', files', vocab', converted' := KeepsNext(ks, pos, j, slots, files, vocab, converted, max, year);
        if more {
          SlotLoopKeeps(ks, pos', j + 1, slots, files', vocab', converted', max, year);
        }
      }
    }
  }

  /** The step of SlotLoopKeeps at a missing slot: the run either ends
      there, keeping the files, or goes on from a state whose outcome
      gives the outcome from slot `j`. */
  lemma KeepsNext(ks: seq<LineKind>, pos: nat, j: nat, slots: nat, files: map<string, string>,
                  vocab: set<string>, converted: int, max: int, year: string)
    returns (more: bool, pos': nat, files': map<string, string>, vocab': set<string>, converted': int)
    requires pos <= |ks| && j < slots && OutputName(year, j) !in files
    ensures pos' <= |ks|
    ensures var w := SlotLoop(ks, pos, j, slots, files, vocab, converted, max, year).files;
            var w' := SlotLoop(ks, pos', j + 1, slots, files', vocab', converted', max, year).files;
            (!more || (Keeps(files', w') && OnlySlots(files', w', year, j + 1, slots)))
            ==> Keeps(files, w) && OnlySlots(files, w, year, j, slots)
  {
    var name := OutputName(year, j);
    var b := WriteLoop(ks, pos, 0, "[", vocab, max, year);
    more, pos', files', vocab', converted' := b.ok, b.end, files[name := b.text], b.vocab, converted + b.count;
    if b.ok {
      SlotWritten(ks, pos, j, slots, files, vocab, converted, max, year, pos', files', vocab', converted');
      var w' := SlotLoop(ks, pos', j + 1, slots, files', vocab', converted', max, year).files;
      if Keeps(files', w') && OnlySlots(files', w', year, j + 1, slots) {
        KeepsAfterPut(files, files', w', year, j, slots, b.text);
      }
    } else {
      SlotFailed(ks, pos, j, slots, files, vocab, converted, max, year, pos', files', vocab');
      KeepsAfterPut(files, files', files', year, j, slots, b.text);
    }
  }

  lemma KeepsTrans(a: map<string, string>, b: map<string, string>, c: map<string, string>)
    requires Keeps(a, b) && Keeps(b, c)
    ensures Keeps(a, c)
  {
  }

  lemma OnlySlotsWiden(files: map<string, string>, w: map<string, string>, year: string, j: nat, slots: nat)
    requires OnlySlots(files, w, year, j + 1, slots)
    ensures OnlySlots(files, w, year, j, slots)
  {
  }

  lemma KeepsAfterPut(files: map<string, string>, files': map<string, string>, w: map<string, string>,
                      year: string, j: nat, slots: nat, text: string)
    requires j < slots && OutputName(year, j) !in files && files' == files[OutputName(year, j) := text]
    requires Keeps(files', w) && OnlySlots(files', w, year, j + 1, slots)
    ensures Keeps(files, w) && OnlySlots(files, w, year, j, slots)
  {
    forall nm | nm in w && nm !in files
      ensures exists k :: j <= k < slots && nm == OutputName(year, k)
    {
      if nm == OutputName(year, j) {
        assert j <= j < slots;
      }
    }
  }

  /** The slots from `j` up to `slots` whose files are absent, in order. */
  function Missing(files: map<string, string>, year: string, j: nat, slots: nat): (ms: seq<nat>)
    requires j <= slots
    decreases slots - j
  {
    if j == slots then []
    else (if OutputName(year, j) in files then [] else [j]) + Missing(files, year, j + 1, slots)
  }

  /** The output names of the slots `ms`. */
  function NamesOf(year: string, ms: seq<nat>): (names: seq<string>)
    ensures |names| == |ms|
  {
    if ms == [] then [] else [OutputName(year, ms[0])] + NamesOf(year, ms[1..])
  }

  /** The first `m` batches of `cs`, with empty batches where `cs` runs
      out: a slot past the records still gets a file, holding no document. */
  function Padded(cs: seq<seq<Record>>, m: nat): (ps: seq<seq<Record>>)
    ensures |ps| == m
  {
    if m == 0 then []
    else if cs == [] then [[]] + Padded([], m - 1)
    else [cs[0]] + Padded(cs[1..], m - 1)
  }

  /** The outcome of the loop from cursor `pos` when the slots `ms` are the
      missing ones: no exception; the missing slots get the batches `ps` in
      turn and nothing else changes; the records converted are those of
      `ps`, and they are the next ones of the input, the rest left unread. */
  predicate MissingOutcome(r: Run, ks: seq<LineKind>, pos: nat, files: map<string, string>, year: string,
                           ms: seq<nat>, ps: seq<seq<Record>>, converted: int)
    requires pos <= |ks| && r.pos <= |ks| && |ms| == |ps|
  {
    && r.ok
    && r.files == PutAll(files, NamesOf(year, ms), BatchFiles(year, ps))
    && r.converted == converted + |Flatten(ps)|
    && RecordsIn(ks, pos, |ks|) == Flatten(ps) + RecordsIn(ks, r.pos, |ks|)
  }

  /** The loop as written, with any files present, on input that does not
      raise: the `k`-th missing slot gets the `k`-th batch of the records,
      counting from the cursor, and a slot whose file exists consumes none.
      So once a file is skipped, every later missing file gets the batch
      of the slot before it, and the last batches are never read. */
  lemma {:induction false} SlotLoopMissing(ks: seq<LineKind>, pos: nat, j: nat, slots: nat, files: map<string, string>,
                                         vocab: set<string>, converted: int, max: int, year: string)
    requires pos <= |ks| && j <= slots && max >= 1 && WellFormedIn(ks, pos, |ks|)
    ensures var ms := Missing(files, year, j, slots);
            var cs := Chunks(RecordsIn(ks, pos, |ks|), max);
            MissingOutcome(SlotLoop(ks, pos, j, slots, files, vocab, converted, max, year), ks, pos, files, year,
                           ms, Padded(cs, |ms|), converted)
    decreases slots - j
  {
    if j == slots {
      assert NamesOf(year, []) == [] && BatchFiles(year, []) == [];
    } else if OutputName(year, j) in files {
      SlotSkipped(ks, pos, j, slots, files, vocab, converted, max, year);
      SlotLoopMissing(ks, pos, j + 1, slots, files, vocab, converted, max, year);
      assert Missing(files, year, j, slots) == Missing(files, year, j + 1, slots);
    } else {
      var pos', files', vocab', converted' := MissingNext(ks, pos, j, slots, files, vocab, converted, max, year);
      SlotLoopMissing(ks, pos', j + 1, slots, files', vocab', converted', max, year);
    }
  }

  /** The step of SlotLoopMissing at a missing slot: the state after it,
      from whose outcome the outcome from slot `j` follows. */
  lemma MissingNext(ks: seq<LineKind>, pos: nat, j: nat, slots: nat, files: map<string, string>,
                    vocab: set<string>, converted: int, max: int, year: string)
    returns (pos': nat, files': map<string, string>, vocab': set<string>, converted': int)
    requires pos <= |ks| && j < slots && max >= 1 && WellFormedIn(ks, pos, |ks|)
    requires OutputName(year, j) !in files
    ensures pos' <= |ks| && WellFormedIn(ks, pos', |ks|)
    ensures var ms' := Missing(files', year, j + 1, slots);
            var ms := Missing(files, year, j, slots);
            MissingOutcome(SlotLoop(ks, pos', j + 1, slots, files', vocab', converted', max, year), ks, pos', files', year,
                           ms', Padded(Chunks(RecordsIn(ks, pos', |ks|), max), |ms'|), converted')
            ==> MissingOutcome(SlotLoop(ks, pos, j, slots, files, vocab, converted, max, year), ks, pos, files, year,
                               ms, Padded(Chunks(RecordsIn(ks, pos, |ks|), max), |ms|), converted)
  {
    var name := OutputName(year, j);
    var b := WriteLoop(ks, pos, 0, "[", vocab, max, year);
    var p, tail := NextBatch(ks, pos, vocab, max, year, b);
    pos', vocab', converted' := b.end, b.vocab, converted + b.count;
    files' := files[name := b.text];
    SlotWritten(ks, pos, j, slots, files, vocab, converted, max, year, pos', files', vocab', converted');
    var r := SlotLoop(ks, pos, j, slots, files, vocab, converted, max, year);
    var r' := SlotLoop(ks, pos', j + 1, slots, files', vocab', converted', max, year);
    var ms := Missing(files, year, j, slots);
    var ms' := Missing(files', year, j + 1, slots);
    MissingAfterPut(files, year, j, j + 1, slots, b.text);
    var cs := Chunks(RecordsIn(ks, pos, |ks|), max);
    var ps' := Padded(tail, |ms'|);
    PaddedCons(cs, |ms'|, p, tail);
    if MissingOutcome(r', ks, pos', files', year, ms', ps', converted') {
      MissingStep(r', ks, pos, pos', files, files', year, j, ms', p, ps', converted);
    }
  }

  /** One call of `write_content` at the start of a slot, on input that
      does not raise: it writes the first batch of the records from the
      cursor, or an empty file when there are none, and leaves the cursor
      before the other batches. */
  lemma NextBatch(ks: seq<LineKind>, pos: nat, vocab: set<string>, max: int, year: string, b: BatchResult)
    returns (p: seq<Record>, tail: seq<seq<Record>>)
    requires pos <= |ks| && max >= 1 && WellFormedIn(ks, pos, |ks|)
    requires b == WriteLoop(ks, pos, 0, "[", vocab, max, year)
    ensures var cs := Chunks(RecordsIn(ks, pos, |ks|), max);
            p == (if cs == [] then [] else cs[0]) && tail == (if cs == [] then [] else cs[1..])
    ensures b.ok && b.count == |p| && b.text == BatchFile(year, p)
    ensures RecordsIn(ks, pos, |ks|) == p + RecordsIn(ks, b.end, |ks|)
    ensures tail == Chunks(RecordsIn(ks, b.end, |ks|), max) && WellFormedIn(ks, b.end, |ks|)
  {
    var rs := RecordsIn(ks, pos, |ks|);
    WriteLoopBatch(ks, pos, 0, "[", vocab, max, year);
    var m := Take(max, 0, |rs|);
    p, tail := rs[..m], Chunks(rs[m..], max);
    assert rs == p + rs[m..];
    if rs != [] {
      assert Chunks(rs, max) == [rs[..m]] + Chunks(rs[m..], max);
    }
  }

  lemma PaddedCons(cs: seq<seq<Record>>, m: nat, p: seq<Record>, tail: seq<seq<Record>>)
    requires p == (if cs == [] then [] else cs[0]) && tail == (if cs == [] then [] else cs[1..])
    ensures Padded(cs, m + 1) == [p] + Padded(tail, m)
  {
  }

  /** Writing slot `j` does not change which later slots are missing. */
  lemma {:induction false} MissingAfterPut(files: map<string, string>, year: string, j: nat, i: nat, slots: nat, text: string)
    requires j < i <= slots
    ensures Missing(Put(files, OutputName(year, j), text), year, i, slots) == Missing(files, year, i, slots)
    decreases slots - i
  {
    if i < slots {
      OutputNamesDistinct(year, j, i);
      MissingAfterPut(files, year, j, i + 1, slots, text);
    }
  }

  /** The bookkeeping of MissingNext: the outcome from the slot after `j`
      with the first batch written is the outcome from `j`. */
  lemma MissingStep(r: Run, ks: seq<LineKind>, pos: nat, pos': nat, files: map<string, string>,
                    files': map<string, string>, year: string, j: nat, ms': seq<nat>,
                    p: seq<Record>, ps': seq<seq<Record>>, converted: int)
    requires pos <= |ks| && pos' <= |ks| && r.pos <= |ks| && |ms'| == |ps'|
    requires files' == Put(files, OutputName(year, j), BatchFile(year, p))
    requires RecordsIn(ks, pos, |ks|) == p + RecordsIn(ks, pos', |ks|)
    requires MissingOutcome(r, ks, pos', files', year, ms', ps', converted + |p|)
    ensures MissingOutcome(r, ks, pos, files, year, [j] + ms', [p] + ps', converted)
  {
    var ms := [j] + ms';
    var ps := [p] + ps';
    assert ms[0] == j && ms[1..] == ms';
    assert ps[0] == p && ps[1..] == ps';
    assert NamesOf(year, ms) == [OutputName(year, j)] + NamesOf(year, ms');
    assert BatchFiles(year, ps) == [BatchFile(year, p)] + BatchFiles(year, ps');
    assert Flatten(ps) == p + Flatten(ps');
    ConcatAssoc(p, Flatten(ps'), RecordsIn(ks, r.pos, |ks|));
  }

  /** The slots `ms` are in increasing order, from `j` up to `slots`, and
      their files are absent. */
  predicate AbsentSlots(ms: seq<nat>, files: map<string, string>, year: string, j: nat, slots: nat) {
    && (forall a :: 0 <= a < |ms| ==> j <= ms[a] < slots && OutputName(year, ms[a]) !in files)
    && (forall a, b :: 0 <= a < b < |ms| ==> ms[a] < ms[b])
  }

  lemma {:induction false} MissingSlots(files: map<string, string>, year: string, j: nat, slots: nat)
    requires j <= slots
    ensures AbsentSlots(Missing(files, year, j, slots), files, year, j, slots)
    decreases slots - j
  {
    if j < slots {
      MissingSlots(files, year, j + 1, slots);
      var ms := Missing(files, year, j, slots);
      var ms' := Missing(files, year, j + 1, slots);
      if OutputName(year, j) in files {
        assert ms == ms';
      } else {
        AbsentCons(ms', files, year, j, slots);
      }
    }
  }

  lemma AbsentCons(ms: seq<nat>, files: map<string, string>, year: string, j: nat, slots: nat)
    requires j < slots && OutputName(year, j) !in files && AbsentSlots(ms, files, year, j + 1, slots)
    ensures AbsentSlots([j] + ms, files, year, j, slots)
  {
    var ms' := [j] + ms;
    assert forall a :: 1 <= a < |ms'| ==> ms'[a] == ms[a - 1];
  }

  lemma {:induction false} NamesOfAt(year: string, ms: seq<nat>, k: nat)
    requires k < |ms|
    ensures NamesOf(year, ms)[k] == OutputName(year, ms[k])
    decreases k
  {
    if k > 0 {
      NamesOfAt(year, ms[1..], k - 1);
    }
  }

  lemma NamesOfDistinct(files: map<string, string>, year: string, j: nat, slots: nat)
    requires j <= slots
    ensures Distinct(NamesOf(year, Missing(files, year, j, slots)))
  {
    var ms := Missing(files, year, j, slots);
    var names := NamesOf(year, ms);
    MissingSlots(files, year, j, slots);
    forall a, b | 0 <= a < b < |names|
      ensures names[a] != names[b]
    {
      NamesOfAt(year, ms, a);
      NamesOfAt(year, ms, b);
      OutputNamesDistinct(year, ms[a], ms[b]);
    }
  }

  /** The `k`-th padded batch is the `k`-th batch, or empty past the last. */
  lemma {:induction false} PaddedAt(cs: seq<seq<Record>>, m: nat, k: nat)
    requires k < m
    ensures Padded(cs, m)[k] == if k < |cs| then cs[k] else []
    decreases k
  {
    if k > 0 {
      if cs == [] {
        PaddedAt([], m - 1, k - 1);
      } else {
        PaddedAt(cs[1..], m - 1, k - 1);
      }
    }
  }

  /** The loop as written, whatever files exist, on input that does not
      raise: the file of the `k`-th missing slot holds the `k`-th batch of
      records from the cursor, or no document when the batches ran out. */
  lemma SlotLoopMissingSlot(ks: seq<LineKind>, pos: nat, j: nat, slots: nat, files: map<string, string>,
                            vocab: set<string>, converted: int, max: int, year: string, k: nat)
    requires pos <= |ks| && j <= slots && max >= 1 && WellFormedIn(ks, pos, |ks|)
    requires k < |Missing(files, year, j, slots)|
    ensures var ms := Missing(files, year, j, slots);
            var cs := Chunks(RecordsIn(ks, pos, |ks|), max);
            var w := SlotLoop(ks, pos, j, slots, files, vocab, converted, max, year).files;
            OutputName(year, ms[k]) !in files
            && OutputName(year, ms[k]) in w
            && w[OutputName(year, ms[k])] == BatchFile(year, if k < |cs| then cs[k] else [])
  {
    var ms := Missing(files, year, j, slots);
    var cs := Chunks(RecordsIn(ks, pos, |ks|), max);
    var ps := Padded(cs, |ms|);
    var names := NamesOf(year, ms);
    SlotLoopMissing(ks, pos, j, slots, files, vocab, converted, max, year);
    MissingSlots(files, year, j, slots);
    NamesOfDistinct(files, year, j, slots);
    NamesOfAt(year, ms, k);
    PutAllSlot(files, names, BatchFiles(year, ps), k);
    BatchFileAt(year, ps, k);
    PaddedAt(cs, |ms|, k);
  }
}
