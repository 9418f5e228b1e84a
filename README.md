# Record-to-document conversion of `convert.py`, modelled in Dafny

`convert.py` turns yearly exports of paper metadata (one semicolon-delimited
record per line, `#` lines are comments) into JSON arrays of index documents
for a search engine. Each output file holds at most `max_elements_per_file`
documents and is named `<year>_<k>.json`. A file that already exists is
skipped, so an interrupted job can be run again. Along the way every author
entry and every title token is added to a process-wide vocabulary.

The model follows the program's own layers:

- `strings.dfy` (module `Strings`): the Python string operations the
  program relies on, on ASCII text. These are `lower`, `strip`,
  `split(c)`, `split(c, n)`, `split()`, substitution of runs matching a
  character class (`re.sub` with `[^a-zA-Z ]+` and `[\W]+`), decimal
  rendering of an index, and slicing.
- `normalize.dfy` (module `Normalize`): `clean_field`, `clean_id`,
  `clean_authors`, `clean_title` and `extract_blast_fields`. They are pure
  functions plus the class `Normalizer`, which holds the global vocabulary
  and whose methods add to it as the source does.
- `document.dfy` (module `Document`): `convert_to_json_string`, with a
  decoder as its partner.
- `batch.dfy` (module `BatchWriter`): `count_elements_in_file` and
  `write_content`. A `LineStream` class stands for the open input file;
  the streaming loop is a method proved against a step function
  (`WriteLoop`) over the kinds of the lines (comment, line that raises,
  record).
- `driver.dfy` (module `Driver`): what `main` does for one input file.
  That is the year taken from the name, the number of output files, the
  names, and the loop over the slots that skips existing files. It also
  holds the theorems about the resulting directory.
- `converter.dfy` (module `Converter`): the imperative `main` loop. An
  `OutputDir` class stands for the output directory. `ConvertFile` is
  proved equal to `Driver.FileRun`, `Convert` is proved equal to
  `Converter.JobLoop`, and `JobFresh` is the end-to-end theorem for a
  fresh directory.

A Python exception (an `IndexError` at `fields[5]`, or a
`ZeroDivisionError` when the limit is 0) is modelled as `None` or as an
`ok == false` outcome that ends the run. Where such an exception leaves a
partly written output file behind, the model keeps that file.

The model follows the code where it does something other than one might
expect:

- An authors field is split at `,` and each part keeps only the piece
  after its last `.`. So `Smith, J.` gives the entries `smith` and the
  empty string, joined as `smith `, rather than a list of cleaned names.
  `Normalize.AuthorEntriesSpec` states this, empty entries included.
- A run into a directory that already holds some of a year's files is
  meant to write only the missing files, each with its own batch, and to
  convert every record line once. The code does not do that once a file
  exists (see "## Findings").

## Model

| member | source | states |
|---|---|---|
| Strings.Lower | convert.py:145 | `str.lower`: same length, each upper-case ASCII letter lowered and every other character kept, so no upper-case letter remains |
| Strings.Strip | convert.py:83 | `str.strip`: the result is the part of the line after its leading whitespace, only whitespace follows it, and it neither starts nor ends with whitespace |
| Strings.Split | convert.py:146-147 | `split(c)`: one more piece than occurrences of `c`, and no piece contains `c` |
| Strings.SplitJoin | convert.py:146-147 | joining the pieces of `split(c)` with `c` gives back the string |
| Strings.SplitN | convert.py:126 | `split(';', n)`: at least one piece, and at most `n + 1` when `n` is not negative |
| Strings.SplitNJoin | convert.py:126 | joining the pieces of `split(';', n)` with `;` gives back the line |
| Strings.SplitAtMostCount | convert.py:126 | with a limit of `n`, there are `min(count of ';', n) + 1` pieces |
| Strings.SplitAtMostPieces | convert.py:126 | with a limit of `n`, no piece but the last holds `;`: the cuts are made at the first occurrences |
| Strings.SplitAtMostLast | convert.py:126-128 | when fewer pieces than the limit allows are produced, the last piece holds no separator |
| Strings.Words | convert.py:159 | `split()`: every word is non-empty and made of non-space characters of the input |
| Strings.WordsBlank | convert.py:159 | a string of whitespace only has no words |
| Strings.WordsWord | convert.py:159 | a non-empty string without whitespace is exactly one word, itself |
| Strings.WordsSplit | convert.py:159 | splitting at a whitespace character gives the words of the left part followed by the words of the right part |
| Strings.SubRunsChars | convert.py:139 | `re.sub` over a run pattern leaves only the replacement character and input characters of the kept class |
| Strings.SubRunsKeepsKept | convert.py:157 | a string made only of kept characters is not changed |
| Strings.SubRunsIdempotent | convert.py:148 | a property of the model rather than of the source, which substitutes once: substituting a second time changes nothing when the replacement is itself kept |
| Strings.SubRuns | convert.py:139 | `re.sub` of a run pattern: the result is no longer than the input, and empty exactly when the input is |
| Strings.ParseNatToString | convert.py:45 | the decimal rendering of the file index reads back as the index |
| Strings.NatToStringInjective | convert.py:45 | distinct indices render as distinct digit strings |
| Strings.Slice | convert.py:39 | Python slicing `name[5:9]`: the length is clamped to the string, and the characters are those at the offsets |
| Normalize.DropQuotes | convert.py:134 | `replace('"', '')` leaves no double quote |
| Normalize.DropQuotesAppend | convert.py:134 | removing quotes from a concatenation gives the concatenation of the results, so every other character keeps its order |
| Normalize.EscapeBackslashes | convert.py:134 | every backslash is doubled: the result is longer than the input by one character per backslash |
| Normalize.TabsToSpaces | convert.py:134 | `replace('\t', ' ')` turns each tab into a space and keeps every other character in place |
| Normalize.EscapeRoundTrip | convert.py:134 | doubling backslashes can be undone: unescaping the result gives the input back |
| Normalize.DropQuotesKeepsOthers | convert.py:134 | dropping quotes keeps the count of every other character |
| Normalize.EscapeKeepsOthers | convert.py:134 | doubling backslashes keeps the count and presence of every other character |
| Normalize.CleanField | convert.py:133-134 | `clean_field` output holds no `"` and no tab |
| Normalize.CleanFieldSpec | convert.py:133-134 | `clean_field` output has no `"` and no tab, unescapes to the input with quotes dropped and tabs turned to spaces, and keeps the count of every character other than `"`, tab, backslash and space |
| Normalize.CleanFieldPlain | convert.py:133-134 | a field without `"`, tab or backslash is unchanged |
| Normalize.CleanId | convert.py:137-140 | the id holds only word characters (letters, digits, `_`) |
| Normalize.CleanIdSample | convert.py:137-140 | the id `1501.00001` becomes `1501_00001` |
| Normalize.AuthorEntriesSpec | convert.py:143-148 | one entry per comma-separated part of the field, and every entry holds only lower-case letters and spaces |
| Normalize.AuthorEntries | convert.py:143-148 | one entry per comma-separated part of the cleaned, lower-cased field: one more than the number of commas |
| Normalize.AuthorEntryChars | convert.py:146-148 | each entry's characters are spaces or letters of the part it comes from |
| Normalize.TitleWordsSpec | convert.py:155-159 | the title's words are non-empty runs of lower-case letters |
| Normalize.StemKept | convert.py:158-160 | the filtered list has at most one stem per word, and one per word when no word is dropped |
| Normalize.StemKeptMembers | convert.py:158-160 | a token is in the title's tokens exactly when it is the stem of a word that is not a stop word and has more than three letters; there are no more tokens than words |
| Normalize.StemKeptAppend | convert.py:158-160 | the filtered, stemmed list of a concatenation is the concatenation of the lists |
| Normalize.Extract | convert.py:125-130 | `None` (the `IndexError` at `fields[5]`) exactly when the line splits into fewer than six fields; otherwise the id holds only word characters |
| Normalize.ExtractFailure | convert.py:125-127 | `extract_blast_fields` raises exactly when the line has fewer than five `;`, or always when the split limit is 0 to 4; a raising line adds nothing to the vocabulary |
| Normalize.ExtractTitleSource | convert.py:126-128 | the title comes from the last field, and the fields join back to the line |
| Normalize.Normalizer.constructor | convert.py:20 | the vocabulary starts empty |
| Normalize.Normalizer.AddAll | convert.py:149 | the vocabulary becomes the old one plus the given words |
| Normalize.Normalizer.CleanAuthors | convert.py:143-151 | returns the entries joined by spaces, and the vocabulary gains exactly those entries |
| Normalize.Normalizer.CleanTitle | convert.py:154-163 | returns the kept, stemmed tokens joined by spaces, and the vocabulary gains exactly those tokens |
| Normalize.Normalizer.ExtractFields | convert.py:125-130 | returns the record `Extract` gives, or `None` where the source raises, and the vocabulary gains exactly the record's words |
| Document.Encode | convert.py:109-122 | a document is never empty and starts with a comma exactly when it is not the first of its file |
| Document.EncodeCommaOnly | convert.py:110 | the later form of a document is the first form with a comma in front |
| Document.DecodeEncode | convert.py:109-122 | when no value contains `"`, the document decodes back to its flag, year, id, authors and title |
| BatchWriter.IsRecord | convert.py:83-84 | a line is a record exactly when it is blank or its first non-whitespace character is not `#` |
| BatchWriter.BlankLineIsRecord | convert.py:83-84 | a blank line counts as a record |
| BatchWriter.HashLineIsComment | convert.py:83-84 | a line whose first non-space character is `#` is a comment |
| BatchWriter.CountElements | convert.py:79-86 | the loop counts the lines that are not comments, between 0 and the number of lines |
| BatchWriter.KindsOfUnique | convert.py:95-99 | a property of the model: the line-by-line rule for the kinds of a file's lines admits only the classification the other lemmas use |
| BatchWriter.ClassifiedCount | convert.py:79-86 | the lines `write_content` converts are exactly the lines `count_elements_in_file` counts |
| BatchWriter.ClassifiedWellFormed | convert.py:125-127 | no line of a file raises exactly when every record line has at least six fields |
| BatchWriter.RecordsInCount | convert.py:97-98 | on lines that do not raise, the records converted are as many as the lines counted |
| BatchWriter.DocsAppend | convert.py:99-101 | the documents of two record runs are the documents of the first run followed by those of the second, with the comma rule applied across the join |
| BatchWriter.WriteLoop | convert.py:95-105 | the input cursor never moves back and never passes the end of the file |
| BatchWriter.WriteLoopFails | convert.py:95-105 | a call raises exactly when a line it read raises. It then stops right after the first such line, which it has counted, and the file holds the documents of the records before that line and no closing `]` |
| BatchWriter.WriteLoopVocab | convert.py:95-104 | after a call, the vocabulary is the old one plus the words of the record lines read, whether or not the call raised |
| BatchWriter.WriteLoopWrites | convert.py:91-106 | a call completes whenever the rest of the input has no raising line. A call that completes has read no raising line, wrote `[`, the documents of the records it read in order (comma before all but the first) and `\n]`, and returns how many it read, whatever the lines after its cursor hold |
| BatchWriter.WriteLoopCompletes | convert.py:95-105 | a call completes exactly when none of the lines it read raises |
| BatchWriter.WriteLoopStops | convert.py:103-104 | a call that completes stops right after the record that reaches the limit, or at the end of the input |
| BatchWriter.Take | convert.py:103-104 | the number of records a call takes never exceeds the limit, and is less than the available records only when the limit is reached |
| BatchWriter.WriteLoopBatch | convert.py:89-106 | a call that completes takes the next `min(limit, remaining)` records, writes exactly them, and leaves the cursor after the last one taken (or at the end), whatever the lines after its cursor hold; on input without raising lines every call completes |
| BatchWriter.WriteLoopWithin | convert.py:95-105 | a call whose lines up to some point do not raise and hold enough records to reach the limit completes without reading past that point |
| BatchWriter.LineStream.constructor | convert.py:41 | the stream starts at the first line |
| BatchWriter.LineStream.Next | convert.py:95 | yields the next line and advances, or yields nothing at the end |
| BatchWriter.WriteStep | convert.py:95-104 | one loop turn: a comment changes nothing; a line that raises ends the call; a record appends its document, adds its words, and ends the call when the limit is reached |
| BatchWriter.WriteContent | convert.py:89-106 | count, written text, cursor, vocabulary and exception flag are those of `WriteLoop` from the old cursor and vocabulary |
| Driver.Year | convert.py:39 | `name[5:9]`: at most four characters, and the characters at offsets 5 to 8 when the name has at least nine |
| Driver.YearOf | convert.py:39 | a name made of a five-character prefix, a four-character year and a rest yields that year |
| Driver.OutputNameParts | convert.py:45 | an output name is the year, `_`, the digits of the slot index plus one and `.json`, and those digits read back as the index plus one |
| Driver.OutputNamesDistinct | convert.py:45 | distinct slot indices give distinct file names |
| Driver.OutputNamesOfYears | convert.py:45 | names for different years of the same length never coincide |
| Driver.FilesNeeded | convert.py:42 | a limit of 0 raises; a negative limit gives no slots; otherwise the slot count is the ceiling of records over limit |
| Driver.CeilUnique | convert.py:42 | for a limit of at least 1, the ceiling is unique, and it is 0 exactly when there are no records |
| Driver.ChunksFlatten | convert.py:43-50 | for a limit of at least 1, the batches, one after the other, are the file's records in order |
| Driver.ChunksSizes | convert.py:43-50 | for a limit of at least 1, every batch holds 1 to `max` records, and all but the last hold exactly `max` |
| Driver.ChunksCount | convert.py:42 | for a limit of at least 1, the number of batches is the computed number of output files |
| Driver.SlotLoop | convert.py:44-50 | the input cursor never moves back and never passes the end of the file |
| Driver.FileRun | convert.py:38-53 | a limit of 0 raises before any file is written; a negative limit writes nothing and converts nothing; no existing file is ever changed |
| Driver.WrittenSlot | convert.py:44-50 | after writing the batches from slot `j`, slot `i` holds its batch unless its file already existed |
| Driver.WrittenKeeps | convert.py:46-47 | writing the batches leaves every existing file as it was |
| Driver.WrittenOnly | convert.py:45 | writing the batches adds no file but the slots' own |
| Driver.FirstBatch | convert.py:50-51 | with a limit of at least 1 and on lines that do not raise, one call converts the first batch and leaves the cursor before the others |
| Driver.FirstBatchText | convert.py:50-51 | with a limit of at least 1 and on lines that do not raise, that call's text is the first batch's file |
| Driver.SlotLoopFresh | convert.py:43-51 | with a limit of at least 1, one slot per batch, none of the slots' files present and no record line with fewer than six fields, no exception is raised, every record is converted and read, and slot `k` holds the `k`-th batch |
| Driver.SlotLoopFreshPrefix | convert.py:43-51 | with a limit of at least 1 and none of the slots' files present, every full batch of records that lies before a point up to which no line raises is in its slot, whatever the lines after that point hold, so a later raising line leaves the earlier files complete |
| Driver.FreshFile | convert.py:38-53 | for one input file into a directory without its year's files, with a limit of at least 1 and no record line with fewer than six fields: the count is the file's number of records, all of them are converted, and the new files are the batches in order |
| Driver.SkipRepeatsBatch | convert.py:46-51 | as written: with slot 1's file present, slot 2 gets slot 1's record again and the second record is never converted |
| Driver.WriteOneRecord | convert.py:99-104 | with a limit of one, a call at a record writes that record alone |
| Driver.BatchFilesDiffer | convert.py:109-122 | one-record files with different ids differ |
| Driver.ResumeSlotsWritten | convert.py:44-51 | corrected: with a limit of at least 1, one slot per batch and lines that do not raise, whatever files exist, every missing slot gets the batch a run from scratch gives it, existing files stay, and all input is read |
| Driver.ResumeSlots | convert.py:44-51 | the slot loop with the skip corrected: the input cursor never moves back and never passes the end of the file |
| Driver.SlotLoopKeeps | convert.py:44-51 | on any input and any directory, raising or not, the slot loop changes no existing file and creates only its slots' files |
| Driver.SlotLoopMissing | convert.py:44-51 | as written, with a limit of at least 1 and on lines that do not raise: the missing slots get the batches from the cursor in turn, and an existing slot consumes none. The records converted are those batches, and the rest of the input is left unread |
| Driver.SlotLoopMissingSlot | convert.py:44-51 | as written, with a limit of at least 1 and on lines that do not raise: the file of the `k`-th missing slot holds the `k`-th batch, or no document once the batches run out |
| Driver.SlotLoopResumeFresh | convert.py:44-51 | where no slot file exists, the loop as written and the corrected one give the same run |
| Converter.OutputDir.Exists | convert.py:46 | reports whether the name is in the directory |
| Converter.OutputDir.Write | convert.py:91 | the file is created or replaced with the text |
| Converter.ConvertFile | convert.py:38-53 | directory, vocabulary, per-file count and exception flag are those of the per-file run from the old directory and vocabulary |
| Converter.Convert | convert.py:35-53 | directory, shared vocabulary, total and exception flag are those of the job run over the input files in order |
| Converter.JobLoopKeeps | convert.py:37-53 | whatever the inputs and the directory, raising or not, the job never changes a file that existed before it |
| Converter.InputFresh | convert.py:38-53 | with a limit of at least 1, one well-formed file into a directory without its year's files raises nothing, converts all its records, and adds only its own year's files |
| Converter.FreshYearsAfter | convert.py:39-45 | after one year's files are written, the later years still find none of theirs |
| Converter.JobFresh | convert.py:35-53 | with a limit of at least 1, input names long enough to hold four-character years, distinct years, well-formed lines and no output files present: the job raises nothing, the total counts every record line of every file, and no existing file is changed |

## Left out

- Logging, `setup_directories`, `clean_folder_maybe`, the git clone and the `nltk` download are left out. They are I/O with no effect on the converted text.
- The Snowball stemmer and the English stop-word list are not part of this model. The stemmer is a parameter `stem: string -> string`, and the stop words are a parameter set.
- Text is ASCII. Unicode lower-casing, Unicode `\W` and Unicode whitespace are not modelled.
- Files are sequences of lines and the directory is a map from names to contents. Opening, closing, encodings, and I/O errors (unreadable input, full disk) are left out.
- `input_path.glob('*.csv')` and `sorted(..., reverse=True)` are left out: `Convert` takes the input files in the order it is given.
- Driver.FilesNeeded: computes the exact integer ceiling. The source divides in floating point, which can round differently for counts beyond 2^53.
- The log lines reporting per-file counts and vocabulary size are not modelled. The values they would print are the model's `converted`, `total` and `vocab`.
- Converter.ConvertFile and Converter.Convert: these follow the source as written, so they skip without reading (see "## Findings"). The corrected loop is stated as the function `Driver.ResumeSlots` and is not run by the methods.

## Findings

| source | as written | input that shows it | evidently intended | confidence | as-written member | corrected member |
|---|---|---|---|---|---|---|
| convert.py:46-51 | When an output file exists, its slot is skipped without reading that batch's records from the input, so the next missing file gets the records the skipped file already holds. | Limit 1, two records `a` and `b`, and `<year>_1.json` present. `<year>_2.json` is written with `a` again, and `b` is never converted. | A resumed run reads past each existing file's batch and writes only the missing files, each with the batch a run from scratch gives it. | high, not executed | Driver.SkipRepeatsBatch | Driver.ResumeSlotsWritten |
