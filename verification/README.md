# Audio chunking and transcription metadata, modelled in Dafny

The program cuts a long recording into fixed-length chunks, writes them as
`chunk_000.wav`, `chunk_001.wav`, … into an output folder, then lists that
folder, transcribes every `.wav` entry in sorted order and writes one
metadata line per chunk:

    data/chunks/chunk_000.wav |Kumuyi|en|hello world

This project models the deterministic string and sequence logic under that
glue:

- the chunk naming of `split_audio`: `chunk_{i:03d}.wav` for `i` in `0 .. n-1`, joined to the folder;
- the selection and visiting order of `transcribe_audio_chunks`: `sorted(os.listdir(...))`, then the `.wav` filter, then the path join;
- the metadata line, with its single space before the first `|` and the `str.strip`ped text;
- the metadata file as a whole, which is opened with `"w"` and so holds only this run's lines.

The Python building blocks are modelled exactly on strings of Unicode scalar values (see "## Left out" for names that are not):

- `str` ordering is `Lex.Less`: code points from the left, and a prefix sorts first;
- `sorted` is `Sorting.Sort`;
- `{i:03d}` is `Decimal.ZeroPadded`: a minimum width that never truncates;
- `str.strip` is `Whitespace.Strip`, over the 29 characters CPython's `str.isspace` accepts;
- `os.path.join` is `Paths.Join`: `posixpath.join` for two components, including an absolute second part and a folder that already ends in `/`;
- `str.endswith` is `Paths.EndsWith`.

Modules:

- `Wrappers` holds `Option`.
- `Lex`, `Decimal`, `Sorting`, `Whitespace` and `Paths` hold the building blocks.
- `Segmenter` holds chunk naming and `SplitAudio`.
- `Metadata` holds the line format and a parser that inverts it.
- `Transcriber` holds selection, order and `TranscribeAudioChunks`.
- `Pipeline` holds lemmas about the hand-off between the two stages.

The external parts become parameters:

- The audio library's chunk list is represented by its length `n`.
- The output folder is a `set<string>` of entry names.
- `os.listdir` is any `seq<string>` listing that folder.
- `whisper.load_model` succeeding or failing is a `bool`.
- `model.transcribe` is a function from path to `Option<string>`, where `None` means it raised.
- The metadata file's content before and after a run are strings.

`{i:03d}` is a minimum width of 3, not a fixed one: index 1000 is written
`chunk_1000.wav`. `Segmenter.ChunkNameLength`
and `Segmenter.ChunkOrderBreaksAtWidth` state the consequence: past 1000
chunks the names grow, and sorted order stops being chronological order.

The first field of each line ends with a space (`path |`). A consumer that
splits on `|` without trimming gets the path with a trailing space. The
model renders that space as the program does, and `Metadata.ParseLine`
removes it again.

## Model

| member | source | states |
|---|---|---|
| Lex.LessIsFirstDifference | melo/split_and_transcribe.py:43 | the string comparison `sorted` uses holds exactly when, after a common prefix, `a` ends while `b` goes on, or `a` has the smaller code point at the first difference |
| Lex.LessTrichotomous | melo/split_and_transcribe.py:43 | string order is total and asymmetric: exactly one of `a < b`, `a == b`, `b < a` |
| Lex.LessTransitive | melo/split_and_transcribe.py:43 | string order is transitive |
| Lex.LessCommonPrefix | melo/split_and_transcribe.py:43 | a shared prefix such as `chunk_` does not affect the comparison |
| Lex.LessEqualLengthHead | melo/split_and_transcribe.py:43 | two different strings of equal length decide the comparison whatever suffixes follow them |
| Decimal.Digits | melo/split_and_transcribe.py:25 | `str(n)` is a non-empty digit string with no leading zero (except `"0"`) that denotes `n` |
| Decimal.ZeroPadded | melo/split_and_transcribe.py:25 | `{n:0Wd}` is all digits, denotes `n`, and is `max(len(str(n)), W)` long: padded up to W, never truncated |
| Decimal.DigitsLength | melo/split_and_transcribe.py:25 | `str(n)` has at most `k` digits exactly when `n < 10^k` |
| Decimal.ValueOrderIsLexOrder | melo/split_and_transcribe.py:25 | for digit strings of equal length, numeric order and string order agree in both directions |
| Decimal.ZeroPaddedOrder | melo/split_and_transcribe.py:25 | below `10^W`, `i < j` exactly when `{i:0Wd} < {j:0Wd}` as strings |
| Decimal.ZeroPaddedOfValue | melo/split_and_transcribe.py:25 | the padded renderings are exactly the digit strings of length W, or longer ones with no leading zero; each is the rendering of its own value |
| Decimal.CanonicalDigits | melo/split_and_transcribe.py:25 | a digit string with no superfluous leading zero is `str` of its value |
| Sorting.Insert | melo/split_and_transcribe.py:43 | inserting into a sorted list keeps it sorted and adds exactly that element |
| Sorting.Sort | melo/split_and_transcribe.py:43 | `sorted(xs)` is in ascending string order and is a permutation of `xs` |
| Sorting.SortedUnique | melo/split_and_transcribe.py:43 | two ascending arrangements of the same multiset of strings are equal, so the sort's result is determined |
| Sorting.SortSorted | melo/split_and_transcribe.py:43 | sorting an already sorted list changes nothing |
| Paths.BaseName | melo/split_and_transcribe.py:45 | the final component of a path has no `/`, ends the path, and starts after a `/` or at the start |
| Paths.JoinBaseName | melo/split_and_transcribe.py:45 | for a name without `/`, the final component of `join(folder, name)` is `name` |
| Paths.JoinInjective | melo/split_and_transcribe.py:45 | for names without `/`, `join(folder, b1) == join(folder, b2)` exactly when `b1 == b2` |
| Whitespace.TrimStartSpec | melo/split_and_transcribe.py:48 | `lstrip` removes a whitespace-only prefix and leaves a result that does not start with whitespace |
| Whitespace.TrimEndSpec | melo/split_and_transcribe.py:48 | `rstrip` removes a whitespace-only suffix and leaves a result that does not end with whitespace |
| Whitespace.StripSpec | melo/split_and_transcribe.py:48 | `strip` removes a whitespace-only prefix and suffix and leaves no whitespace at either end |
| Whitespace.TrimUnique | melo/split_and_transcribe.py:48 | at most one trim of `s` has no whitespace at either end, so `StripSpec` determines `strip` completely |
| Whitespace.StripIdempotent | melo/split_and_transcribe.py:48 | `s.strip().strip() == s.strip()` |
| Whitespace.StripNoOuterSpace | melo/split_and_transcribe.py:48 | a string with no whitespace at either end is its own `strip` |
| Whitespace.StripExample | melo/split_and_transcribe.py:48 | `" hello world\n".strip() == "hello world"` |
| Segmenter.ParseChunkNameInverse | melo/split_and_transcribe.py:25 | a file name parses to index `i` exactly when it is `chunk_{i:03d}.wav` |
| Segmenter.ChunkNameInjective | melo/split_and_transcribe.py:24-27 | two chunk indices give the same file name exactly when they are equal, so no chunk of a run overwrites another |
| Segmenter.ChunkNameLength | melo/split_and_transcribe.py:25 | a chunk name is at least 13 characters long, and exactly 13 exactly when the index is below 1000 |
| Segmenter.ChunkNameShape | melo/split_and_transcribe.py:25 | a chunk name ends in `.wav`, so the transcriber selects it, and contains no `/` |
| Segmenter.ChunkOrder | melo/split_and_transcribe.py:25 | for indices below 1000, `i < j` exactly when `chunk_{i:03d}.wav < chunk_{j:03d}.wav` as strings |
| Segmenter.ChunkOrderBreaksAtWidth | melo/split_and_transcribe.py:25 | `chunk_1000.wav` sorts before `chunk_999.wav` |
| Segmenter.ChunkNameSetMembers | melo/split_and_transcribe.py:24-27 | a name is written by a run of `n` chunks exactly when it parses to an index below `n` |
| Segmenter.SplitAudio | melo/split_and_transcribe.py:24-30 | returns `n`; writes `n` pairwise distinct paths, the i-th being `join(folder, chunk_{i:03d}.wav)`, whose final component parses back to `i`; afterwards the folder holds exactly its old entries plus the names of indices `0 .. n-1` |
| Segmenter.WrittenPaths | melo/split_and_transcribe.py:26 | the joined chunk paths are pairwise distinct, and each one's final component parses back to its index |
| Segmenter.ChunkNamesSorted | melo/split_and_transcribe.py:25 | the names of at most 1000 chunks, in chunk order, are in ascending string order |
| Segmenter.ChunkNamesUnsorted | melo/split_and_transcribe.py:25 | the names of more than 1000 chunks, in chunk order, are not in ascending string order |
| Segmenter.FirstChunkPath | melo/split_and_transcribe.py:25-26 | the first chunk in the default folder is `data/chunks/chunk_000.wav` |
| Metadata.SplitAt | melo/split_and_transcribe.py:49 | splitting at the first `c` fails exactly when `c` does not occur; otherwise the parts put back together with `c` give the input, and the first part has no `c` |
| Metadata.ParseFormatLine | melo/split_and_transcribe.py:49 | a rendered line whose leading fields have no pipe character parses back to its record |
| Metadata.FormatParseLine | melo/split_and_transcribe.py:49 | every line the parser accepts is the rendering of the record it returns |
| Metadata.ParseLineInverse | melo/split_and_transcribe.py:49 | a line parses to `r` exactly when `r` has no pipe character in its leading fields and the line is the rendering of `r`: path, a space, then the four fields separated by pipes, then a newline |
| Metadata.DocumentCons | melo/split_and_transcribe.py:42-49 | the file content for a record followed by others is that record's line followed by the others' content |
| Metadata.ParseDocumentInverse | melo/split_and_transcribe.py:42-49 | the file content for single-line records reads back as exactly those records, in the order written |
| Metadata.FormatLineExample | melo/split_and_transcribe.py:49 | the example line for the first chunk, with one space before the first pipe |
| Transcriber.KeepWav | melo/split_and_transcribe.py:44 | every kept entry ends in `.wav` |
| Transcriber.KeepWavCounts | melo/split_and_transcribe.py:44 | each `.wav` entry is kept as often as it occurs in the listing; every other entry is dropped |
| Transcriber.KeepWavSorted | melo/split_and_transcribe.py:43-44 | filtering a sorted listing leaves it sorted |
| Transcriber.KeepWavPrefix | melo/split_and_transcribe.py:43-44 | filtering a prefix of the listing gives a prefix of the filtered listing |
| Transcriber.Visits | melo/split_and_transcribe.py:43-44 | the visited entries are in ascending order, all end in `.wav`, and are exactly the `.wav` entries of the listing with multiplicity |
| Transcriber.VisitsDetermined | melo/split_and_transcribe.py:43-44 | any ascending arrangement of the listing's `.wav` entries is the visiting order |
| Transcriber.VisitsFromListing | melo/split_and_transcribe.py:43 | every visited entry is an entry of the listing |
| Transcriber.RecordsAscending | melo/split_and_transcribe.py:43-49 | line k's path ends in the k-th visited entry, so lines are in ascending order of their entry names; no text field starts or ends with whitespace |
| Transcriber.TranscribeEntries | melo/split_and_transcribe.py:42-49 | over a sorted listing written into the truncated file: the file holds exactly the lines written; line k is for the k-th `.wav` entry joined to the folder, with the stripped transcription; no failure exactly when every `.wav` entry got a line; a failure names the entry right after the last line, whose transcription raised |
| Transcriber.TranscribeAudioChunks | melo/split_and_transcribe.py:39-49 | a failed model load leaves the file as it was; otherwise the file is truncated and holds exactly this run's lines; line k is for the k-th visited entry joined to the folder, with the stripped transcription; the run completes exactly when every `.wav` entry got a line, and a failure names the first entry whose transcription raised |
| Pipeline.DistinctCounts | melo/split_and_transcribe.py:43 | in a listing without repetitions each entry occurs once |
| Pipeline.ListingWavEntries | melo/split_and_transcribe.py:43-44 | whatever order `os.listdir` returns, the filtered listing holds each `.wav` entry of the folder once |
| Pipeline.RecordCount | melo/split_and_transcribe.py:43-44 | a complete run writes as many lines as the folder has `.wav` entries, whether or not this run wrote them |
| Pipeline.ChunkNamesDistinct | melo/split_and_transcribe.py:24-27 | one run's chunk names are pairwise distinct and are exactly the names it writes |
| Pipeline.ChronologicalVisits | melo/split_and_transcribe.py:43 | when the `.wav` entries are the names of chunks `0 .. n-1` and `n <= 1000`, they are visited in chunk order |
| Pipeline.ChronologyBreaks | melo/split_and_transcribe.py:43 | with more than 1000 chunks they are not visited in chunk order |
| Pipeline.SegmentThenTranscribe | melo/split_and_transcribe.py:24-45 | if the folder's earlier `.wav` entries are all among this run's `n <= 1000` chunk names, the transcriber visits exactly this run's chunks, in chunk order, for any listing order |
| Pipeline.FirstChunkLine | melo/split_and_transcribe.py:45-49 | the first chunk of the default folder, speaker and language, with transcription `" hello world\n"`, gives the example line for `data/chunks/chunk_000.wav` with text `hello world` |

## Left out

- Decoding, slicing and exporting audio (`AudioSegment.from_file`, `make_chunks`, `chunk.export`, lines 19-20 and 27) belong to the audio library. Only the chunk count `n` enters the model, and an export is modelled as adding the chunk's name to the folder. A decode failure happens before any export, so the model has no error path for it. An export failing part-way is not modelled.
- Model loading and inference (`whisper.load_model`, `model.transcribe`, lines 39 and 47) are parameters: whether loading succeeds, and the text or failure for each path.
- `os.makedirs` (line 12) is left out. The folder is a given set of names, and `os.listdir` (line 43) is any duplicate-free sequence of them.
- Path semantics other than POSIX (Windows separators and drive letters) are left out. `os.path.join` is modelled as `posixpath.join` for two components.
- `str.isspace` is modelled by the fixed set of 29 code points CPython accepts. A different Unicode database version could change that set.
- Progress output (`print`, lines 22, 28, 38, 41, 46, 51) has no effect on the model and is left out.
- The module-level path constants (lines 7-9) and `main` (lines 54-63) are left out, apart from the default folder, speaker and language in the two example lemmas.
- File buffering is left out. When a transcription raises inside the `with` block, the file is closed with the lines written so far; the model returns exactly those lines.
- The result dictionary of `model.transcribe` is reduced to its `"text"` entry.
- The `|` and newline characters that a transcription or a file name may contain are written as they are. The parser recovers only records without them, as `Metadata.Writable` states.
- Entry names holding lone surrogates cannot be represented, because a Dafny `char` excludes surrogate code points. On POSIX, `os.listdir` (line 43) returns such names for file names whose bytes do not decode. The model covers only names that decode.
- Transcriber.TranscribeAudioChunks: the metadata file is modelled as text, not bytes. `open(metadata_file, "w")` (line 42) encodes with the locale encoding and strict errors. A path or transcription that the encoding cannot represent makes `f.write` (line 49) raise. The program then stops with the earlier lines in the file, while the model reports the run as `Completed`.
- Transcriber.TranscribeAudioChunks: `open` failing at line 42 is not modelled. Neither is `os.listdir` raising at line 43, which happens after the truncation and leaves the file empty. The model's only failures are the model load and a transcription.
