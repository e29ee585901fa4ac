# common-crawl-processing in Dafny

A model of the processing scripts of common-crawl-processing, with proofs
about it. The pipeline has four stages:

- **Download and filter.** `download_get_text_from_warc.py` downloads Common
  Crawl WARC archives and groups their response and metadata records into
  pages. It keeps the pages that are Chinese or English (by their cld2
  languages, else by language detection) and that hold at most three
  flagged words. Rotating writer processes write the kept pages into
  `raw_content_{i}.jsonl.gz` files.
- **Move.** `mv_downloaded.py` moves a raw file to the output directory only
  once its writer has opened a later file.
- **Extract English text.** `extract_text_en_fast.py` keeps the English-only
  records and replaces their HTML by the text goose extracts. It writes them
  through the `Writer` class of `utils.py` into `text_content_{i}` files
  numbered after the ones already there.
- **Quality filter.** `apply_massivetext_filter.py` applies a MassiveText-style
  quality filter to Chinese documents. A document must pass a length bound,
  a duplicate-line ratio, top-n-gram character fractions for n = 2..4 and
  repeated-n-gram character fractions for n = 5..10.

Both fetching scripts can resume from a ledger of `path<TAB>STATUS` lines:
a rerun skips every path recorded `SUCCESS`.

One module per concern:

| module | models |
|---|---|
| `Wrappers` | Option / Result |
| `Strings` | the Python builtins the scripts rely on: `strip`, `split`, `in`, `count`, `replace`, `str(int)`, `int(str)`, `endswith`, `os.path.join`, `os.path.basename` |
| `Counters` | an insertion-ordered dict used as a counter, and the strict-`>` scan over its items |
| `BadWords` | `is_bad_doc`, identical in the filter and the download script |
| `Records` | JSON values, the `languages` field, the page/record dict |
| `Ledger` | the ledger line format and the loop that reads a ledger back |
| `Queues` | filling an input queue with the pending paths and the sentinels |
| `Rotation` | rotating output files: which lines each file holds |
| `ShardWriter` | the `Writer` class (a Dafny `class`) and its self-test |
| `MassiveText` | `count_ngrams`, `process`, `worker` and the per-file loop of the filter |
| `WarcRecords` | `parse_metadata`, `parse_wart_headers`, `split_wart_file` |
| `WarcDownload` | the fetch worker, the write worker, the main process's queue filling and its completion loop |
| `ExtractEn` | the English extraction script |
| `MoveDownloaded` | the mover script |

How the model is built:

- **Imperative code stays imperative.** Each loop of the source is a `method`
  with a `for` or `while` loop. The method is proved equal to a
  specification function, and the properties are lemmas about that function.
- **Foreign libraries are parameters.** jieba, BeautifulSoup, langdetect,
  goose, `json.loads`/`json.dumps` and the flagged-word list are function or
  sequence parameters. An exception is `None` or a `Failure`.
- **Files are maps.** The file system is a map from path to the text written
  there. A file handle is the path it writes to.
- **Ratios are exact.** Every ratio test `a / b > t` of the filter is the
  integer comparison `100 * a > p * b`, with the threshold `t` written as a
  whole percent `p`. A zero denominator is the `DivisionByZero` verdict.

## Model

| member | source | states |
|---|---|---|
| BadWords.IsBadDoc | apply_massivetext_filter.py:13-22 | the early-returning scan flags a document exactly when the running total of flagged-word occurrences exceeds three |
| BadWords.BadTotalPrefix | apply_massivetext_filter.py:19-20 | the running total never decreases, so stopping at the first total above three gives the same verdict as summing every word |
| BadWords.BadTotalAppend | apply_massivetext_filter.py:15-18 | the total over two word lists is the sum of their totals |
| BadWords.BadTotalOrderFree | download_get_text_from_warc.py:19-20 | iterating the flagged-word frozenset in any order gives the same total |
| Strings.Strip | apply_massivetext_filter.py:54 | the stripped string is no longer than the input and starts and ends with non-whitespace |
| Strings.StripPadded | extract_text_en_fast.py:69 | stripping removes exactly the whitespace around a core that neither starts nor ends with whitespace |
| Strings.SplitOnParts | apply_massivetext_filter.py:53 | split gives at least one part, no part holds the separator, and joining the parts gives the input back |
| Strings.SplitJoin | extract_text_en_fast.py:69 | splitting a join of separator-free parts gives the parts back |
| Strings.SplitUnique | apply_massivetext_filter.py:53 | the decomposition split computes is the only one with those properties |
| Strings.CountOf | apply_massivetext_filter.py:17-18 | `doc.count(w)` is positive exactly when `w in doc` |
| Strings.RemoveAllSkip | mv_downloaded.py:21 | `replace(pat, '')` leaves a prefix that cannot start an occurrence of pat unchanged |
| Strings.ParseIntToString | mv_downloaded.py:23 | `int(str(i)) == i` for every integer |
| Strings.IntToStringInjective | utils.py:17 | different integers print differently |
| Strings.PathJoinInjective | extract_text_en_fast.py:76 | joining one directory onto two different names that start with the same character gives different paths (for arbitrary names it can fail: an absolute name replaces the directory) |
| Strings.Basename | extract_text_en_fast.py:47 | a basename holds no '/' |
| Strings.BasenameOfJoin | extract_text_en_fast.py:47 | the basename of a directory joined with a '/'-free name is that name |
| Counters.AddStep | apply_massivetext_filter.py:56-59 | one counting step adds one to the key's count and nothing else, appending a new key at the end |
| Counters.AddAllCount | apply_massivetext_filter.py:53-59 | counting a sequence adds to every count the number of times the key occurs in it, and keeps the dict well formed |
| Counters.AddAllAppend | apply_massivetext_filter.py:79-81 | counting two sequences one after the other is counting their concatenation |
| Counters.CountedKeys | apply_massivetext_filter.py:56-59 | the keys of a counter built from nothing are exactly the counted elements |
| Counters.AddAllOrder | apply_massivetext_filter.py:64 | insertion order: old keys stay in front, and new keys follow in the order of their first occurrence |
| Counters.Top | apply_massivetext_filter.py:94-97 | the strict-`>` scan from `max_repeat = 0` returns a count no smaller than any key's and the first key that holds it, or no key and count 0 when no count is positive |
| Counters.TopFindsKey | apply_massivetext_filter.py:94-97 | over a non-empty dict the scan picks a key |
| Counters.TopIsFirstMaximum | apply_massivetext_filter.py:92-97 | over a counter built from a sequence, the pick occurs most often, and no element with as many occurrences occurs earlier |
| Records.Size | download_get_text_from_warc.py:65 | `len(page)` is zero exactly for `{}` |
| Ledger.FirstMalformed | extract_text_en_fast.py:68-69 | the first line whose `path, status = ...split('\t')` raises, with every earlier line unpacking |
| Ledger.ParseLedger | extract_text_en_fast.py:64-72 | the reading loop yields the set of paths recorded SUCCESS, or the index of the first line at which it raises |
| Ledger.ParseLedgerLine | extract_text_en_fast.py:48 | a ledger line for a non-empty path free of tabs and newlines, and not starting with whitespace, unpacks to that path and its status |
| Ledger.LedgerRoundTrip | extract_text_en_fast.py:46-48 | reading back a ledger written one line per finished input yields exactly the inputs recorded as successful |
| Queues.Pending | download_get_text_from_warc.py:190-191 | the pending paths are exactly the listed paths that are not done |
| Queues.EnqueuePending | download_get_text_from_warc.py:190-193 | the filter loop puts every pending path on the queue, in order |
| Queues.EnqueueSentinels | download_get_text_from_warc.py:198-199 | one None sentinel per fetch worker follows what is queued |
| Queues.WrappedMembers | download_get_text_from_warc.py:190-199 | a path is on a filled queue exactly when it is among the enqueued paths |
| Queues.WrappedShape | download_get_text_from_warc.py:190-199 | a filled queue holds the paths in order, then only sentinels |
| Rotation.ShardsSnoc | download_get_text_from_warc.py:98-106 | one more line goes to the open file, and a file that reaches m lines is followed by a new empty one |
| Rotation.ShardsShape | download_get_text_from_warc.py:101-106 | after k lines there are k / m + 1 files, each but the last exactly m lines, the last k % m, and together the lines in order |
| Rotation.AppendStep | download_get_text_from_warc.py:98-106 | writing one line keeps every file holding its shard and leaves every other file untouched |
| Rotation.AppendUntouched | download_get_text_from_warc.py:103-106 | a write touches only the open file and the one it opens |
| ShardWriter.Writer.constructor | utils.py:5-13 | the new writer has strike index 0, no items, no open file and the files as they were |
| ShardWriter.Writer.GetFp | utils.py:15-19 | get_fp opens (and empties) the file of the current strike index only when none is open, and returns the open handle |
| ShardWriter.Writer.UpdateFp | utils.py:21-27 | update_fp closes the handle, advances the strike index only when a handle was open, and opens the next file |
| ShardWriter.Writer.WriteLine | utils.py:29-35 | write_line appends the line and a newline to the open file, counts it, rotates after every max_items lines, and reports a division by zero when max_items is 0 |
| ShardWriter.GetFpOnce | utils.py:15-19 | get_fp is idempotent: with a handle open it changes nothing, otherwise it opens the empty file of the current strike index |
| ShardWriter.UpdateFpAdvances | utils.py:21-27 | update_fp advances the strike index exactly when a handle was open, and leaves the empty file of the new index open |
| ShardWriter.WriteLineAppends | utils.py:29-35 | one write appends exactly the line and its newline, counts one item, and rotates exactly when the count becomes a multiple of max_items |
| ShardWriter.FileNameInjective | utils.py:17 | with a nonzero strike, different strike indices name different files |
| ShardWriter.RunShards | utils.py:29-35 | after k > 0 writes the strike index is k / max_items, file j holds shard j of the lines, and no other file changed; before the first write no file is opened |
| ShardWriter.SelfTest | utils.py:37-40 | the self-test leaves file_1 holding lines 0..999999 and file_2, still open, the remaining 401247 |
| MassiveText.NonEmptyLines | apply_massivetext_filter.py:53-55 | the counted lines are the non-empty stripped pieces |
| MassiveText.CountLines | apply_massivetext_filter.py:50-61 | the first line loop gives the non-empty lines, their counter, their number and their characters |
| MassiveText.SumDuplicates | apply_massivetext_filter.py:62-67 | the loop over `counter.items()` yields the number and the characters of all occurrences of lines that occur more than once |
| MassiveText.DistinctSum | apply_massivetext_filter.py:64-67 | summing count times weight over the distinct keys equals summing the weight over every position |
| MassiveText.DistinctLinesNoDuplicates | apply_massivetext_filter.py:64-67 | a document whose lines are pairwise different has no duplicate lines and no duplicate characters |
| MassiveText.LineCharsPositive | apply_massivetext_filter.py:68-69 | a document with a line has characters, so the character ratio never divides by zero once the line ratio does not |
| MassiveText.DuplicateLineStats | apply_massivetext_filter.py:50-67 | the four statistics of the duplicate check, as functions of the document's lines |
| MassiveText.CountNgrams | apply_massivetext_filter.py:29-38 | count_ngrams adds every full window of order 2, 3 and 4 to its table and leaves other tables alone |
| MassiveText.CountAt | apply_massivetext_filter.py:31-37 | the inner loop counts the window at i in each order 2..4 when that window is full |
| MassiveText.TablesOfNothing | apply_massivetext_filter.py:74 | the initial tables `{n: {} for n in range(2, 5)}` are the n-gram tables of a document with no lines, for n = 2, 3, 4 |
| MassiveText.TableStep | apply_massivetext_filter.py:79-81 | counting one more line adds that line's own windows, none spanning two lines |
| MassiveText.Tokenize | apply_massivetext_filter.py:74-81 | the second line loop gives the word list and, for n = 2..4, the table of the windows of each line's tokens |
| MassiveText.TokenizePiece | apply_massivetext_filter.py:76-81 | an empty stripped piece is skipped, and a non-empty one is tokenized and counted |
| MassiveText.MaxRepeat | apply_massivetext_filter.py:92-97 | the scan yields the most repeated gram of the table, the first in insertion order among ties |
| MassiveText.TopGramChoice | apply_massivetext_filter.py:91-100 | the chosen gram occurs in the gram stream as often as any other gram and earlier than any other gram that occurs as often |
| MassiveText.TopKeep | apply_massivetext_filter.py:86-100 | the three top-n-gram stages pass exactly when there are token characters and no stage's fraction exceeds its threshold |
| MassiveText.TopNgramChecks | apply_massivetext_filter.py:91-100 | the top-n-gram loop returns the verdict of the stages in order, going on to the overlap stages |
| MassiveText.OverlapCharCount | apply_massivetext_filter.py:112-121 | the overlap loop's `sum(mark)` is the sum of the lengths of the tokens inside some window that repeats an earlier one |
| MassiveText.MarkWindow | apply_massivetext_filter.py:115-121 | a window already counted marks its n tokens; either way it is counted |
| MassiveText.MarkMeaning | apply_massivetext_filter.py:113-118 | a mark entry is 0 or its token's length, and is nonzero exactly when the token is non-empty and lies in a repeated window |
| MassiveText.RepeatedMeaning | apply_massivetext_filter.py:115-116 | a window counts as repeated exactly when an earlier start has the same window |
| MassiveText.MarkSumBounded | apply_massivetext_filter.py:123 | `sum(mark)` never exceeds the token characters |
| MassiveText.NoRepeatPasses | apply_massivetext_filter.py:111-124 | when no window of order n repeats, nothing is marked and the check of that order passes |
| MassiveText.OverlapKeep | apply_massivetext_filter.py:111-124 | the overlap stages from pair k on pass exactly when there are characters and no later order marks too many |
| MassiveText.OverlapPass | apply_massivetext_filter.py:103-124 | the overlap stages pass exactly when there are token characters and no order 5..10 marks more than its threshold |
| MassiveText.OverlapChecks | apply_massivetext_filter.py:111-124 | the overlap loop returns the verdict of stages 5..10 in order |
| MassiveText.EvaluateAdmitted | apply_massivetext_filter.py:68-83 | a document of admissible length whose lines pass the duplicate check goes on to the n-gram stages over its token characters |
| MassiveText.KeepIffNoCheckRejects | apply_massivetext_filter.py:40-129 | process keeps a document exactly when its length is in bounds, it has a non-empty line, its duplicate ratios are at most 0.3, it has token characters, and no n-gram fraction exceeds its threshold |
| MassiveText.Process | apply_massivetext_filter.py:40-129 | process computes the verdict of the cascade, and a missing content or a length outside 100..100000 drops the document |
| MassiveText.Worker | apply_massivetext_filter.py:131-134 | worker returns the item with its flag, raises JSONDecodeError on a line json.loads rejects, and raises ZeroDivisionError where process divides by zero |
| MassiveText.FilterFile | apply_massivetext_filter.py:153-156 | the main loop over one file keeps the flagged records in input order, or stops at the first line whose worker raised |
| MassiveText.KeptPassed | apply_massivetext_filter.py:153-156 | every record written passed every check |
| MassiveText.BadLineStops | apply_massivetext_filter.py:153 | once a worker has raised, later lines change nothing |
| WarcRecords.LineLanguages | download_get_text_from_warc.py:31-36 | a line without the cld2 prefix lets the scan go on, and a line that returns codes returns at least one |
| WarcRecords.FirstLanguages | download_get_text_from_warc.py:30-37 | parse_metadata returns the codes of the first line that has some, [] exactly when every line lets the scan go on, and raises at the first line that raises before that |
| WarcRecords.LastValue | download_get_text_from_warc.py:44-50 | a header field takes the value of the last header of its name, and is absent exactly when no header has that name |
| WarcRecords.HeaderFieldsSnoc | download_get_text_from_warc.py:44-50 | one more header overwrites only its own field, and only when it is one of the three |
| WarcRecords.ParseWarcHeaders | download_get_text_from_warc.py:39-51 | the header loop builds the dict of the three fields, each from the last header of its name |
| WarcRecords.SplitWarc | download_get_text_from_warc.py:28-75 | the generator yields the grouped pages in order; it stops with the error of the first metadata record that raises (invalid UTF-8 under the strict decode included), and otherwise raises after its pages exactly when the archive breaks off |
| WarcRecords.GroupedStops | download_get_text_from_warc.py:72 | once parse_metadata has raised, later records change nothing |
| WarcRecords.GroupedShape | download_get_text_from_warc.py:63-74 | every yielded page has content; the pending page is {} or awaits its languages; there are no more pages than response records |
| WarcDownload.NormaliseLang | download_get_text_from_warc.py:124-125 | the result is zh exactly for zh, zh-cn and zh-tw, and it changes nothing else |
| WarcDownload.RoutedKeeps | download_get_text_from_warc.py:118-149 | a page is kept exactly when its languages (its own, else a detected zh or en) hold zh or en, its HTML parses and it holds at most three flagged words; the kept page differs from the input only in the languages and the title |
| WarcDownload.DetectedChineseIsZh | download_get_text_from_warc.py:123-130 | a page without languages whose detected language is zh-cn or zh-tw is routed as zh |
| WarcDownload.RoutedOrderFree | download_get_text_from_warc.py:144 | the routing does not depend on the iteration order of the flagged-word set |
| WarcDownload.RoutePage | download_get_text_from_warc.py:118-149 | the per-page body puts the routed page on the output queue or continues |
| WarcDownload.KeptPagesLanguages | download_get_text_from_warc.py:117-149 | every page put on the output queue has content and languages holding zh or en |
| WarcDownload.ProcessPath | download_get_text_from_warc.py:116-153 | for one path the worker queues the kept pages of the grouping; it reports False with nothing queued when the download fails, and False after the pages already queued when the grouping raises or the archive breaks off |
| WarcDownload.ProcessedPagesLanguages | download_get_text_from_warc.py:117-149 | everything a fetch worker queues has content and zh or en among its languages |
| WarcDownload.RawNamesDistinct | download_get_text_from_warc.py:90 | the file names of one writer are pairwise different |
| WarcDownload.WriteWorker | download_get_text_from_warc.py:88-106 | the write worker's file j holds shard j (50000 records each) of the records before the sentinel, the last file being the one left open, and no other file changes |
| WarcDownload.WriteRecord | download_get_text_from_warc.py:98-106 | one record is appended with its newline and counted, and every 50000th record moves on to the next file |
| WarcDownload.TotalPaths | download_get_text_from_warc.py:166-168 | each URL is the CC domain, '/', and the stripped line of the paths file, one per line |
| WarcDownload.FillInputQueue | download_get_text_from_warc.py:180-199 | the main process's loops build the input queue from the paths file and the ledger, or stop at the ledger line that raises |
| WarcDownload.InputQueueMeaning | download_get_text_from_warc.py:180-199 | the queue holds the paths that are not done, in file order, then exactly one sentinel per fetch worker |
| WarcDownload.InputQueueMembers | download_get_text_from_warc.py:190-193 | a path is queued exactly when the paths file lists it and the ledger does not record it done |
| WarcDownload.AwaitedAsWrittenMiscounts | download_get_text_from_warc.py:214 | the count as written waits for no report where one path is queued, and for one report where none is |
| WarcDownload.AwaitedCounts | download_get_text_from_warc.py:211-224 | the corrected count plus the number of done lines is the number of paths in the file |
| WarcDownload.AwaitedIsQueued | download_get_text_from_warc.py:190-199 | the corrected count is the number of paths on the input queue |
| WarcDownload.CompletionLoop | download_get_text_from_warc.py:211-224 | the corrected completion loop (the intended half of the finding below): it writes one ledger line per report, in arrival order, until as many reports have come in as paths were put on the input queue (`Awaited`); the stop test as written at line 214 is modelled only by `AwaitedAsWritten` |
| ExtractEn.ProcessGoose | extract_text_en_fast.py:19-28 | only the content changes: to the extracted text, or '' when goose raises |
| ExtractEn.ExtractWorker | extract_text_en_fast.py:35-48 | a worker queues every English-only record of a file after goose, and appends a SUCCESS line for the file's basename unless a line, or the gzip stream, raised, in which case it appends FAILED |
| ExtractEn.ExtractedFailed | extract_text_en_fast.py:43-45 | once a line has raised, the rest of the file changes nothing |
| ExtractEn.ExtractedAppend | extract_text_en_fast.py:36-41 | the loop over two parts is the loop over the first, continued with the second only when the first did not raise |
| ExtractEn.ExtractedEnglish | extract_text_en_fast.py:39-41 | every queued record is English and not Chinese, has content, and is goose applied to a record of the file |
| ExtractEn.FillExtractQueue | extract_text_en_fast.py:60-79 | the main process queues every file of the data directory not recorded done, then one sentinel per fetch worker; a fresh output directory means nothing is done |
| ExtractEn.Joined | extract_text_en_fast.py:76 | each queued path is the data directory joined with a listed name |
| ExtractEn.ResumeSkips | extract_text_en_fast.py:74-76 | a file a worker recorded SUCCESS is not queued again on the next run |
| ExtractEn.PendingQueued | extract_text_en_fast.py:74-76 | every listed file not recorded done is queued |
| ExtractEn.StartIndexBounds | extract_text_en_fast.py:85 | start_index is the full size of the listing exactly when every name ends in .gz, and 0 exactly when none does |
| ExtractEn.ExtractOutputShards | extract_text_en_fast.py:87-91 | the records written go a million per file into the files numbered from start_index, and no other file changes |
| ExtractEn.ResumeFresh | extract_text_en_fast.py:85-87 | no file a run opens is one of the text_content files numbered below start_index |
| MoveDownloaded.IndexOfRawFileName | mv_downloaded.py:21-23 | the index read back from `raw_content_{i}.jsonl.gz` is i |
| MoveDownloaded.RawFileNameInjective | mv_downloaded.py:26 | different indexes name different files |
| MoveDownloaded.IndexesByMeaning | mv_downloaded.py:20-24 | the parsing loop yields the index of every name, position by position, or the first position whose name int() rejects |
| MoveDownloaded.ParseIndexes | mv_downloaded.py:19-24 | the first loop computes all_indexes, or stops at the first name that does not parse |
| MoveDownloaded.MovedMembers | mv_downloaded.py:27 | an index is moved exactly when it is present and so is index + num_write_procs |
| MoveDownloaded.Rename | mv_downloaded.py:29 | a rename fails, naming the file, exactly when the file is missing from the download directory; otherwise the download directory loses exactly that one file, the output directory gains that file and no other and loses nothing, and the two directories together hold the same names as before |
| MoveDownloaded.MoveIndexes | mv_downloaded.py:25-31 | the second loop renames each file whose successor index is present, and stops at the first rename that fails |
| MoveDownloaded.MoveFiles | mv_downloaded.py:18-31 | the script's two loops: it stops with the bad name or the missing file, or leaves the directories as the moves decide |
| MoveDownloaded.MovesFromEffect | mv_downloaded.py:25-31 | a completed moving loop takes exactly the moved names out of the download directory and adds them to the output directory |
| MoveDownloaded.MovesFromSucceeds | mv_downloaded.py:25-31 | with distinct indexes whose files are all present, no rename fails |
| MoveDownloaded.CanonicalMoves | mv_downloaded.py:18-31 | over the raw files the writers leave, the script moves exactly the files whose index + num_write_procs is present and leaves the rest |
| MoveDownloaded.MovedExactlyClosed | mv_downloaded.py:27 | against the writers' numbering, a file is moved exactly when its writer has opened a later file, so every writer's last, possibly open, file stays |

## Left out

- Gzip compression and decompression, HTTP downloads (`requests.get`), reading and writing real files, `os.makedirs`, `tqdm` progress bars and `print` output are not modelled. Files are a map from path to text, a download is a failure or the records of its archive with a flag saying whether the archive breaks off after them, a metadata payload carries a flag saying whether it is valid UTF-8, and a gzip stream of the extract script that breaks after some lines is a flag.
- jieba, BeautifulSoup, langdetect, goose, `json.loads` and `json.dumps` are function parameters; a raised exception is `None`.
- The threshold floats 0.3, 0.2, 0.18, … are exact decimal fractions here; floating-point rounding of `/` is not modelled.
- Processes, `multiprocessing` queues and their timing are not modelled. Each worker is a function of the items it receives. A queue without a sentinel stands for one that blocks for ever. The extract script's writer loop (its 10-second timeout and its `is_alive` test) is modelled as writing the records in the order they leave the queue.
- `split_wart_file` is a generator; it is modelled as the list it yields, together with the error that ended it. This is equivalent because nothing the consumer does per page can raise out of its loop.
- The order of `os.listdir` and of `sorted` is taken as given: the listing is a parameter.
- `int()` on non-ASCII digits is not modelled; `ParseInt` accepts ASCII digits with single underscores, an optional sign and surrounding whitespace.
- Pages and records hold only the keys the pipeline reads or writes (timestamp, id, url, content, languages, title). `languages` is either the cld2 code list or one detected code.
- The apply filter's main program (listing the data directory, skipping names that do not end in `.gz`, the worker pool, writing the output archive) is modelled only as the loop over the records of one file (`MassiveText.FilterFile`).
- MassiveText.Worker: a JSON line that is not an object (AttributeError on `item.get`, apply_massivetext_filter.py:41) or whose `content` is null or not a string (TypeError on `len(text)`, :46) is not represented: `Page.content` is a string or absent, so such a record can only be read as a line `decode` rejects, which stops the file at the same line but under the name JSONDecodeError.
- The download script reads `already_done.paths` in the watch directory but writes its completion ledger to `complete.paths`, opened with mode `'w'` (truncated on every run). The model reads back whatever ledger is supplied.
- The mover script's `NUM_WRITE_PROCS = 1` is replaced at once by the `--num_write_procs` argument (default 6), so the stride is the parameter `n`. A name such as `raw_content_007.jsonl.gz` parses to 7, and the file the script then rebuilds is `raw_content_7.jsonl.gz`, whose rename fails (`Missing`).
- MoveDownloaded.MovesFromSucceeds: stated only for distinct indexes; a listing in which two names parse to the same index renames that file twice, and the second rename fails.
- ExtractEn.ExtractOutputShards: stated for a non-empty output; with no records the writer never opens a file (`ShardWriter.RunShards` states that case).
- The `writers` list the download script joins at the end is never filled, so its final join does nothing; process joining is not modelled.
- `download_common_crawl_paths.py` is not part of this model.

## Findings

| source | as written | input that shows it | evidently intended | confidence | as-written member | corrected member |
|---|---|---|---|---|---|---|
| download_get_text_from_warc.py:214 | the completion loop stops once `num_finished + len(already_done) >= len(total_paths)` | a ledger that records a path missing from the paths file: paths `["a"]`, done `{"b"}` wait for 0 reports while one path is queued; a path listed twice and done once: `["a", "a"]`, done `{"a"}` wait for 1 report while none is queued | wait for one report per path put on the input queue | not executed | WarcDownload.AwaitedAsWrittenMiscounts | WarcDownload.AwaitedCounts |
