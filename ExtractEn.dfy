/** The English extraction script: its fetch workers keep the downloaded
    records that are English and not Chinese, replace their content by the
    text goose extracts, and report each input file in the ledger; the main
    process skips the files already recorded SUCCESS and writes the records
    through a Writer whose numbering starts after the archives already in
    the output directory. */
module ExtractEn {
  import opened Wrappers
  import opened Strings
  import opened Records
  import opened Ledger
  import opened Queues
  import opened Rotation
  import opened ShardWriter

  const NumFetch := 40
  const LedgerName := "already_done.paths"
  const TextPrefix := "text_content"
  const TextMaxItems := 1000000

  /** process_goose: the record with its content replaced by the text goose
      extracts from it ('' when the key is missing), or by '' when goose
      raises.  extract stands for g.extract(raw_html=...).cleaned_text. */
  function ProcessGoose(item: Page, extract: string -> Option<string>): (r: Page)
    ensures r.(content := item.content) == item
    ensures var e := extract(item.content.GetOr(""));
      r.content == Some(if e.Some? then e.value else "")
  {
    var e := extract(item.content.GetOr(""));
    item.(content := Some(match e case Some(text) => text case None => ""))
  }

  /** The language test of the worker loop. */
  predicate IsEnglishOnly(langs: Languages) {
    HasLanguage(langs, "en") && !HasLanguage(langs, "zh")
  }

  /** What a worker has done with the lines of one file so far: the
      records put on the output queue, and whether no line has raised. */
  datatype Outcome = Outcome(queued: seq<Page>, ok: bool)

  /** The effect of one line on an outcome that has not failed: a line
      json.loads rejects, or a record without languages, raises; an
      English-only record is queued after goose; any other is skipped. */
  function LineStep(o: Outcome, line: string, decode: string -> Option<Page>,
                    extract: string -> Option<string>): Outcome
  {
    if !o.ok then o
    else match decode(line)
      case None => Outcome(o.queued, false)
      case Some(item) =>
        if item.languages.None? then Outcome(o.queued, false)
        else if IsEnglishOnly(item.languages.value) then Outcome(o.queued + [ProcessGoose(item, extract)], true)
        else o
  }

  /** The loop over the lines of one file; decode stands for json.loads
      followed by the conversion to a record (None where either raises). */
  function Extracted(lines: seq<string>, decode: string -> Option<Page>,
                     extract: string -> Option<string>): Outcome
    decreases |lines|
  {
    if |lines| == 0 then Outcome([], true)
    else LineStep(Extracted(lines[..|lines| - 1], decode, extract), lines[|lines| - 1], decode, extract)
  }

  /** A file read as its lines; broken where gzip raises after them (an
      unreadable file being broken with no lines). */
  datatype FileRead = FileRead(lines: seq<string>, broken: bool)

  /** worker for one path: the records it queues and the ledger line it
      appends.  A record queued before the line that raised stays queued. */
  method ExtractWorker(path: string, file: FileRead, decode: string -> Option<Page>,
                       extract: string -> Option<string>)
    returns (queued: seq<Page>, ledgerLine: string)
    ensures var o := Extracted(file.lines, decode, extract);
      && queued == o.queued
      && ledgerLine == LedgerLine(Basename(path), o.ok && !file.broken)
  {
    var ok := true;
    queued := [];
    var i := 0;
    while i < |file.lines| && ok
      invariant i <= |file.lines|
      invariant Outcome(queued, ok) == Extracted(file.lines[..i], decode, extract)
      invariant !ok ==> Extracted(file.lines, decode, extract) == Outcome(queued, false)
    {
      assert file.lines[..i + 1][..i] == file.lines[..i];
      var item := decode(file.lines[i]);
      if item.None? || item.value.languages.None? {
        ok := false;
      } else if IsEnglishOnly(item.value.languages.value) {
        var processed := ProcessGoose(item.value, extract);
        queued := queued + [processed];
      }
      i := i + 1;
      if !ok {
        ExtractedFailed(file.lines, i, decode, extract);
      }
    }
    if ok {
      assert file.lines[..i] == file.lines;
    }
    ledgerLine := LedgerLine(Basename(path), ok && !file.broken);
  }

  /** Once a prefix has failed, the rest of the file changes nothing. */
  lemma ExtractedFailed(lines: seq<string>, i: nat, decode: string -> Option<Page>,
                        extract: string -> Option<string>)
    requires i <= |lines| && !Extracted(lines[..i], decode, extract).ok
    ensures Extracted(lines, decode, extract) == Extracted(lines[..i], decode, extract)
  {
    assert lines == lines[..i] + lines[i..];
    ExtractedAppend(lines[..i], lines[i..], decode, extract);
  }

  /** The loop over two parts of a file is the loop over the first part,
      continued with the second only when the first did not raise. */
  lemma {:induction false} ExtractedAppend(a: seq<string>, b: seq<string>, decode: string -> Option<Page>,
                                           extract: string -> Option<string>)
    ensures var oa, ob := Extracted(a, decode, extract), Extracted(b, decode, extract);
      Extracted(a + b, decode, extract) ==
        if oa.ok then Outcome(oa.queued + ob.queued, ob.ok) else oa
    decreases |b|
  {
    if |b| == 0 {
      assert a + b == a;
    } else {
      var b' := b[..|b| - 1];
      assert (a + b)[..|a + b| - 1] == a + b';
      ExtractedAppend(a, b', decode, extract);
    }
  }

  /** Every record a worker queues is English-only, with its content
      replaced, and comes from a line of the file. */
  lemma {:induction false} ExtractedEnglish(lines: seq<string>, decode: string -> Option<Page>,
                                            extract: string -> Option<string>)
    ensures forall q | q in Extracted(lines, decode, extract).queued ::
      && q.languages.Some? && IsEnglishOnly(q.languages.value) && q.content.Some?
      && exists k | 0 <= k < |lines| :: decode(lines[k]).Some? && q == ProcessGoose(decode(lines[k]).value, extract)
    decreases |lines|
  {
    if |lines| > 0 {
      var init := lines[..|lines| - 1];
      ExtractedEnglish(init, decode, extract);
      forall q | q in Extracted(init, decode, extract).queued
        ensures exists k | 0 <= k < |lines| :: decode(lines[k]).Some? && q == ProcessGoose(decode(lines[k]).value, extract)
      {
        var k :| 0 <= k < |init| && decode(init[k]).Some? && q == ProcessGoose(decode(init[k]).value, extract);
        assert lines[k] == init[k];
      }
    }
  }

  /** already_done: {} when the output directory does not exist yet (it is
      then created), else the SUCCESS names of its ledger; Failure(i) where
      line i of the ledger does not unpack. */
  function ExtractDone(outputExists: bool, ledger: Option<seq<string>>): Result<set<string>, nat> {
    if !outputExists then Success({}) else DoneSet(ledger)
  }

  /** os.path.join(data_dir, fn) for each name. */
  function Joined(dir: string, names: seq<string>): (r: seq<string>)
    ensures |r| == |names| && forall k | 0 <= k < |names| :: r[k] == PathJoin(dir, names[k])
    decreases |names|
  {
    if |names| == 0 then [] else Joined(dir, names[..|names| - 1]) + [PathJoin(dir, names[|names| - 1])]
  }

  /** The input queue: the data directory's files (in listing order) whose
      names are not done, then one None per fetch worker. */
  function ExtractQueue(dataDir: string, names: seq<string>, done: set<string>): seq<Option<string>> {
    Wrapped(Joined(dataDir, Pending(names, done))) + Sentinels(NumFetch)
  }

  /** The main process's filling of the input queue. */
  method FillExtractQueue(dataDir: string, names: seq<string>, outputExists: bool,
                          ledger: Option<seq<string>>)
    returns (r: Result<seq<Option<string>>, nat>)
    ensures ExtractDone(outputExists, ledger).Failure? ==> r == Failure(ExtractDone(outputExists, ledger).error)
    ensures ExtractDone(outputExists, ledger).Success? ==>
      r == Success(ExtractQueue(dataDir, names, ExtractDone(outputExists, ledger).value))
  {
    var done: set<string> := {};
    if outputExists && ledger.Some? {
      var parsed := ParseLedger(ledger.value);
      if parsed.Failure? {
        return Failure(parsed.error);
      }
      done := parsed.value;
    }
    var queue: seq<Option<string>> := [];
    ghost var pending: seq<string> := [];
    assert names[..0] == [];
    for i := 0 to |names|
      invariant pending == Pending(names[..i], done)
      invariant queue == Wrapped(Joined(dataDir, pending))
    {
      PendingStep(names, done, i);
      if names[i] !in done {
        assert (pending + [names[i]])[..|pending|] == pending;
        WrappedSnoc(Joined(dataDir, pending), PathJoin(dataDir, names[i]));
        queue := queue + [Some(PathJoin(dataDir, names[i]))];
        pending := pending + [names[i]];
      }
    }
    assert names[..|names|] == names;
    queue := EnqueueSentinels(queue, NumFetch);
    return Success(queue);
  }

  /** Joining a directory onto names without '/' keeps them apart. */
  lemma JoinedInjective(dir: string, a: string, b: string)
    requires '/' !in a && '/' !in b && a != b
    ensures PathJoin(dir, a) != PathJoin(dir, b)
  {
    BasenameOfJoin(dir, a);
    BasenameOfJoin(dir, b);
  }

  /** A file the worker reported SUCCESS in a ledger that otherwise reads
      back is not queued again on the next run, while every listed file it
      did not record is. */
  lemma ResumeSkips(dataDir: string, names: seq<string>, ledger: seq<string>, fn: string)
    requires forall k | 0 <= k < |names| :: '/' !in names[k]
    requires '/' !in fn && LedgerSafe(fn)
    requires AlreadyDone(ledger).Success?
    requires LedgerLine(Basename(PathJoin(dataDir, fn)), true) in ledger
    ensures fn in ExtractDone(true, Some(ledger)).value
    ensures Some(PathJoin(dataDir, fn)) !in ExtractQueue(dataDir, names, ExtractDone(true, Some(ledger)).value)
  {
    BasenameOfJoin(dataDir, fn);
    ParseLedgerLine(fn, true);
    var k :| 0 <= k < |ledger| && ledger[k] == LedgerLine(fn, true);
    assert IsSuccessLine(ledger[k]);
    var done := AlreadyDone(ledger).value;
    assert fn in done;
    var pending := Pending(names, done);
    var paths := Joined(dataDir, pending);
    WrappedMembers(paths, NumFetch);
    if PathJoin(dataDir, fn) in paths {
      var j :| 0 <= j < |paths| && paths[j] == PathJoin(dataDir, fn);
      assert pending[j] in names;
      JoinedInjective(dataDir, pending[j], fn);
    }
  }

  /** A listed file that is not done is queued. */
  lemma PendingQueued(dataDir: string, names: seq<string>, done: set<string>, fn: string)
    requires fn in names && fn !in done
    ensures Some(PathJoin(dataDir, fn)) in ExtractQueue(dataDir, names, done)
  {
    var pending := Pending(names, done);
    var j :| 0 <= j < |pending| && pending[j] == fn;
    WrappedMembers(Joined(dataDir, pending), NumFetch);
    assert Joined(dataDir, pending)[j] == PathJoin(dataDir, fn);
  }

  /** start_index: the number of names in the output directory ending in
      ".gz". */
  function StartIndex(listing: seq<string>): (n: nat)
    ensures n <= |listing|
    decreases |listing|
  {
    if |listing| == 0 then 0
    else StartIndex(listing[..|listing| - 1]) + (if EndsWith(listing[|listing| - 1], ".gz") then 1 else 0)
  }

  /** start_index counts exactly the archives: it is the size of the
      listing when every name ends in ".gz" and 0 when none does. */
  lemma {:induction false} StartIndexBounds(listing: seq<string>)
    ensures StartIndex(listing) == |listing| <==> forall k | 0 <= k < |listing| :: EndsWith(listing[k], ".gz")
    ensures StartIndex(listing) == 0 <==> forall k | 0 <= k < |listing| :: !EndsWith(listing[k], ".gz")
    decreases |listing|
  {
    if |listing| > 0 {
      var init := listing[..|listing| - 1];
      StartIndexBounds(init);
      assert forall k | 0 <= k < |init| :: init[k] == listing[k];
    }
  }

  /** The Writer the main process writes through. */
  function TextConfig(outputDir: string, startIndex: int): Config {
    Config(outputDir, TextPrefix, startIndex, 1, TextMaxItems)
  }

  /** The main process's writer loop: one JSON line per record, in the
      order the records leave the output queue. */
  function ExtractOutput(outputDir: string, listing: seq<string>, items: seq<Page>, dumps: Page -> string,
                         disk: map<string, string>): WriterState
  {
    Run(TextConfig(outputDir, StartIndex(listing)), Initial(disk), seq(|items|, k requires 0 <= k < |items| => dumps(items[k])))
  }

  /** The records written go, a million per file, into the files numbered
      from start_index, and no other file changes. */
  lemma ExtractOutputShards(outputDir: string, listing: seq<string>, items: seq<Page>, dumps: Page -> string,
                            disk: map<string, string>)
    requires |items| > 0
    ensures var cfg := TextConfig(outputDir, StartIndex(listing));
      var lines := seq(|items|, k requires 0 <= k < |items| => dumps(items[k]));
      Holds(cfg, disk, ExtractOutput(outputDir, listing, items, dumps, disk), lines)
  {
    var cfg := TextConfig(outputDir, StartIndex(listing));
    RunShards(cfg, disk, seq(|items|, k requires 0 <= k < |items| => dumps(items[k])));
  }

  /** The files a run opens are numbered from start_index on, so none of
      them is one of the archives text_content_0 up to
      text_content_{start_index - 1} that earlier runs left behind. */
  lemma ResumeFresh(outputDir: string, listing: seq<string>, i: int, j: int)
    requires 0 <= i && 0 <= j < StartIndex(listing)
    ensures FileName(TextConfig(outputDir, StartIndex(listing)), i) != FileName(TextConfig(outputDir, 0), j)
  {
    var k := StartIndex(listing);
    assert FileName(TextConfig(outputDir, k), i) == FileName(TextConfig(outputDir, 0), i + k);
    FileNameInjective(TextConfig(outputDir, 0), i + k, j);
  }
}
