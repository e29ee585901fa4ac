/** The per-page and per-path logic of the WARC download script: language
    routing and the bad-word filter of a fetch worker, the path report it
    sends back, the rotating output files of a write worker, and the resume
    ledger and queue filling of the main process. */
module WarcDownload {
  import opened Wrappers
  import opened Strings
  import opened Records
  import opened BadWords
  import opened Ledger
  import opened Rotation
  import opened Queues
  import opened WarcRecords

  const CCDomain := "https://data.commoncrawl.org"
  const RecordsPerFile := 50000

  /** langdetect's zh-cn and zh-tw count as zh. */
  function NormaliseLang(lang: string): (r: string)
    ensures r == "zh" <==> lang == "zh" || lang == "zh-cn" || lang == "zh-tw"
    ensures r != lang ==> r == "zh"
  {
    if lang == "zh-cn" || lang == "zh-tw" then "zh" else lang
  }

  /** What BeautifulSoup yields for a page: its text and its title's text. */
  datatype Soup = Soup(text: string, title: Option<string>)

  /** BeautifulSoup(page['content']), None where it raises (a missing
      content key included). */
  function Parsed(page: Page, html: string -> Option<Soup>): Option<Soup> {
    if page.content.Some? then html(page.content.value) else None
  }

  /** The languages a page is routed by: its own, or else the detected one
      when that is zh or en (None: the page is skipped). */
  function RouteLanguages(page: Page, html: string -> Option<Soup>, detect: string -> Option<string>): Option<Languages> {
    if page.languages.Some? then page.languages
    else match Parsed(page, html)
      case None => None
      case Some(soup) =>
        match detect(soup.text)
        case None => None
        case Some(l) =>
          var lang := NormaliseLang(l);
          if lang == "zh" || lang == "en" then Some(Detected(lang)) else None
  }

  /** The body of the page loop of process_worker: the page put on the
      output queue, or None where the loop continues.  html and detect stand
      for BeautifulSoup and langdetect (None where they raise), badwords for
      the flagged-word set in its iteration order. */
  function Routed(page: Page, html: string -> Option<Soup>, detect: string -> Option<string>,
                  badwords: seq<string>): Option<Page>
  {
    match RouteLanguages(page, html, detect)
    case None => None
    case Some(langs) =>
      if !HasLanguage(langs, "zh") && !HasLanguage(langs, "en") then None
      else match Parsed(page, html)
        case None => None
        case Some(soup) =>
          if BadTotal(soup.text, badwords) > 3 then None
          else
            var p := page.(languages := Some(langs));
            Some(if soup.title.Some? then p.(title := soup.title) else p)
  }

  /** A page is kept exactly when it has (or is given) languages that
      contain zh or en, its HTML parses, and its text holds at most three
      flagged words; the kept page differs from the input only in the
      languages it was given and in the title. */
  lemma RoutedKeeps(page: Page, html: string -> Option<Soup>, detect: string -> Option<string>,
                    badwords: seq<string>)
    ensures Routed(page, html, detect, badwords).Some? <==>
      && RouteLanguages(page, html, detect).Some?
      && (HasLanguage(RouteLanguages(page, html, detect).value, "zh")
          || HasLanguage(RouteLanguages(page, html, detect).value, "en"))
      && Parsed(page, html).Some?
      && BadTotal(Parsed(page, html).value.text, badwords) <= 3
    ensures Routed(page, html, detect, badwords).Some? ==>
      var q := Routed(page, html, detect, badwords).value;
      && q.timestamp == page.timestamp && q.id == page.id && q.url == page.url && q.content == page.content
      && (page.languages.Some? ==> q.languages == page.languages)
      && (page.languages.None? ==> q.languages == Some(Detected("zh")) || q.languages == Some(Detected("en")))
      && q.title == (if Parsed(page, html).value.title.Some? then Parsed(page, html).value.title else page.title)
  {
  }

  /** A page without languages whose detected language is zh-cn or zh-tw is
      routed as zh. */
  lemma DetectedChineseIsZh(page: Page, html: string -> Option<Soup>, detect: string -> Option<string>)
    requires page.languages.None? && Parsed(page, html).Some?
    requires detect(Parsed(page, html).value.text) in {Some("zh-cn"), Some("zh-tw")}
    ensures RouteLanguages(page, html, detect) == Some(Detected("zh"))
  {
  }

  /** The routing verdict does not depend on the order in which the
      flagged-word set is iterated. */
  lemma RoutedOrderFree(page: Page, html: string -> Option<Soup>, detect: string -> Option<string>,
                        a: seq<string>, b: seq<string>)
    requires multiset(a) == multiset(b)
    ensures Routed(page, html, detect, a) == Routed(page, html, detect, b)
  {
    if Parsed(page, html).Some? {
      BadTotalOrderFree(Parsed(page, html).value.text, a, b);
    }
  }

  method RoutePage(page: Page, html: string -> Option<Soup>, detect: string -> Option<string>,
                   badwords: seq<string>) returns (out: Option<Page>)
    ensures out == Routed(page, html, detect, badwords)
  {
    var p := page;
    if p.languages.None? {
      var soup := Parsed(p, html);
      if soup.None? {
        return None;
      }
      var lang := detect(soup.value.text);
      if lang.None? {
        return None;
      }
      var l := NormaliseLang(lang.value);
      if l == "zh" || l == "en" {
        p := p.(languages := Some(Detected(l)));
      } else {
        return None;
      }
    }
    if !HasLanguage(p.languages.value, "zh") && !HasLanguage(p.languages.value, "en") {
      return None;
    }
    var soup := Parsed(p, html);
    if soup.None? {
      return None;
    }
    var bad := IsBadDoc(soup.value.text, badwords);
    if bad {
      return None;
    }
    if soup.value.title.Some? {
      p := p.(title := soup.value.title);
    }
    return Some(p);
  }

  /** The pages of a path that reach the output queue, in order. */
  function KeptPages(pages: seq<Page>, html: string -> Option<Soup>, detect: string -> Option<string>,
                     badwords: seq<string>): seq<Page>
    decreases |pages|
  {
    if |pages| == 0 then []
    else
      var r := Routed(pages[|pages| - 1], html, detect, badwords);
      KeptPages(pages[..|pages| - 1], html, detect, badwords) + (if r.Some? then [r.value] else [])
  }

  /** Every page on the output queue has content and languages containing
      zh or en. */
  lemma {:induction false} KeptPagesLanguages(pages: seq<Page>, html: string -> Option<Soup>,
                                              detect: string -> Option<string>, badwords: seq<string>)
    requires forall k | 0 <= k < |pages| :: pages[k].content.Some?
    ensures forall q | q in KeptPages(pages, html, detect, badwords) ::
      q.content.Some? && q.languages.Some?
      && (HasLanguage(q.languages.value, "zh") || HasLanguage(q.languages.value, "en"))
    decreases |pages|
  {
    if |pages| > 0 {
      KeptPagesLanguages(pages[..|pages| - 1], html, detect, badwords);
      RoutedKeeps(pages[|pages| - 1], html, detect, badwords);
    }
  }

  /** What one fetch worker does with one path: the pages it puts on the
      output queue and the (path, ok) report.  download is None where the
      download fails (status other than 200), which raises before any page;
      an error while grouping, or an archive that breaks off, reports False
      but leaves the pages already queued where they are. */
  method ProcessPath(path: string, download: Option<Archive>, decode: string -> Option<Json>,
                     html: string -> Option<Soup>, detect: string -> Option<string>, badwords: seq<string>)
    returns (queued: seq<Page>, report: (string, bool))
    ensures download.None? ==> queued == [] && report == (path, false)
    ensures download.Some? ==>
      var g := Grouped(download.value.records, decode);
      && queued == KeptPages(g.yielded, html, detect, badwords)
      && report == (path, g.failed.None? && !download.value.broken)
  {
    if download.None? {
      return [], (path, false);
    }
    var pages, error := SplitWarc(download.value, decode);
    queued := [];
    assert pages[..0] == [];
    for i := 0 to |pages|
      invariant queued == KeptPages(pages[..i], html, detect, badwords)
    {
      assert pages[..i + 1][..i] == pages[..i];
      var out := RoutePage(pages[i], html, detect, badwords);
      if out.Some? {
        queued := queued + [out.value];
      }
    }
    assert pages[..|pages|] == pages;
    report := (path, error.None?);
  }

  /** Every page a fetch worker queues came out of the grouping with content
      and carries zh or en among its languages. */
  lemma ProcessedPagesLanguages(records: seq<Record>, decode: string -> Option<Json>,
                                html: string -> Option<Soup>, detect: string -> Option<string>, badwords: seq<string>)
    ensures forall q | q in KeptPages(Grouped(records, decode).yielded, html, detect, badwords) ::
      q.content.Some? && q.languages.Some?
      && (HasLanguage(q.languages.value, "zh") || HasLanguage(q.languages.value, "en"))
  {
    GroupedShape(records, decode);
    KeptPagesLanguages(Grouped(records, decode).yielded, html, detect, badwords);
  }

  /** download_dir/raw_content_{file_index * num_write_procs + pid}.jsonl.gz */
  function RawName(dir: string, numWriters: nat, pid: nat, fileIndex: nat): string {
    dir + "/raw_content_" + IntToString(fileIndex * numWriters + pid) + ".jsonl.gz"
  }

  function RawNames(dir: string, numWriters: nat, pid: nat): nat -> string {
    (j: nat) => RawName(dir, numWriters, pid, j)
  }

  lemma RawNamesDistinct(dir: string, numWriters: nat, pid: nat)
    requires numWriters > 0
    ensures Distinct(RawNames(dir, numWriters, pid))
  {
    forall i: nat, j: nat | i < j
      ensures RawNames(dir, numWriters, pid)(i) != RawNames(dir, numWriters, pid)(j)
    {
      assert i * numWriters < j * numWriters;
      IntToStringInjective(i * numWriters + pid, j * numWriters + pid);
      AffixInjective(dir + "/raw_content_", IntToString(i * numWriters + pid),
                        IntToString(j * numWriters + pid), ".jsonl.gz");
    }
  }

  /** The records before the first None sentinel, as the JSON lines written. */
  function Dumped(queue: seq<Option<Page>>, dumps: Page -> string): seq<string>
    decreases |queue|
  {
    if |queue| == 0 || queue[0].None? then [] else [dumps(queue[0].value)] + Dumped(queue[1..], dumps)
  }

  /** write_worker for writer pid of numWriters.  It opens file 0 at once,
      writes one JSON line per record until the None sentinel, and after
      every 50000 records moves on to the file index num_write_procs
      further.  disk maps the paths to the text written there; a queue that
      ends without a sentinel stands for one that blocks for ever.  The
      result: file j holds shard j of the dumped records, the last one
      being the file left open, and nothing else changed. */
  method WriteWorker(pid: nat, dir: string, numWriters: nat, queue: seq<Option<Page>>,
                     dumps: Page -> string, disk: map<string, string>)
    returns (written: map<string, string>, fileIndex: nat)
    requires pid < numWriters
    ensures var lines := Dumped(queue, dumps);
      && fileIndex == |lines| / RecordsPerFile
      && Stored(written, RawNames(dir, numWriters, pid), Shards(lines, RecordsPerFile))
      && Untouched(disk, written, RawNames(dir, numWriters, pid), fileIndex + 1)
  {
    RawNamesDistinct(dir, numWriters, pid);
    written, fileIndex := WriteRecords(RawNames(dir, numWriters, pid), queue, dumps, disk);
  }

  /** The loop of write_worker over any naming of its files in which no two
      indices share a name. */
  method WriteRecords(name: nat -> string, queue: seq<Option<Page>>, dumps: Page -> string,
                      disk: map<string, string>)
    returns (written: map<string, string>, fileIndex: nat)
    requires Distinct(name)
    ensures fileIndex == |Dumped(queue, dumps)| / RecordsPerFile
    ensures Keeps(disk, written, name, Dumped(queue, dumps), RecordsPerFile)
  {
    fileIndex := 0;
    var outputPath := name(fileIndex);
    written := disk[outputPath := ""];
    var numItems := 0;
    ghost var lines: seq<string> := [];
    OpenedFirst(disk, name);
    assert queue[0..] == queue;
    var i := 0;
    while i < |queue|
      invariant i <= |queue|
      invariant Dumped(queue, dumps) == lines + Dumped(queue[i..], dumps)
      invariant numItems == |lines| && fileIndex == numItems / RecordsPerFile
      invariant outputPath == name(fileIndex)
      invariant Keeps(disk, written, name, lines, RecordsPerFile)
    {
      var page := queue[i];
      DumpedAt(queue, dumps, i);
      if page.None? {
        assert lines + [] == lines;
        assert Dumped(queue, dumps) == lines;
        return;
      }
      var line := dumps(page.value);
      assert Dumped(queue, dumps) == (lines + [line]) + Dumped(queue[i + 1..], dumps);
      AppendStep(disk, written, name, lines, RecordsPerFile, line);
      written, outputPath, numItems, fileIndex := WriteRecord(name, written, outputPath, numItems, fileIndex, line);
      lines := lines + [line];
      i := i + 1;
    }
    assert Dumped(queue[i..], dumps) == [];
    assert lines + [] == lines;
    assert Dumped(queue, dumps) == lines;
  }

  /** Dumped from index i on: nothing at a sentinel, else the line of
      queue[i] followed by the rest. */
  lemma DumpedAt(queue: seq<Option<Page>>, dumps: Page -> string, i: nat)
    requires i < |queue|
    ensures queue[i].None? ==> Dumped(queue[i..], dumps) == []
    ensures queue[i].Some? ==> Dumped(queue[i..], dumps) == [dumps(queue[i].value)] + Dumped(queue[i + 1..], dumps)
  {
    assert queue[i..][1..] == queue[i + 1..];
  }

  /** One record of write_worker: write its line and newline, count it, and
      after every 50000th record close the file and open the next one, the
      path for file index j being name(j). */
  method WriteRecord(name: nat -> string, written: map<string, string>, outputPath: string,
                     numItems: nat, fileIndex: nat, line: string)
    returns (written': map<string, string>, outputPath': string, numItems': nat, fileIndex': nat)
    requires fileIndex == numItems / RecordsPerFile
    requires outputPath == name(fileIndex) && outputPath in written
    ensures written' == Append(written, name, numItems, RecordsPerFile, line)
    ensures numItems' == numItems + 1 && fileIndex' == numItems' / RecordsPerFile
    ensures outputPath' == name(fileIndex')
  {
    AppendCases(written, name, numItems, RecordsPerFile, line);
    DivModStep(numItems, RecordsPerFile);
    written' := written[outputPath := written[outputPath] + line + "\n"];
    numItems' := numItems + 1;
    fileIndex', outputPath' := fileIndex, outputPath;
    if numItems' % RecordsPerFile == 0 {
      fileIndex' := fileIndex + 1;
      outputPath' := name(fileIndex');
      written' := written'[outputPath' := ""];
    }
  }

  lemma OpenedFirst(disk: map<string, string>, name: nat -> string)
    ensures Keeps(disk, disk[name(0) := ""], name, [], RecordsPerFile)
  {
    assert Shards([], RecordsPerFile) == [[]];
    assert Text([]) == "";
    forall p | p in disk && (forall j: nat | j < 1 :: name(j) != p)
      ensures p in disk[name(0) := ""] && disk[name(0) := ""][p] == disk[p]
    {
      assert name(0) != p;
    }
  }

  /** The complete WARC URLs: CC_DOMAIN/ followed by each stripped line of
      the paths file. */
  function TotalPaths(pathLines: seq<string>): (r: seq<string>)
    ensures |r| == |pathLines|
    ensures forall i | 0 <= i < |r| :: r[i] == CCDomain + "/" + Strip(pathLines[i])
    decreases |pathLines|
  {
    if |pathLines| == 0 then []
    else TotalPaths(pathLines[..|pathLines| - 1]) + [CCDomain + "/" + Strip(pathLines[|pathLines| - 1])]
  }

  /** The input queue the main process fills: every pending path, then one
      None per fetch worker. */
  function InputQueue(pathLines: seq<string>, ledger: Option<seq<string>>, numFetch: nat): Result<seq<Option<string>>, nat> {
    match DoneSet(ledger)
    case Failure(i) => Failure(i)
    case Success(done) => Success(Wrapped(Pending(TotalPaths(pathLines), done)) + Sentinels(numFetch))
  }

  /** The queue holds the paths that are not done, each once per line it
      has in the paths file and in file order, followed by exactly numFetch
      sentinels. */
  lemma InputQueueMeaning(pathLines: seq<string>, ledger: Option<seq<string>>, numFetch: nat)
    requires DoneSet(ledger).Success?
    ensures var q := InputQueue(pathLines, ledger, numFetch).value;
      var pending := Pending(TotalPaths(pathLines), DoneSet(ledger).value);
      && |q| == |pending| + numFetch
      && (forall k | 0 <= k < |pending| :: q[k] == Some(pending[k]))
      && (forall k | |pending| <= k < |q| :: q[k] == None)
  {
    var pending := Pending(TotalPaths(pathLines), DoneSet(ledger).value);
    assert InputQueue(pathLines, ledger, numFetch).value == Wrapped(pending) + Sentinels(numFetch);
    WrappedShape(pending, numFetch);
  }

  /** A path is on the queue exactly when the paths file lists it and the
      ledger does not record it as done. */
  lemma InputQueueMembers(pathLines: seq<string>, ledger: Option<seq<string>>, numFetch: nat)
    requires DoneSet(ledger).Success?
    ensures forall p :: Some(p) in InputQueue(pathLines, ledger, numFetch).value <==>
      p in TotalPaths(pathLines) && p !in DoneSet(ledger).value
  {
    var pending := Pending(TotalPaths(pathLines), DoneSet(ledger).value);
    assert InputQueue(pathLines, ledger, numFetch).value == Wrapped(pending) + Sentinels(numFetch);
    WrappedMembers(pending, numFetch);
  }

  /** The main process's loops: the ledger loop, the filter over the paths
      and the sentinels. */
  method FillInputQueue(pathLines: seq<string>, ledger: Option<seq<string>>, numFetch: nat)
    returns (r: Result<seq<Option<string>>, nat>)
    ensures r == InputQueue(pathLines, ledger, numFetch)
  {
    var totalPaths := ReadPaths(pathLines);
    var done: set<string> := {};
    if ledger.Some? {
      var parsed := ParseLedger(ledger.value);
      if parsed.Failure? {
        return Failure(parsed.error);
      }
      done := parsed.value;
    }
    var queue := EnqueuePending(totalPaths, done);
    queue := EnqueueSentinels(queue, numFetch);
    return Success(queue);
  }

  /** total_paths: the stripped lines of the paths file, prefixed. */
  method ReadPaths(pathLines: seq<string>) returns (totalPaths: seq<string>)
    ensures totalPaths == TotalPaths(pathLines)
  {
    totalPaths := [];
    for i := 0 to |pathLines|
      invariant totalPaths == TotalPaths(pathLines[..i])
    {
      assert pathLines[..i + 1][..i] == pathLines[..i];
      totalPaths := totalPaths + [CCDomain + "/" + Strip(pathLines[i])];
    }
    assert pathLines[..|pathLines|] == pathLines;
  }

  /** The number of path reports the main loop waits for, as written:
      it stops once num_finished + len(already_done) reaches
      len(total_paths). */
  function AwaitedAsWritten(totalPaths: seq<string>, done: set<string>): int {
    |totalPaths| - |done|
  }

  /** The number of reports the fetch workers send: one per path put on
      the input queue. */
  function Awaited(totalPaths: seq<string>, done: set<string>): (n: nat)
    ensures n <= |totalPaths|
  {
    |Pending(totalPaths, done)|
  }

  /** A ledger that records a path which is not in the paths file makes the
      loop wait for fewer reports than there are paths on the queue (here
      none instead of one), so the writers get their sentinels while a
      fetch worker is still sending pages; a path listed twice and recorded
      once makes it wait for a report that never comes. */
  lemma AwaitedAsWrittenMiscounts()
    ensures AwaitedAsWritten(["a"], {"b"}) == 0 && Awaited(["a"], {"b"}) == 1
    ensures AwaitedAsWritten(["a", "a"], {"a"}) == 1 && Awaited(["a", "a"], {"a"}) == 0
  {
    assert Pending(["a"], {"b"}) == ["a"] by {
      assert ["a"][..0] == [];
    }
    assert Pending(["a", "a"], {"a"}) == [] by {
      assert ["a", "a"][..1] == ["a"];
      assert ["a"][..0] == [];
    }
  }

  function Occurrences(ps: seq<string>, done: set<string>): nat
    decreases |ps|
  {
    if |ps| == 0 then 0 else Occurrences(ps[..|ps| - 1], done) + (if ps[|ps| - 1] in done then 1 else 0)
  }

  /** The count waited for is the number of paths the workers report on:
      every path in the file minus each line whose path is done.  It agrees
      with the count as written exactly when the done paths each occur once
      in the file, as in a rerun over the same, duplicate-free file. */
  lemma {:induction false} AwaitedCounts(totalPaths: seq<string>, done: set<string>)
    ensures Awaited(totalPaths, done) + Occurrences(totalPaths, done) == |totalPaths|
    decreases |totalPaths|
  {
    if |totalPaths| > 0 {
      AwaitedCounts(totalPaths[..|totalPaths| - 1], done);
    }
  }

  /** The completion loop of the main process, waiting for the corrected
      count: one ledger line per report, in arrival order, until Awaited
      reports have come in.  reports is what the fetch workers send; fewer
      reports than awaited stands for a loop that blocks, and log is then
      what it has written so far. */
  method CompletionLoop(totalPaths: seq<string>, done: set<string>, reports: seq<(string, bool)>)
    returns (log: seq<string>)
    ensures |log| == if |reports| < Awaited(totalPaths, done) then |reports| else Awaited(totalPaths, done)
    ensures forall k | 0 <= k < |log| :: log[k] == LedgerLine(reports[k].0, reports[k].1)
  {
    var awaited := Awaited(totalPaths, done);
    var numFinished := 0;
    log := [];
    while numFinished < awaited && numFinished < |reports|
      invariant numFinished <= awaited && numFinished <= |reports|
      invariant |log| == numFinished
      invariant forall k | 0 <= k < numFinished :: log[k] == LedgerLine(reports[k].0, reports[k].1)
    {
      var (path, status) := reports[numFinished];
      log := log + [LedgerLine(path, status)];
      numFinished := numFinished + 1;
    }
  }

  /** The corrected count is the number of paths the main process puts on
      the input queue, so with one report per queued path the completion
      loop ends after exactly the last of them. */
  lemma AwaitedIsQueued(pathLines: seq<string>, ledger: Option<seq<string>>, numFetch: nat)
    requires DoneSet(ledger).Success?
    ensures Awaited(TotalPaths(pathLines), DoneSet(ledger).value) + numFetch
      == |InputQueue(pathLines, ledger, numFetch).value|
  {
    InputQueueMeaning(pathLines, ledger, numFetch);
  }
}
