/** The Writer class of the shared utilities: a gzip'd JSON-lines sink that
    opens its file lazily, appends one line per write_line call and moves to
    the next file every max_items lines.  File handles are modelled by the
    path they write to, and the file system by a map from path to the text
    written there (compression is not modelled). */
module ShardWriter {
  import opened Wrappers
  import opened Strings
  import opened Rotation

  /** The constructor arguments; none of them changes afterwards. */
  datatype Config = Config(outputDir: string, prefix: string, offset: int, strike: int, maxItems: int)

  /** The writer's mutable fields (strike_idx, num_items, _fp) together with
      the files as they stand. */
  datatype WriterState = WriterState(strikeIdx: int, numItems: int, fp: Option<string>, disk: map<string, string>)

  /** A handle, when open, writes to a file that exists. */
  predicate Valid(s: WriterState) {
    s.fp.Some? ==> s.fp.value in s.disk
  }

  /** The state right after the constructor, over the files already there. */
  function Initial(disk: map<string, string>): (s: WriterState)
    ensures Valid(s)
  {
    WriterState(0, 0, None, disk)
  }

  /** The path of the file for a strike index:
      output_dir/prefix_{strike_idx * strike + offset}.jsonl.gz */
  function FileName(cfg: Config, strikeIdx: int): string {
    PathJoin(cfg.outputDir, cfg.prefix + "_" + IntToString(strikeIdx * cfg.strike + cfg.offset) + ".jsonl.gz")
  }

  /** get_fp: with no handle open, open (and so truncate) the file of the
      current strike index. */
  function Opened(cfg: Config, s: WriterState): WriterState {
    if s.fp.Some? then s
    else
      var path := FileName(cfg, s.strikeIdx);
      WriterState(s.strikeIdx, s.numItems, Some(path), s.disk[path := ""])
  }

  /** update_fp: close the open handle and advance strike_idx (only when a
      handle was open), then open the next file at once. */
  function Rotated(cfg: Config, s: WriterState): WriterState {
    var closed := WriterState(if s.fp.Some? then s.strikeIdx + 1 else s.strikeIdx, s.numItems, None, s.disk);
    Opened(cfg, closed)
  }

  /** write_line: the new state, and false where `num_items % max_items`
      raises ZeroDivisionError (max_items == 0), which happens after the
      line is written and counted. */
  function Written(cfg: Config, s: WriterState, line: string): (WriterState, bool)
    requires Valid(s)
  {
    var o := Opened(cfg, s);
    var path := o.fp.value;
    var w := WriterState(o.strikeIdx, o.numItems + 1, o.fp, o.disk[path := o.disk[path] + line + "\n"]);
    if cfg.maxItems == 0 then (w, false)
    else if w.numItems % cfg.maxItems == 0 then (Rotated(cfg, w), true)
    else (w, true)
  }

  lemma WrittenValid(cfg: Config, s: WriterState, line: string)
    requires Valid(s)
    ensures Valid(Written(cfg, s, line).0)
  {
  }

  /** The state after write_line was called on each of lines in turn. */
  function Run(cfg: Config, s: WriterState, lines: seq<string>): (r: WriterState)
    requires Valid(s)
    ensures Valid(r)
    decreases |lines|
  {
    if |lines| == 0 then s
    else
      var prev := Run(cfg, s, lines[..|lines| - 1]);
      WrittenValid(cfg, prev, lines[|lines| - 1]);
      Written(cfg, prev, lines[|lines| - 1]).0
  }

  /** get_fp opens at most one handle: with one open it changes nothing,
      otherwise it opens the empty file named by strike_idx; calling it twice
      is calling it once. */
  lemma GetFpOnce(cfg: Config, s: WriterState)
    requires Valid(s)
    ensures Opened(cfg, Opened(cfg, s)) == Opened(cfg, s)
    ensures s.fp.Some? ==> Opened(cfg, s) == s
    ensures s.fp.None? ==> var o := Opened(cfg, s);
      && o.fp == Some(FileName(cfg, s.strikeIdx)) && o.disk == s.disk[FileName(cfg, s.strikeIdx) := ""]
      && o.strikeIdx == s.strikeIdx && o.numItems == s.numItems
    ensures Valid(Opened(cfg, s))
  {
  }

  /** update_fp advances strike_idx exactly when a handle was open, and
      leaves the empty file of the new index open. */
  lemma UpdateFpAdvances(cfg: Config, s: WriterState)
    ensures var r := Rotated(cfg, s);
      && r.strikeIdx == (if s.fp.Some? then s.strikeIdx + 1 else s.strikeIdx)
      && r.fp == Some(FileName(cfg, r.strikeIdx))
      && r.disk == s.disk[FileName(cfg, r.strikeIdx) := ""]
      && r.numItems == s.numItems
  {
  }

  /** write_line appends exactly the line and its newline to the file that
      was open (or that it opened), counts one more item, and rotates when
      the count becomes a multiple of max_items. */
  lemma WriteLineAppends(cfg: Config, s: WriterState, line: string)
    requires Valid(s)
    ensures var (r, ok) := Written(cfg, s, line); var o := Opened(cfg, s); var path := o.fp.value;
      && r.numItems == s.numItems + 1
      && (ok <==> cfg.maxItems != 0)
      && (var rotate := cfg.maxItems != 0 && r.numItems % cfg.maxItems == 0;
          && (!rotate ==>
                r.fp == o.fp && r.strikeIdx == o.strikeIdx
                && r.disk == o.disk[path := o.disk[path] + line + "\n"])
          && (rotate ==>
                r.strikeIdx == o.strikeIdx + 1 && r.fp == Some(FileName(cfg, r.strikeIdx))
                && r.disk == o.disk[path := o.disk[path] + line + "\n"][FileName(cfg, r.strikeIdx) := ""]))
  {
  }

  /** FileName as a function of the strike index alone. */
  function Names(cfg: Config): nat -> string {
    j => FileName(cfg, j)
  }

  lemma FileNameInjective(cfg: Config, i: int, j: int)
    requires cfg.strike != 0 && i != j
    ensures FileName(cfg, i) != FileName(cfg, j)
  {
    var a, b := i * cfg.strike + cfg.offset, j * cfg.strike + cfg.offset;
    StrikeInjective(i, j, cfg.strike);
    IntToStringInjective(a, b);
    var p := cfg.prefix + "_";
    AffixInjective(p, IntToString(a), IntToString(b), ".jsonl.gz");
    var x, y := p + IntToString(a) + ".jsonl.gz", p + IntToString(b) + ".jsonl.gz";
    assert x[0] == y[0];
    PathJoinInjective(cfg.outputDir, x, y);
  }

  lemma StrikeInjective(i: int, j: int, strike: int)
    requires strike != 0 && i != j
    ensures i * strike != j * strike
  {
    assert i * strike - j * strike == (i - j) * strike;
  }

  lemma NamesDistinct(cfg: Config)
    requires cfg.strike != 0
    ensures Distinct(Names(cfg))
  {
    forall i: nat, j: nat | i < j
      ensures Names(cfg)(i) != Names(cfg)(j)
    {
      FileNameInjective(cfg, i, j);
    }
  }

  /** The writer's state after a first write: strike index and count follow
      the lines written, and each file holds its shard. */
  ghost predicate Holds(cfg: Config, disk0: map<string, string>, s: WriterState, ls: seq<string>)
    requires cfg.maxItems > 0
  {
    var m := cfg.maxItems;
    && s.numItems == |ls|
    && s.strikeIdx == |ls| / m
    && s.fp == Some(FileName(cfg, s.strikeIdx))
    && Stored(s.disk, Names(cfg), Shards(ls, m))
    && Untouched(disk0, s.disk, Names(cfg), |ls| / m + 1)
  }

  lemma WriteHolds(cfg: Config, disk0: map<string, string>, s: WriterState, ls: seq<string>, x: string)
    requires cfg.maxItems > 0 && cfg.strike != 0
    requires Holds(cfg, disk0, s, ls)
    ensures Valid(s)
    ensures Holds(cfg, disk0, Written(cfg, s, x).0, ls + [x])
  {
    var m: nat := cfg.maxItems;
    var k := |ls|;
    NamesDistinct(cfg);
    AppendStored(s.disk, Names(cfg), ls, m, x);
    AppendUntouched(disk0, s.disk, Names(cfg), k, m, x);
    DivModStep(k, m);
    WrittenAppends(cfg, s, k, x);
  }

  /** One write from a state with the file of index k / m open is the
      rotation step Append. */
  lemma WrittenAppends(cfg: Config, s: WriterState, k: nat, x: string)
    requires cfg.maxItems > 0
    requires s.numItems == k && s.strikeIdx == k / cfg.maxItems && s.fp == Some(FileName(cfg, s.strikeIdx))
    requires FileName(cfg, s.strikeIdx) in s.disk
    ensures var r := Written(cfg, s, x).0; var m: nat := cfg.maxItems;
      && r.numItems == k + 1
      && r.strikeIdx == (k + 1) / m
      && r.fp == Some(FileName(cfg, r.strikeIdx))
      && r.disk == Append(s.disk, Names(cfg), k, m, x)
  {
    var m: nat := cfg.maxItems;
    DivModStep(k, m);
    assert Names(cfg)(k / m) == FileName(cfg, s.strikeIdx);
    assert Names(cfg)(k / m + 1) == FileName(cfg, s.strikeIdx + 1);
  }

  /** After k > 0 writes with max_items = m > 0: strike_idx == k / m, the
      open file is the one of that index, file j holds shard j of the lines
      (every shard but the last exactly m lines, all of them together the
      lines in order), and no other file changed.  Before the first write no
      file was opened. */
  lemma {:induction false} RunShards(cfg: Config, disk0: map<string, string>, ls: seq<string>)
    requires cfg.maxItems > 0 && cfg.strike != 0
    ensures |ls| == 0 ==> Run(cfg, Initial(disk0), ls) == Initial(disk0)
    ensures |ls| > 0 ==> Holds(cfg, disk0, Run(cfg, Initial(disk0), ls), ls)
    decreases |ls|
  {
    if |ls| > 0 {
      var init, x := ls[..|ls| - 1], ls[|ls| - 1];
      assert ls == init + [x];
      if |init| == 0 {
        var o := Opened(cfg, Initial(disk0));
        HoldsOpened(cfg, disk0);
        WriteHolds(cfg, disk0, o, init, x);
        assert Written(cfg, o, x) == Written(cfg, Initial(disk0), x);
      } else {
        RunShards(cfg, disk0, init);
        WriteHolds(cfg, disk0, Run(cfg, Initial(disk0), init), init, x);
      }
    }
  }

  /** Opening the first file is the state of zero lines written. */
  lemma HoldsOpened(cfg: Config, disk0: map<string, string>)
    requires cfg.maxItems > 0
    ensures Holds(cfg, disk0, Opened(cfg, Initial(disk0)), [])
  {
    var o := Opened(cfg, Initial(disk0));
    assert Shards([], cfg.maxItems) == [[]];
    assert Names(cfg)(0) == FileName(cfg, 0);
    assert Text([]) == "";
    assert Stored(o.disk, Names(cfg), [[]]);
    assert Untouched(disk0, o.disk, Names(cfg), 1) by {
      forall p | p in disk0 && (forall j: nat | j < 1 :: Names(cfg)(j) != p)
        ensures p in o.disk && o.disk[p] == disk0[p]
      {
        assert Names(cfg)(0) != p;
      }
    }
  }

  class Writer {
    const cfg: Config
    var strikeIdx: int
    var numItems: int
    var fp: Option<string>
    var disk: map<string, string>

    function Snapshot(): WriterState
      reads this
    {
      WriterState(strikeIdx, numItems, fp, disk)
    }

    constructor (outputDir: string, prefix: string, offset: int, strike: int, maxItems: int,
                 files: map<string, string>)
      ensures cfg == Config(outputDir, prefix, offset, strike, maxItems)
      ensures Snapshot() == Initial(files)
    {
      cfg := Config(outputDir, prefix, offset, strike, maxItems);
      strikeIdx, numItems, fp, disk := 0, 0, None, files;
    }

    method GetFp() returns (h: string)
      modifies this
      ensures Snapshot() == Opened(cfg, old(Snapshot()))
      ensures fp == Some(h)
    {
      if fp.None? {
        var path := FileName(cfg, strikeIdx);
        disk := disk[path := ""];
        fp := Some(path);
      }
      h := fp.value;
    }

    method UpdateFp() returns (h: string)
      modifies this
      ensures Snapshot() == Rotated(cfg, old(Snapshot()))
      ensures fp == Some(h)
    {
      if fp.Some? {
        strikeIdx := strikeIdx + 1;
      }
      fp := None;
      h := GetFp();
    }

    method WriteLine(line: string) returns (ok: bool)
      requires Valid(Snapshot())
      modifies this
      ensures (Snapshot(), ok) == Written(cfg, old(Snapshot()), line)
      ensures Valid(Snapshot())
    {
      ghost var o := Opened(cfg, Snapshot());
      var h := GetFp();
      assert o.fp.value == h && h in disk;
      disk := disk[h := disk[h] + line];
      disk := disk[h := disk[h] + "\n"];
      numItems := numItems + 1;
      assert Snapshot() == WriterState(o.strikeIdx, o.numItems + 1, o.fp, o.disk[h := o.disk[h] + line + "\n"]);
      if cfg.maxItems == 0 {
        return false;
      }
      if numItems % cfg.maxItems == 0 {
        h := UpdateFp();
      }
      return true;
    }
  }

  /** The module's self-test: writing str(i) for i in range(1401247) with
      offset 1 and max_items 1000000 leaves test/file_1.jsonl.gz holding the
      first million lines and test/file_2.jsonl.gz, still open, the
      remaining 401247. */
  method SelfTest(files: map<string, string>) returns (w: Writer)
    ensures var lines := seq(1401247, i requires 0 <= i => IntToString(i));
      && w.strikeIdx == 1
      && w.fp == Some("test/file_2.jsonl.gz")
      && "test/file_1.jsonl.gz" in w.disk && w.disk["test/file_1.jsonl.gz"] == Text(lines[..1000000])
      && "test/file_2.jsonl.gz" in w.disk && w.disk["test/file_2.jsonl.gz"] == Text(lines[1000000..])
  {
    ghost var lines := seq(1401247, i requires 0 <= i => IntToString(i));
    w := new Writer("test", "file", 1, 1, 1000000, files);
    for i := 0 to 1401247
      invariant w.cfg == Config("test", "file", 1, 1, 1000000)
      invariant w.Snapshot() == Run(w.cfg, Initial(files), lines[..i])
    {
      assert lines[..i + 1][..i] == lines[..i];
      var _ := w.WriteLine(IntToString(i));
    }
    assert lines[..1401247] == lines;
    SelfTestFiles(w.cfg, files, lines);
  }

  lemma SelfTestFiles(cfg: Config, files: map<string, string>, lines: seq<string>)
    requires cfg == Config("test", "file", 1, 1, 1000000) && |lines| == 1401247
    ensures var s := Run(cfg, Initial(files), lines);
      && s.strikeIdx == 1
      && s.fp == Some("test/file_2.jsonl.gz")
      && "test/file_1.jsonl.gz" in s.disk && s.disk["test/file_1.jsonl.gz"] == Text(lines[..1000000])
      && "test/file_2.jsonl.gz" in s.disk && s.disk["test/file_2.jsonl.gz"] == Text(lines[1000000..])
  {
    RunShards(cfg, files, lines);
    SelfTestShards(lines);
    SelfTestNames(cfg);
  }

  lemma SelfTestShards(lines: seq<string>)
    requires |lines| == 1401247
    ensures var r := Shards(lines, 1000000);
      |r| == 2 && r[0] == lines[..1000000] && r[1] == lines[1000000..]
  {
    var r := Shards(lines, 1000000);
    ShardsShape(lines, 1000000);
    assert Flatten(r) == Flatten(r[..1]) + r[1];
    assert r[..1][..0] == [];
    assert Flatten(r[..1]) == r[0];
  }

  lemma SelfTestNames(cfg: Config)
    requires cfg == Config("test", "file", 1, 1, 1000000)
    ensures Names(cfg)(0) == "test/file_1.jsonl.gz" && Names(cfg)(1) == "test/file_2.jsonl.gz"
    ensures FileName(cfg, 1) == "test/file_2.jsonl.gz"
  {
    assert IntToString(1) == "1" && IntToString(2) == "2";
  }
}
