/** The completion ledger: one `path<TAB>STATUS` line per finished input.
    The WARC download script and the English extraction script read it back
    with the same loop; a run skips every path recorded as SUCCESS. */
module Ledger {
  import opened Wrappers
  import opened Strings

  const SuccessTag := "SUCCESS"
  const FailedTag := "FAILED"

  /** The line appended for one finished input. */
  function LedgerLine(path: string, ok: bool): string {
    path + "\t" + (if ok then SuccessTag else FailedTag) + "\n"
  }

  /** `path, status = line.strip().split('\t')`; None where the unpacking
      raises ValueError (not exactly one tab after stripping). */
  function ParseEntry(line: string): Option<(string, string)> {
    var parts := SplitOn(Strip(line), '\t');
    if |parts| == 2 then Some((parts[0], parts[1])) else None
  }

  predicate IsSuccessLine(line: string) {
    ParseEntry(line).Some? && ParseEntry(line).value.1 == SuccessTag
  }

  /** The paths of the lines whose status is SUCCESS. */
  function SuccessPaths(lines: seq<string>): set<string> {
    set i | 0 <= i < |lines| && IsSuccessLine(lines[i]) :: ParseEntry(lines[i]).value.0
  }

  /** The index of the first line whose unpacking fails, if any. */
  function FirstMalformed(lines: seq<string>): (r: Option<nat>)
    ensures r.Some? ==> r.value < |lines| && ParseEntry(lines[r.value]).None?
    ensures r.Some? ==> forall i | 0 <= i < r.value :: ParseEntry(lines[i]).Some?
    ensures r.None? <==> forall i | 0 <= i < |lines| :: ParseEntry(lines[i]).Some?
    decreases |lines|
  {
    if |lines| == 0 then None
    else
      var init := lines[..|lines| - 1];
      assert forall i | 0 <= i < |init| :: init[i] == lines[i];
      var prev := FirstMalformed(init);
      if prev.Some? then prev
      else if ParseEntry(lines[|lines| - 1]).None? then Some(|init|)
      else None
  }

  /** What reading the ledger yields: the set of paths recorded SUCCESS, or
      the index of the first line at which the script stops with ValueError. */
  function AlreadyDone(lines: seq<string>): Result<set<string>, nat> {
    match FirstMalformed(lines)
    case Some(i) => Failure(i)
    case None => Success(SuccessPaths(lines))
  }

  lemma SuccessPathsSnoc(lines: seq<string>)
    requires |lines| > 0
    ensures var last := lines[|lines| - 1];
      SuccessPaths(lines) == SuccessPaths(lines[..|lines| - 1])
        + (if IsSuccessLine(last) then {ParseEntry(last).value.0} else {})
  {
    var init := lines[..|lines| - 1];
    assert forall i | 0 <= i < |init| :: init[i] == lines[i];
  }

  /** The reading loop: `already_done.append(path)` for every SUCCESS line,
      then frozenset(already_done). */
  method ParseLedger(lines: seq<string>) returns (r: Result<set<string>, nat>)
    ensures r == AlreadyDone(lines)
  {
    var done: seq<string> := [];
    assert lines[..0] == [];
    assert SuccessPaths([]) == {};
    for i := 0 to |lines|
      invariant forall j | 0 <= j < i :: ParseEntry(lines[j]).Some?
      invariant SuccessPaths(lines[..i]) == set p | p in done
    {
      var entry := ParseEntry(lines[i]);
      if entry.None? {
        ghost var k := FirstMalformed(lines);
        assert k.Some? && k.value == i;
        return Failure(i);
      }
      var (path, status) := entry.value;
      SuccessPathsStep(lines, i);
      if status == SuccessTag {
        assert (set p | p in done + [path]) == (set p | p in done) + {path};
        done := done + [path];
      }
    }
    assert lines[..|lines|] == lines;
    return Success(set p | p in done);
  }

  lemma SuccessPathsStep(lines: seq<string>, i: nat)
    requires i < |lines|
    ensures SuccessPaths(lines[..i + 1]) == SuccessPaths(lines[..i])
      + (if IsSuccessLine(lines[i]) then {ParseEntry(lines[i]).value.0} else {})
  {
    SuccessPathsSnoc(lines[..i + 1]);
    assert lines[..i + 1][..i] == lines[..i];
  }

  /** A path that survives the round trip through the ledger file: not
      empty, not starting with whitespace, and free of tabs and newlines. */
  predicate LedgerSafe(path: string) {
    |path| > 0 && !IsSpace(path[0]) && '\t' !in path && '\n' !in path
  }

  lemma {:induction false} ParseLedgerLine(path: string, ok: bool)
    requires LedgerSafe(path)
    ensures ParseEntry(LedgerLine(path, ok)) == Some((path, if ok then SuccessTag else FailedTag))
  {
    var status := if ok then SuccessTag else FailedTag;
    assert LedgerLine(path, ok) == path + "\t" + status + "\n";
    StripEntry(path, status);
    SplitEntry(path, status);
  }

  /** Stripping a ledger line leaves `path<TAB>status`. */
  lemma StripEntry(path: string, status: string)
    requires LedgerSafe(path) && |status| > 0 && !IsSpace(status[|status| - 1])
    ensures Strip(path + "\t" + status + "\n") == path + "\t" + status
  {
    var core := path + "\t" + status;
    assert path + "\t" + status + "\n" == [] + core + "\n";
    assert core[0] == path[0];
    assert core[|core| - 1] == status[|status| - 1];
    StripPadded([], core, "\n");
  }

  /** Splitting `path<TAB>status` at tabs gives the two fields back. */
  lemma SplitEntry(path: string, status: string)
    requires '\t' !in path && '\t' !in status
    ensures SplitOn(path + "\t" + status, '\t') == [path, status]
  {
    assert JoinWith([path, status], '\t') == path + "\t" + status;
    SplitJoin([path, status], '\t');
  }

  /** Reading back a ledger written with LedgerLine gives exactly the paths
      that were recorded as successful. */
  lemma {:induction false} LedgerRoundTrip(entries: seq<(string, bool)>)
    requires forall i | 0 <= i < |entries| :: LedgerSafe(entries[i].0)
    ensures AlreadyDone(seq(|entries|, i requires 0 <= i < |entries| => LedgerLine(entries[i].0, entries[i].1)))
      == Success(set i | 0 <= i < |entries| && entries[i].1 :: entries[i].0)
  {
    var lines := seq(|entries|, i requires 0 <= i < |entries| => LedgerLine(entries[i].0, entries[i].1));
    forall i | 0 <= i < |lines|
      ensures ParseEntry(lines[i]) == Some((entries[i].0, if entries[i].1 then SuccessTag else FailedTag))
    {
      ParseLedgerLine(entries[i].0, entries[i].1);
    }
    assert SuccessPaths(lines) == set i | 0 <= i < |entries| && entries[i].1 :: entries[i].0;
  }

  /** The paths already done: the SUCCESS paths of the ledger, {} when the
      ledger does not exist, or the index of a line whose unpacking raises. */
  function DoneSet(ledger: Option<seq<string>>): Result<set<string>, nat> {
    if ledger.None? then Success({}) else AlreadyDone(ledger.value)
  }
}
