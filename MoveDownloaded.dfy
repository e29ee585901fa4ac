/** The mover script: it reads the index out of every raw_content file name
    in the download directory and moves a file to the output directory only
    when the same writer has already opened its next file (the one
    num_write_procs indices further), so that no file still being written
    is moved. */
module MoveDownloaded {
  import opened Wrappers
  import opened Strings
  import opened Rotation

  const RawPrefix := "raw_content_"
  const RawSuffix := ".jsonl.gz"

  /** f"raw_content_{index}.jsonl.gz" */
  function RawFileName(i: int): string {
    RawPrefix + IntToString(i) + RawSuffix
  }

  /** int(fn.replace('raw_content_', '').replace('.jsonl.gz', '')), None
      where int() raises ValueError. */
  function IndexOf(fn: string): Option<int> {
    ParseInt(RemoveAll(RemoveAll(fn, RawPrefix), RawSuffix))
  }

  /** str(i) is a sign and digits, so it cannot start either affix. */
  lemma IntToStringChars(i: int)
    ensures 'r' !in IntToString(i) && '.' !in IntToString(i)
  {
    var s := IntToString(i);
    if i < 0 {
      assert s == "-" + NatToString(-i);
      assert forall k | 1 <= k < |s| :: s[k] == NatToString(-i)[k - 1];
    }
  }

  /** The index read back from a name the writers produce is the index it
      was made from. */
  lemma IndexOfRawFileName(i: int)
    ensures IndexOf(RawFileName(i)) == Some(i)
  {
    var d := IntToString(i);
    IntToStringChars(i);
    var s := RawFileName(i);
    assert s == RawPrefix + (d + RawSuffix);
    assert RawPrefix <= s && s[|RawPrefix|..] == d + RawSuffix;
    assert RemoveAll(s, RawPrefix) == RemoveAll(d + RawSuffix, RawPrefix);
    RemoveAllSkip(d, RawSuffix, RawPrefix);
    assert RawSuffix + "" == RawSuffix;
    RemoveAllSkip(RawSuffix, "", RawPrefix);
    assert RemoveAll(s, RawPrefix) == d + RawSuffix;
    RemoveAllSkip(d, RawSuffix, RawSuffix);
    RemoveAllWhole(RawSuffix);
    assert RemoveAll(d + RawSuffix, RawSuffix) == d;
    ParseIntToString(i);
  }

  lemma RawFileNameInjective(i: int, j: int)
    requires i != j
    ensures RawFileName(i) != RawFileName(j)
  {
    IndexOfRawFileName(i);
    IndexOfRawFileName(j);
  }

  /** The parsing loop with parse for the index of a name: the parsed
      indexes in order, or Failure(k) at the first name it rejects. */
  function IndexesBy(names: seq<string>, parse: string -> Option<int>): Result<seq<int>, nat>
    decreases |names|
  {
    if |names| == 0 then Success([])
    else
      match IndexesBy(names[..|names| - 1], parse)
      case Failure(k) => Failure(k)
      case Success(xs) =>
        match parse(names[|names| - 1])
        case None => Failure(|names| - 1)
        case Some(i) => Success(xs + [i])
  }

  /** all_indexes, in the order of the sorted listing, or Failure(k) where
      the name at position k has no integer index. */
  function AllIndexes(names: seq<string>): Result<seq<int>, nat> {
    IndexesBy(names, IndexOf)
  }

  /** The parsing loop yields the index of every name, position by
      position, or names the first position whose index is rejected. */
  lemma {:induction false} IndexesByMeaning(names: seq<string>, parse: string -> Option<int>)
    ensures var r := IndexesBy(names, parse);
      && (r.Success? ==> |r.value| == |names| && forall k | 0 <= k < |names| :: parse(names[k]) == Some(r.value[k]))
      && (r.Failure? ==>
            && r.error < |names| && parse(names[r.error]).None?
            && forall k | 0 <= k < r.error :: parse(names[k]).Some?)
    decreases |names|
  {
    if |names| > 0 {
      var init := names[..|names| - 1];
      IndexesByMeaning(init, parse);
      assert forall k | 0 <= k < |init| :: init[k] == names[k];
    }
  }

  /** The parsing loop's step: a listing's prefix, one name longer. */
  lemma IndexesByStep(names: seq<string>, parse: string -> Option<int>, i: nat)
    requires i < |names|
    ensures IndexesBy(names[..i + 1], parse) ==
      match IndexesBy(names[..i], parse)
      case Failure(k) => Failure(k)
      case Success(xs) =>
        match parse(names[i])
        case None => Failure(i)
        case Some(x) => Success(xs + [x])
  {
    assert names[..i + 1][..i] == names[..i];
  }

  /** Once a prefix of the listing fails, the whole listing fails there. */
  lemma {:induction false} IndexesByFailed(names: seq<string>, parse: string -> Option<int>, i: nat)
    requires i <= |names| && IndexesBy(names[..i], parse).Failure?
    ensures IndexesBy(names, parse) == IndexesBy(names[..i], parse)
    decreases |names| - i
  {
    if i < |names| {
      IndexesByStep(names, parse, i);
      IndexesByFailed(names, parse, i + 1);
    } else {
      assert names[..i] == names;
    }
  }

  /** The indexes of xs whose file is moved, in order: those whose
      successor index + n is one of all. */
  function Moved(xs: seq<int>, all: seq<int>, n: int): seq<int>
    decreases |xs|
  {
    if |xs| == 0 then []
    else (if xs[0] + n in all then [xs[0]] else []) + Moved(xs[1..], all, n)
  }

  /** An index is moved exactly when it is present and so is index + n. */
  lemma {:induction false} MovedMembers(xs: seq<int>, all: seq<int>, n: int)
    ensures forall i :: i in Moved(xs, all, n) <==> i in xs && i + n in all
    decreases |xs|
  {
    if |xs| > 0 {
      MovedMembers(xs[1..], all, n);
      assert xs == [xs[0]] + xs[1..];
    }
  }

  /** The two directories, as the names they hold. */
  datatype Dirs = Dirs(download: set<string>, output: set<string>)

  /** Why the script stops: int() rejects the index of the name at a
      position of the sorted listing, or os.rename finds no such file. */
  datatype MoveError = BadName(position: nat) | Missing(name: string)

  /** os.rename(download_dir/fn, output_dir/fn); an existing file of the
      same name in the output directory is replaced. */
  function Rename(d: Dirs, fn: string): (r: Result<Dirs, string>)
    ensures r.Failure? <==> fn !in d.download
    ensures r.Failure? ==> r.error == fn
    ensures r.Success? ==> fn !in r.value.download && fn in r.value.output
    ensures r.Success? ==> |r.value.download| == |d.download| - 1 && r.value.download <= d.download
    ensures r.Success? ==> d.output <= r.value.output && r.value.output - d.output <= {fn}
    ensures r.Success? ==> r.value.download + r.value.output == d.download + d.output
  {
    if fn in d.download then Success(Dirs(d.download - {fn}, d.output + {fn})) else Failure(fn)
  }

  /** The moving loop from the indexes xs on, the file name being rebuilt
      from each index. */
  function MovesFrom(d: Dirs, xs: seq<int>, all: seq<int>, n: int): Result<Dirs, string>
    decreases |xs|
  {
    if |xs| == 0 then Success(d)
    else if xs[0] + n in all then
      match Rename(d, RawFileName(xs[0]))
      case Failure(fn) => Failure(fn)
      case Success(d') => MovesFrom(d', xs[1..], all, n)
    else MovesFrom(d, xs[1..], all, n)
  }

  /** The whole script on the sorted listing of the download directory. */
  function MoveResult(names: seq<string>, n: int, d: Dirs): Result<Dirs, MoveError> {
    match AllIndexes(names)
    case Failure(k) => Failure(BadName(k))
    case Success(xs) =>
      match MovesFrom(d, xs, xs, n)
      case Failure(fn) => Failure(Missing(fn))
      case Success(d') => Success(d')
  }

  /** The script's two loops. */
  method MoveFiles(names: seq<string>, n: int, d: Dirs) returns (r: Result<Dirs, MoveError>)
    ensures r == MoveResult(names, n, d)
  {
    var all := ParseIndexes(names);
    if all.Failure? {
      return Failure(BadName(all.error));
    }
    var moved := MoveIndexes(all.value, n, d);
    if moved.Failure? {
      return Failure(Missing(moved.error));
    }
    return Success(moved.value);
  }

  /** The first loop: all_indexes.append(int(...)) for each sorted name. */
  method ParseIndexes(names: seq<string>) returns (r: Result<seq<int>, nat>)
    ensures r == AllIndexes(names)
  {
    var all: seq<int> := [];
    assert names[..0] == [];
    for i := 0 to |names|
      invariant IndexesBy(names[..i], IndexOf) == Success(all)
    {
      IndexesByStep(names, IndexOf, i);
      var index := IndexOf(names[i]);
      if index.None? {
        IndexesByFailed(names, IndexOf, i + 1);
        return Failure(i);
      }
      all := all + [index.value];
    }
    assert names[..|names|] == names;
    return Success(all);
  }

  /** The second loop: each index whose successor is present has its file
      renamed into the output directory. */
  method MoveIndexes(all: seq<int>, n: int, d: Dirs) returns (r: Result<Dirs, string>)
    ensures r == MovesFrom(d, all, all, n)
  {
    var cur := d;
    assert all[0..] == all;
    for i := 0 to |all|
      invariant MovesFrom(d, all, all, n) == MovesFrom(cur, all[i..], all, n)
    {
      assert all[i..][1..] == all[i + 1..];
      var fn := RawFileName(all[i]);
      if all[i] + n in all {
        if fn !in cur.download {
          return Failure(fn);
        }
        cur := Dirs(cur.download - {fn}, cur.output + {fn});
      }
    }
    return Success(cur);
  }

  /** The names moved from xs on. */
  function MovedNames(xs: seq<int>, all: seq<int>, n: int): set<string> {
    set i | i in xs && i + n in all :: RawFileName(i)
  }

  /** A completed moving loop takes exactly the moved names out of the
      download directory and puts them into the output directory. */
  lemma {:induction false} MovesFromEffect(d: Dirs, xs: seq<int>, all: seq<int>, n: int)
    requires MovesFrom(d, xs, all, n).Success?
    ensures MovesFrom(d, xs, all, n).value.download == d.download - MovedNames(xs, all, n)
    ensures MovesFrom(d, xs, all, n).value.output == d.output + MovedNames(xs, all, n)
    decreases |xs|
  {
    if |xs| > 0 {
      var tail := xs[1..];
      assert xs == [xs[0]] + tail;
      if xs[0] + n in all {
        var fn := RawFileName(xs[0]);
        var d' := Rename(d, fn).value;
        assert d' == Dirs(d.download - {fn}, d.output + {fn});
        MovesFromEffect(d', tail, all, n);
        assert MovedNames(xs, all, n) == {RawFileName(xs[0])} + MovedNames(tail, all, n);
      } else {
        MovesFromEffect(d, tail, all, n);
        assert MovedNames(xs, all, n) == MovedNames(tail, all, n);
      }
    }
  }

  /** With distinct indexes whose files are all in the download directory,
      every rename finds its file. */
  lemma {:induction false} MovesFromSucceeds(d: Dirs, xs: seq<int>, all: seq<int>, n: int)
    requires forall j, k | 0 <= j < k < |xs| :: xs[j] != xs[k]
    requires forall k | 0 <= k < |xs| :: RawFileName(xs[k]) in d.download
    ensures MovesFrom(d, xs, all, n).Success?
    decreases |xs|
  {
    if |xs| > 0 {
      var tail := xs[1..];
      if xs[0] + n in all {
        var fn := RawFileName(xs[0]);
        var d' := Rename(d, fn).value;
        forall k | 0 <= k < |tail|
          ensures RawFileName(tail[k]) in d'.download
        {
          assert tail[k] == xs[k + 1];
          RawFileNameInjective(xs[0], tail[k]);
        }
        MovesFromSucceeds(d', tail, all, n);
      } else {
        MovesFromSucceeds(d, tail, all, n);
      }
    }
  }

  /** The files the download script's writers leave, raw_content_{i} for
      distinct indexes i, are read back and moved exactly as decided: those
      whose index + n is present go to the output directory, the rest stay. */
  lemma CanonicalMoves(xs: seq<int>, n: int, output: set<string>)
    requires forall j, k | 0 <= j < k < |xs| :: xs[j] != xs[k]
    ensures var names := seq(|xs|, k requires 0 <= k < |xs| => RawFileName(xs[k]));
      var download := set k | 0 <= k < |xs| :: RawFileName(xs[k]);
      var moved := MovedNames(xs, xs, n);
      MoveResult(names, n, Dirs(download, output)) == Success(Dirs(download - moved, output + moved))
  {
    var names := seq(|xs|, k requires 0 <= k < |xs| => RawFileName(xs[k]));
    var download := set k | 0 <= k < |xs| :: RawFileName(xs[k]);
    forall k | 0 <= k < |xs|
      ensures IndexOf(names[k]) == Some(xs[k])
    {
      IndexOfRawFileName(xs[k]);
    }
    var r := AllIndexes(names);
    IndexesByMeaning(names, IndexOf);
    assert r.Success?;
    assert r.value == xs;
    var d := Dirs(download, output);
    MovesFromSucceeds(d, xs, xs, n);
    MovesFromEffect(d, xs, xs, n);
    var moved := MovedNames(xs, xs, n);
    assert MovesFrom(d, xs, xs, n) == Success(Dirs(download - moved, output + moved));
  }

  /** Against the writers' layout, where writer p (of n) has written the
      files of indexes j * n + p for j up to its last file index last(p):
      a file is moved exactly when its writer has opened a later one, so
      every writer's last file, possibly still open, stays. */
  lemma MovedExactlyClosed(xs: seq<int>, n: int, last: int -> int, x: int)
    requires n > 0 && x in xs
    requires forall y :: y in xs <==> 0 <= y && y / n <= last(y % n)
    ensures x + n in xs <==> x / n < last(x % n)
  {
    DivModUnique(x + n, n, x / n + 1, x % n);
  }
}
