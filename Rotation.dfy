/** Rotating output files.  Both the Writer class and the download script's
    write worker append one line per record to the current file and, each
    time the record count reaches a multiple of m, close it and start the
    next one at once.  This module says which lines end up in which file. */
module Rotation {

  /** The text a sequence of written lines leaves in a file: each line
      followed by '\n'. */
  function Text(ls: seq<string>): string
    decreases |ls|
  {
    if |ls| == 0 then "" else Text(ls[..|ls| - 1]) + ls[|ls| - 1] + "\n"
  }

  lemma TextSnoc(ls: seq<string>, x: string)
    ensures Text(ls + [x]) == Text(ls) + x + "\n"
  {
    assert (ls + [x])[..|ls|] == ls;
  }

  /** The files' lines, concatenated in file order. */
  function Flatten(ss: seq<seq<string>>): seq<string>
    decreases |ss|
  {
    if |ss| == 0 then [] else Flatten(ss[..|ss| - 1]) + ss[|ss| - 1]
  }

  /** The lines of each file after ls were written with a rotation every m
      lines; the last element is the file still open. */
  function Shards(ls: seq<string>, m: nat): (r: seq<seq<string>>)
    requires m > 0
    ensures |r| > 0
    decreases |ls|
  {
    if |ls| == 0 then [[]]
    else
      var prev := Shards(ls[..|ls| - 1], m);
      var grown := prev[..|prev| - 1] + [prev[|prev| - 1] + [ls[|ls| - 1]]];
      if |ls| % m == 0 then grown + [[]] else grown
  }

  lemma ShardsSnoc(ls: seq<string>, x: string, m: nat)
    requires m > 0
    ensures var prev := Shards(ls, m);
      var grown := prev[..|prev| - 1] + [prev[|prev| - 1] + [x]];
      Shards(ls + [x], m) == if (|ls| + 1) % m == 0 then grown + [[]] else grown
  {
    assert (ls + [x])[..|ls|] == ls;
  }

  /** Euclidean division is unique. */
  lemma DivModUnique(k: int, m: int, q: int, r: int)
    requires m > 0 && 0 <= r < m && k == q * m + r
    ensures k / m == q && k % m == r
  {
    var d := q - k / m;
    assert d * m == k % m - r;
    MulBounds(d, m);
  }

  lemma MulBounds(d: int, m: int)
    requires m > 0
    ensures d >= 1 ==> d * m >= m
    ensures d <= -1 ==> d * m <= -m
  {
  }

  /** What one more line does to the quotient and the remainder. */
  lemma DivModStep(k: nat, m: nat)
    requires m > 0
    ensures (k + 1) % m == 0 ==> (k + 1) / m == k / m + 1 && k % m == m - 1
    ensures (k + 1) % m != 0 ==> (k + 1) / m == k / m && (k + 1) % m == k % m + 1
  {
    var q, r := k / m, k % m;
    if r + 1 == m {
      DivModUnique(k + 1, m, q + 1, 0);
    } else {
      DivModUnique(k + 1, m, q, r + 1);
    }
  }

  /** After k lines there are k / m + 1 files; every file but the open one
      holds exactly m lines, the open one k % m (so a count that is a
      multiple of m leaves an empty open file), and reading the files in
      order gives back the lines in order. */
  lemma {:induction false} ShardsShape(ls: seq<string>, m: nat)
    requires m > 0
    ensures var r := Shards(ls, m);
      && |r| == |ls| / m + 1
      && (forall j | 0 <= j < |r| - 1 :: |r[j]| == m)
      && |r[|r| - 1]| == |ls| % m
      && Flatten(r) == ls
    decreases |ls|
  {
    if |ls| > 0 {
      var init, x := ls[..|ls| - 1], ls[|ls| - 1];
      assert ls == init + [x];
      ShardsShape(init, m);
      ShardsSnoc(init, x, m);
      DivModStep(|init|, m);
      var prev := Shards(init, m);
      var grown := prev[..|prev| - 1] + [prev[|prev| - 1] + [x]];
      assert grown[..|grown| - 1] == prev[..|prev| - 1];
      assert prev == prev[..|prev| - 1] + [prev[|prev| - 1]];
      assert Flatten(grown) == Flatten(prev[..|prev| - 1]) + (prev[|prev| - 1] + [x]);
      if |ls| % m == 0 {
        assert (grown + [[]])[..|grown|] == grown;
      }
    }
  }

  /** File name(j) holds the text of shard j, for every shard so far. */
  ghost predicate Stored(disk: map<string, string>, name: nat -> string, r: seq<seq<string>>) {
    forall j | 0 <= j < |r| :: name(j) in disk && disk[name(j)] == Text(r[j])
  }

  /** No two file indices give the same name. */
  ghost predicate Distinct(name: nat -> string) {
    forall i: nat, j: nat | i < j :: name(i) != name(j)
  }

  /** Files other than name(0), ..., name(n - 1) are as they were. */
  ghost predicate Untouched(disk0: map<string, string>, disk: map<string, string>, name: nat -> string, n: nat) {
    forall p | p in disk0 && (forall j: nat | j < n :: name(j) != p) :: p in disk && disk[p] == disk0[p]
  }

  /** The rotation step both writers perform: append x and its newline to
      the open file name(k / m), and when the new count k + 1 is a multiple
      of m, create name(k / m + 1) empty. */
  function Append(disk: map<string, string>, name: nat -> string, k: nat, m: nat, x: string): map<string, string>
    requires m > 0 && name(k / m) in disk
  {
    var d := disk[name(k / m) := disk[name(k / m)] + x + "\n"];
    if (k + 1) % m == 0 then d[name(k / m + 1) := ""] else d
  }

  /** Append spelled out, for the line that fills its file and for any other. */
  lemma AppendCases(disk: map<string, string>, name: nat -> string, k: nat, m: nat, x: string)
    requires m > 0 && name(k / m) in disk
    ensures var d := disk[name(k / m) := disk[name(k / m)] + x + "\n"];
      && ((k + 1) % m == 0 ==> Append(disk, name, k, m, x) == d[name(k / m + 1) := ""])
      && ((k + 1) % m != 0 ==> Append(disk, name, k, m, x) == d)
  {
  }

  /** The shards after one more line, element by element. */
  lemma ShardsSnocAt(ls: seq<string>, x: string, m: nat)
    requires m > 0
    ensures var prev, next, c := Shards(ls, m), Shards(ls + [x], m), |Shards(ls, m)| - 1;
      && |next| == (if (|ls| + 1) % m == 0 then c + 2 else c + 1)
      && (forall j | 0 <= j < c :: next[j] == prev[j])
      && next[c] == prev[c] + [x]
      && ((|ls| + 1) % m == 0 ==> next[c + 1] == [])
  {
    ShardsSnoc(ls, x, m);
  }

  /** Appending keeps every file holding its shard. */
  lemma AppendStored(disk: map<string, string>, name: nat -> string,
                     ls: seq<string>, m: nat, x: string)
    requires m > 0 && Distinct(name)
    requires Stored(disk, name, Shards(ls, m))
    ensures name(|ls| / m) in disk
    ensures Stored(Append(disk, name, |ls|, m, x), name, Shards(ls + [x], m))
  {
    var c := |ls| / m;
    ShardsShape(ls, m);
    ShardsSnocAt(ls, x, m);
    assert forall j | 0 <= j < c :: name(j) != name(c) && name(j) != name(c + 1);
    assert name(c) != name(c + 1);
    AppendStoredAt(disk, name, Shards(ls, m), Shards(ls + [x], m), c, x, (|ls| + 1) % m == 0);
  }

  /** The writer invariant: the files written so far hold the shards of
      ls, and every other file of disk0 is as it was. */
  ghost predicate Keeps(disk0: map<string, string>, disk: map<string, string>, name: nat -> string,
                        ls: seq<string>, m: nat)
    requires m > 0
  {
    Stored(disk, name, Shards(ls, m)) && Untouched(disk0, disk, name, |ls| / m + 1)
  }

  /** The writer invariant carried over one Append. */
  lemma AppendStep(disk0: map<string, string>, disk: map<string, string>, name: nat -> string,
                   ls: seq<string>, m: nat, x: string)
    requires m > 0 && Distinct(name)
    requires Keeps(disk0, disk, name, ls, m)
    ensures name(|ls| / m) in disk
    ensures Keeps(disk0, Append(disk, name, |ls|, m, x), name, ls + [x], m)
  {
    AppendStored(disk, name, ls, m, x);
    AppendUntouched(disk0, disk, name, |ls|, m, x);
  }

  lemma AppendStoredAt(disk: map<string, string>, name: nat -> string,
                       prev: seq<seq<string>>, next: seq<seq<string>>, c: nat, x: string, rotate: bool)
    requires Stored(disk, name, prev) && |prev| == c + 1
    requires |next| == (if rotate then c + 2 else c + 1)
    requires forall j | 0 <= j < c :: next[j] == prev[j]
    requires next[c] == prev[c] + [x]
    requires rotate ==> next[c + 1] == []
    requires forall j | 0 <= j < c :: name(j) != name(c) && name(j) != name(c + 1)
    requires name(c) != name(c + 1)
    ensures name(c) in disk
    ensures var d := disk[name(c) := disk[name(c)] + x + "\n"];
      Stored(if rotate then d[name(c + 1) := ""] else d, name, next)
  {
    assert name(c) in disk;
    TextSnoc(prev[c], x);
  }

  /** Appending touches only the open file and the one it opens. */
  lemma AppendUntouched(disk0: map<string, string>, disk: map<string, string>,
                        name: nat -> string, k: nat, m: nat, x: string)
    requires m > 0 && name(k / m) in disk
    requires Untouched(disk0, disk, name, k / m + 1)
    ensures Untouched(disk0, Append(disk, name, k, m, x), name, (k + 1) / m + 1)
  {
    DivModStep(k, m);
    var d := Append(disk, name, k, m, x);
    forall p | p in disk0 && (forall j: nat | j < (k + 1) / m + 1 :: name(j) != p)
      ensures p in d && d[p] == disk0[p]
    {
      assert name(k / m) != p;
    }
  }
}
