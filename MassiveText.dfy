/** The MassiveText-style quality filter applied to Chinese documents: a
    length bound, a duplicate-line ratio, top-n-gram character fractions for
    n = 2..4 and repeated-n-gram overlap fractions for n = 5..10.  The
    thresholds are decimal fractions; they are kept here as whole percents
    and every ratio test `a / b > t` is the exact `100 * a > t * b`. */
module MassiveText {
  import opened Wrappers
  import opened Strings
  import opened Counters
  import opened Records

  /** jieba.lcut: the tokenizer is foreign, so it is a parameter. */
  type Segmenter = string -> seq<string>

  /** An n-gram, the tuple of n consecutive tokens. */
  type Gram = seq<string>

  const MinLength: nat := 100
  const MaxLength: nat := 100000

  /** (n, percent) pairs of the two n-gram stages. */
  const TopNgramFractions: seq<(nat, nat)> := [(2, 20), (3, 18), (4, 16)]
  const DuplicateNgramFractions: seq<(nat, nat)> :=
    [(5, 15), (6, 14), (7, 13), (8, 12), (9, 11), (10, 10)]

  /** The check that decided a document's fate. */
  datatype Check = LengthBound | DuplicateLines | TopNgram(n: nat) | DuplicateNgram(n: nat)

  /** process returns True (Keep) or False (Drop), or raises
      ZeroDivisionError while evaluating a check's ratio. */
  datatype Verdict = Keep | Drop(failed: Check) | DivisionByZero(at: Check)

  // ------------------------------------------------------------------
  // Specification: lines, tokens, n-gram tables and marks

  function Sum(xs: seq<nat>): nat
    decreases |xs|
  {
    if |xs| == 0 then 0 else Sum(xs[..|xs| - 1]) + xs[|xs| - 1]
  }

  /** sum(len(w) for w in ws) */
  function CharCount(ws: seq<string>): nat
    decreases |ws|
  {
    if |ws| == 0 then 0 else CharCount(ws[..|ws| - 1]) + |ws[|ws| - 1]|
  }

  lemma {:induction false} CharCountAppend(a: seq<string>, b: seq<string>)
    ensures CharCount(a + b) == CharCount(a) + CharCount(b)
    decreases |b|
  {
    if |b| == 0 {
      assert a + b == a;
    } else {
      assert (a + b)[..|a + b| - 1] == a + b[..|b| - 1];
      CharCountAppend(a, b[..|b| - 1]);
    }
  }

  /** The stripped lines that survive `if line:`, in order. */
  function NonEmptyLines(pieces: seq<string>): (r: seq<string>)
    ensures |r| <= |pieces|
    ensures forall i | 0 <= i < |r| :: |r[i]| > 0
    decreases |pieces|
  {
    if |pieces| == 0 then []
    else
      var line := Strip(pieces[|pieces| - 1]);
      NonEmptyLines(pieces[..|pieces| - 1]) + (if line != "" then [line] else [])
  }

  lemma NonEmptyLinesStep(pieces: seq<string>, i: nat)
    requires i < |pieces|
    ensures NonEmptyLines(pieces[..i + 1])
      == NonEmptyLines(pieces[..i]) + (if Strip(pieces[i]) != "" then [Strip(pieces[i])] else [])
  {
    assert pieces[..i + 1][..i] == pieces[..i];
  }

  /** The non-empty stripped lines of text.split('\n'). */
  function Lines(text: string): seq<string> {
    NonEmptyLines(SplitOn(text, '\n'))
  }

  /** Lines are never empty, so a document with a line has characters: the
      character ratio of the duplicate-line check never divides by zero. */
  lemma {:induction false} LineCharsPositive(ls: seq<string>)
    requires |ls| > 0 && forall i | 0 <= i < |ls| :: |ls[i]| > 0
    ensures CharCount(ls) > 0
  {
  }

  /** What one occurrence of line l adds to n_dup_lines (chars = false) or
      to n_dup_chars (chars = true): nothing unless l occurs more than once
      in all. */
  function DupWeight(all: seq<string>, chars: bool, l: string): nat {
    if multiset(all)[l] > 1 then (if chars then |l| else 1) else 0
  }

  /** DupWeight summed over every position of ls. */
  function PosSum(ls: seq<string>, all: seq<string>, chars: bool): nat
    decreases |ls|
  {
    if |ls| == 0 then 0
    else PosSum(ls[..|ls| - 1], all, chars) + DupWeight(all, chars, ls[|ls| - 1])
  }

  /** Every occurrence of every line that occurs more than once. */
  function DupLines(lines: seq<string>): nat {
    PosSum(lines, lines, false)
  }

  /** The characters of every occurrence of every line that occurs more
      than once. */
  function DupChars(lines: seq<string>): nat {
    PosSum(lines, lines, true)
  }

  /** dup_line_ratio > 0.3 or dup_char_ratio > 0.3 */
  predicate DuplicateRejects(lines: seq<string>) {
    10 * DupLines(lines) > 3 * |lines| || 10 * DupChars(lines) > 3 * CharCount(lines)
  }

  /** The sum the loop over counter.items() forms: for each distinct key k,
      its count m[k] times its weight. */
  function KeySum(ks: seq<string>, m: multiset<string>, all: seq<string>, chars: bool): nat
    decreases |ks|
  {
    if |ks| == 0 then 0
    else KeySum(ks[..|ks| - 1], m, all, chars) + m[ks[|ks| - 1]] * DupWeight(all, chars, ks[|ks| - 1])
  }

  lemma {:induction false} KeySumBump(ks: seq<string>, m: multiset<string>, x: string, all: seq<string>, chars: bool)
    requires forall i, j | 0 <= i < j < |ks| :: ks[i] != ks[j]
    ensures KeySum(ks, m + multiset{x}, all, chars)
      == KeySum(ks, m, all, chars) + (if x in ks then DupWeight(all, chars, x) else 0)
    decreases |ks|
  {
    if |ks| > 0 {
      var init, k := ks[..|ks| - 1], ks[|ks| - 1];
      assert ks == init + [k];
      KeySumBump(init, m, x, all, chars);
      KeySumBumpLast(init, k, m, x, all, chars);
    }
  }

  /** The step of KeySumBump: the last key gets one more occurrence of x. */
  lemma KeySumBumpLast(init: seq<string>, k: string, m: multiset<string>, x: string, all: seq<string>, chars: bool)
    requires k == x ==> x !in init
    requires KeySum(init, m + multiset{x}, all, chars)
      == KeySum(init, m, all, chars) + (if x in init then DupWeight(all, chars, x) else 0)
    ensures KeySum(init + [k], m + multiset{x}, all, chars)
      == KeySum(init + [k], m, all, chars) + (if x in init + [k] then DupWeight(all, chars, x) else 0)
  {
    var ks := init + [k];
    var w := DupWeight(all, chars, k);
    assert ks[..|ks| - 1] == init;
    if k == x {
      assert (m + multiset{x})[k] == m[k] + 1;
      assert (m[k] + 1) * w == m[k] * w + w;
    } else {
      assert (m + multiset{x})[k] == m[k];
    }
  }

  /** Summing per distinct key (with its count) equals summing per
      position: the counter loop computes DupLines and DupChars. */
  lemma {:induction false} DistinctSum(ls: seq<string>, all: seq<string>, chars: bool)
    ensures KeySum(AddAll(Empty(), ls).keys, multiset(ls), all, chars) == PosSum(ls, all, chars)
    decreases |ls|
  {
    if |ls| > 0 {
      var init, x := ls[..|ls| - 1], ls[|ls| - 1];
      assert ls == init + [x];
      assert multiset(ls) == multiset(init) + multiset{x};
      DistinctSum(init, all, chars);
      var keys := CountedSnocKeys(init, x);
      KeySumSnoc(keys, multiset(init), x, all, chars);
    }
  }

  /** Counting one more x: x's key gains its weight, or joins the keys with
      count one. */
  lemma KeySumSnoc(keys: seq<string>, m: multiset<string>, x: string, all: seq<string>, chars: bool)
    requires forall i, j | 0 <= i < j < |keys| :: keys[i] != keys[j]
    requires x !in keys ==> m[x] == 0
    ensures KeySum(if x in keys then keys else keys + [x], m + multiset{x}, all, chars)
      == KeySum(keys, m, all, chars) + DupWeight(all, chars, x)
  {
    KeySumBump(keys, m, x, all, chars);
    if x !in keys {
      NewKeySum(keys, m, x, all, chars);
    }
  }

  /** The keys of the counter of init, and those after counting one more x:
      distinct, and x is among them exactly when it occurs in init. */
  lemma CountedSnocKeys(init: seq<string>, x: string) returns (keys: seq<string>)
    ensures keys == AddAll(Empty(), init).keys
    ensures forall i, j | 0 <= i < j < |keys| :: keys[i] != keys[j]
    ensures x in keys <==> x in init
    ensures x !in keys ==> multiset(init)[x] == 0
    ensures AddAll(Empty(), init + [x]).keys == if x in keys then keys else keys + [x]
  {
    CountedKeys(init);
    AddAllSnoc(Empty(), init, x);
    keys := AddAll(Empty(), init).keys;
  }

  lemma NewKeySum(ks: seq<string>, m: multiset<string>, x: string, all: seq<string>, chars: bool)
    requires x !in ks && m[x] == 0
    requires KeySum(ks, m + multiset{x}, all, chars) == KeySum(ks, m, all, chars)
    ensures KeySum(ks + [x], m + multiset{x}, all, chars) == KeySum(ks, m, all, chars) + DupWeight(all, chars, x)
  {
    var e := ks + [x];
    assert e[..|e| - 1] == ks;
    assert (m + multiset{x})[x] == 1;
  }

  /** A document whose non-empty lines are pairwise different has no
      duplicate lines and no duplicate characters. */
  lemma {:induction false} DistinctLinesNoDuplicates(ls: seq<string>, all: seq<string>, chars: bool)
    requires forall i | 0 <= i < |ls| :: multiset(all)[ls[i]] <= 1
    ensures PosSum(ls, all, chars) == 0
    decreases |ls|
  {
    if |ls| > 0 {
      DistinctLinesNoDuplicates(ls[..|ls| - 1], all, chars);
    }
  }

  /** The length-n windows of w: w[i:i+n] for every start with a full window. */
  function Windows(w: seq<string>, n: nat): (r: seq<Gram>)
    requires n > 0
    ensures |r| == if |w| < n then 0 else |w| - n + 1
    ensures forall i | 0 <= i < |r| :: r[i] == w[i..i + n]
  {
    if |w| < n then [] else seq(|w| - n + 1, i requires 0 <= i < |w| - n + 1 => w[i..i + n])
  }

  /** The windows that start before i. */
  function WindowsBefore(w: seq<string>, n: nat, i: nat): seq<Gram>
    requires n > 0
  {
    var ws := Windows(w, n);
    if i <= |ws| then ws[..i] else ws
  }

  lemma WindowsBeforeStep(w: seq<string>, n: nat, i: nat)
    requires n > 0 && i < |w|
    ensures WindowsBefore(w, n, i + 1)
      == WindowsBefore(w, n, i) + (if i + n <= |w| then [w[i..i + n]] else [])
  {
    var ws := Windows(w, n);
    if i + n <= |w| {
      assert ws[..i + 1] == ws[..i] + [ws[i]];
    }
  }

  /** The tokens of all lines, concatenated (word_list). */
  function WordList(lines: seq<string>, segment: Segmenter): seq<string>
    decreases |lines|
  {
    if |lines| == 0 then []
    else WordList(lines[..|lines| - 1], segment) + segment(lines[|lines| - 1])
  }

  /** The order-n windows of every line's own tokens, line after line: no
      window spans two lines. */
  function GramStream(lines: seq<string>, segment: Segmenter, n: nat): seq<Gram>
    requires n > 0
    decreases |lines|
  {
    if |lines| == 0 then []
    else GramStream(lines[..|lines| - 1], segment, n) + Windows(segment(lines[|lines| - 1]), n)
  }

  /** ngrams[n] after the tokenizing loop. */
  function Table(lines: seq<string>, segment: Segmenter, n: nat): Counter<Gram>
    requires n > 0
  {
    AddAll(Empty(), GramStream(lines, segment, n))
  }

  /** (max_repeat_w, max_repeat) after the strict-`>` scan of a table. */
  function TopGram(c: Counter<Gram>): (Gram, nat) {
    var t := Top(c, |c.keys|);
    (if t.1 >= 0 then c.keys[t.1] else [], t.0)
  }

  /** char_count * max_repeat / n_chars > threshold */
  predicate TopRejects(c: Counter<Gram>, percent: nat, nChars: nat) {
    var (gram, repeat) := TopGram(c);
    100 * (CharCount(gram) * repeat) > percent * nChars
  }

  /** The window starting at i equals a window that starts earlier. */
  ghost predicate Repeated(w: seq<string>, n: nat, i: nat)
    requires n > 0 && i + n <= |w|
  {
    w[i..i + n] in Windows(w, n)[..i]
  }

  /** Position j lies in a repeated window that starts before i. */
  ghost predicate CoveredBefore(w: seq<string>, n: nat, j: nat, i: nat)
    requires n > 0
  {
    exists k | 0 <= k < i && k + n <= |w| && k <= j < k + n :: Repeated(w, n, k)
  }

  /** The mark list at the end of the order-n overlap loop. */
  ghost function Mark(w: seq<string>, n: nat): (m: seq<nat>)
    requires n > 0
    ensures |m| == |w|
  {
    seq(|w|, j requires 0 <= j < |w| => if CoveredBefore(w, n, j, |w|) then |w[j]| else 0)
  }

  /** sum(mark) for order n. */
  ghost function MarkSum(w: seq<string>, n: nat): nat
    requires n > 0
  {
    Sum(Mark(w, n))
  }

  /** The n-gram stages from the k-th pair of the top-n-gram list on. */
  ghost function TopStages(lines: seq<string>, segment: Segmenter, nChars: nat, k: nat): Verdict
    requires k <= |TopNgramFractions|
    decreases |TopNgramFractions| - k
  {
    if k == |TopNgramFractions| then OverlapStages(WordList(lines, segment), nChars, 0)
    else
      var (n, percent) := TopNgramFractions[k];
      if nChars == 0 then DivisionByZero(TopNgram(n))
      else if TopRejects(Table(lines, segment, n), percent, nChars) then Drop(TopNgram(n))
      else TopStages(lines, segment, nChars, k + 1)
  }

  /** The overlap stages from the k-th pair of the duplicate-n-gram list on. */
  ghost function OverlapStages(words: seq<string>, nChars: nat, k: nat): Verdict
    requires k <= |DuplicateNgramFractions|
    decreases |DuplicateNgramFractions| - k
  {
    if k == |DuplicateNgramFractions| then Keep
    else
      var (n, percent) := DuplicateNgramFractions[k];
      if nChars == 0 then DivisionByZero(DuplicateNgram(n))
      else if 100 * MarkSum(words, n) > percent * nChars then Drop(DuplicateNgram(n))
      else OverlapStages(words, nChars, k + 1)
  }

  /** The whole cascade on a document's text, each check in source order. */
  ghost function Evaluate(text: string, segment: Segmenter): Verdict {
    if |text| < MinLength || |text| > MaxLength then Drop(LengthBound)
    else
      var lines := Lines(text);
      if |lines| == 0 then DivisionByZero(DuplicateLines)
      else if DuplicateRejects(lines) then Drop(DuplicateLines)
      else TopStages(lines, segment, CharCount(WordList(lines, segment)), 0)
  }

  // ------------------------------------------------------------------
  // Properties of the specification

  /** w[i:i+n], the window of n tokens starting at i. */
  function Window(w: seq<string>, i: nat, n: nat): Gram
    requires i + n <= |w|
  {
    w[i..i + n]
  }

  /** Mark entries are 0 or the token's length, and an entry is nonzero
      exactly when the token lies in a window whose tuple already occurred
      at an earlier start. */
  lemma MarkMeaning(w: seq<string>, n: nat, j: nat)
    requires n > 0 && j < |w|
    ensures Mark(w, n)[j] == 0 || Mark(w, n)[j] == |w[j]|
    ensures Mark(w, n)[j] != 0 <==> (|w[j]| > 0 &&
      exists i | 0 <= i && i + n <= |w| && i <= j < i + n ::
        exists i' | 0 <= i' < i :: Window(w, i', n) == Window(w, i, n))
  {
    forall i | 0 <= i && i + n <= |w|
      ensures Repeated(w, n, i) <==> exists i' | 0 <= i' < i :: Window(w, i', n) == Window(w, i, n)
    {
      RepeatedMeaning(w, n, i);
    }
  }

  lemma RepeatedMeaning(w: seq<string>, n: nat, i: nat)
    requires n > 0 && i + n <= |w|
    ensures Repeated(w, n, i) <==> exists i' | 0 <= i' < i :: Window(w, i', n) == Window(w, i, n)
  {
    var ws := Windows(w, n);
    if Repeated(w, n, i) {
      var i' :| 0 <= i' < i && ws[..i][i'] == w[i..i + n];
      assert ws[i'] == Window(w, i', n);
    }
    if exists i' | 0 <= i' < i :: Window(w, i', n) == Window(w, i, n) {
      var i' :| 0 <= i' < i && Window(w, i', n) == Window(w, i, n);
      assert ws[..i][i'] == w[i'..i' + n];
    }
  }

  lemma {:induction false} SumBounded(m: seq<nat>, w: seq<string>)
    requires |m| == |w| && forall j | 0 <= j < |m| :: m[j] <= |w[j]|
    ensures Sum(m) <= CharCount(w)
    decreases |m|
  {
    if |m| > 0 {
      SumBounded(m[..|m| - 1], w[..|w| - 1]);
    }
  }

  lemma {:induction false} SumZero(m: seq<nat>)
    requires forall j | 0 <= j < |m| :: m[j] == 0
    ensures Sum(m) == 0
    decreases |m|
  {
    if |m| > 0 {
      SumZero(m[..|m| - 1]);
    }
  }

  /** sum(mark) never exceeds the token characters. */
  lemma MarkSumBounded(w: seq<string>, n: nat)
    requires n > 0
    ensures MarkSum(w, n) <= CharCount(w)
  {
    SumBounded(Mark(w, n), w);
  }

  /** When no order-n window of the word list repeats, nothing is marked and
      the order-n overlap check passes. */
  lemma NoRepeatPasses(w: seq<string>, n: nat, percent: nat, nChars: nat)
    requires n > 0
    requires forall i, i' | 0 <= i' < i < |Windows(w, n)| :: Windows(w, n)[i'] != Windows(w, n)[i]
    ensures MarkSum(w, n) == 0
    ensures !(100 * MarkSum(w, n) > percent * nChars)
  {
    var ws := Windows(w, n);
    forall k | 0 <= k && k + n <= |w|
      ensures !Repeated(w, n, k)
    {
      forall i' | 0 <= i' < k
        ensures ws[..k][i'] != w[k..k + n]
      {
        assert ws[k] == w[k..k + n];
      }
    }
    SumZero(Mark(w, n));
  }

  /** The top-n-gram choice: a gram of the order-n stream with the largest
      count, the first-inserted one on ties; an empty table picks nothing and
      can never reject. */
  lemma TopGramChoice(lines: seq<string>, segment: Segmenter, n: nat, percent: nat, nChars: nat)
    requires n > 0
    ensures var gs := GramStream(lines, segment, n); var (g, r) := TopGram(Table(lines, segment, n));
      && (|gs| == 0 ==> g == [] && r == 0 && !TopRejects(Table(lines, segment, n), percent, nChars))
      && (|gs| > 0 ==> g in gs && r == multiset(gs)[g])
      && (forall h | h in gs :: multiset(gs)[h] <= r)
      && (|gs| > 0 ==> forall h | h in gs && multiset(gs)[h] == r :: FirstIndex(gs, g) <= FirstIndex(gs, h))
  {
    TopIsFirstMaximum(GramStream(lines, segment, n));
  }

  /** No table of the top-n-gram list rejects. */
  ghost predicate TopChecksPass(lines: seq<string>, segment: Segmenter, nChars: nat) {
    FractionOrders();
    forall k | 0 <= k < |TopNgramFractions| ::
      !TopRejects(Table(lines, segment, TopNgramFractions[k].0), TopNgramFractions[k].1, nChars)
  }

  /** No order of the duplicate-n-gram list marks too many characters. */
  ghost predicate OverlapChecksPass(words: seq<string>, nChars: nat) {
    FractionOrders();
    forall k | 0 <= k < |DuplicateNgramFractions| ::
      !(100 * MarkSum(words, DuplicateNgramFractions[k].0) > DuplicateNgramFractions[k].1 * nChars)
  }

  /** No check rejects the document and no ratio divides by zero. */
  ghost predicate NoCheckRejects(text: string, segment: Segmenter) {
    var lines := Lines(text);
    var words := WordList(lines, segment);
    var nChars := CharCount(words);
    && MinLength <= |text| <= MaxLength
    && |lines| > 0
    && !DuplicateRejects(lines)
    && nChars > 0
    && TopChecksPass(lines, segment, nChars)
    && OverlapChecksPass(words, nChars)
  }

  /** process keeps a document exactly when none of its checks rejects it. */
  lemma KeepIffNoCheckRejects(text: string, segment: Segmenter)
    ensures Evaluate(text, segment) == Keep <==> NoCheckRejects(text, segment)
  {
    var lines := Lines(text);
    if MinLength <= |text| <= MaxLength && |lines| > 0 && !DuplicateRejects(lines) {
      AdmittedKeepIff(text, segment, lines);
    }
  }

  /** The same for a document that reaches the n-gram stages. */
  lemma AdmittedKeepIff(text: string, segment: Segmenter, lines: seq<string>)
    requires lines == Lines(text) && MinLength <= |text| <= MaxLength
    requires |lines| > 0 && !DuplicateRejects(lines)
    ensures Evaluate(text, segment) == Keep <==> NoCheckRejects(text, segment)
  {
    var words := WordList(lines, segment);
    var nChars := CharCount(words);
    EvaluateAdmitted(text, segment, lines);
    OverlapPass(words, nChars);
    TopKeep(lines, segment, nChars);
  }

  /** The overlap stages keep a document exactly when there are characters
      to divide by and no order marks too many of them. */
  lemma OverlapPass(words: seq<string>, nChars: nat)
    ensures OverlapStages(words, nChars, 0) == Keep <==> nChars > 0 && OverlapChecksPass(words, nChars)
  {
    OverlapKeep(words, nChars, 0);
  }

  lemma {:induction false} OverlapKeep(words: seq<string>, nChars: nat, k: nat)
    requires k <= |DuplicateNgramFractions|
    ensures OverlapStages(words, nChars, k) == Keep <==>
      (k < |DuplicateNgramFractions| ==> nChars > 0)
      && forall k' | k <= k' < |DuplicateNgramFractions| ::
        !(100 * MarkSum(words, DuplicateNgramFractions[k'].0) > DuplicateNgramFractions[k'].1 * nChars)
    decreases |DuplicateNgramFractions| - k
  {
    if k < |DuplicateNgramFractions| {
      OverlapKeep(words, nChars, k + 1);
    }
  }

  /** The three top-n-gram stages pass exactly when each has characters to
      divide by and no table rejects; then the overlap stages decide. */
  lemma TopKeep(lines: seq<string>, segment: Segmenter, nChars: nat)
    ensures TopStages(lines, segment, nChars, 0) == Keep <==>
      nChars > 0 && TopChecksPass(lines, segment, nChars)
      && OverlapStages(WordList(lines, segment), nChars, 0) == Keep
  {
    TopStagesUnroll(lines, segment, nChars);
    TopChecksUnroll(lines, segment, nChars);
  }

  lemma TopStagesUnroll(lines: seq<string>, segment: Segmenter, nChars: nat)
    ensures TopStages(lines, segment, nChars, 0) == Keep <==>
      && nChars > 0
      && !TopRejects(Table(lines, segment, 2), 20, nChars)
      && !TopRejects(Table(lines, segment, 3), 18, nChars)
      && !TopRejects(Table(lines, segment, 4), 16, nChars)
      && OverlapStages(WordList(lines, segment), nChars, 0) == Keep
  {
    assert TopStages(lines, segment, nChars, 2) == Keep <==>
      nChars > 0 && !TopRejects(Table(lines, segment, 4), 16, nChars) && TopStages(lines, segment, nChars, 3) == Keep;
    assert TopStages(lines, segment, nChars, 1) == Keep <==>
      nChars > 0 && !TopRejects(Table(lines, segment, 3), 18, nChars) && TopStages(lines, segment, nChars, 2) == Keep;
  }

  lemma TopChecksUnroll(lines: seq<string>, segment: Segmenter, nChars: nat)
    ensures TopChecksPass(lines, segment, nChars) <==>
      && !TopRejects(Table(lines, segment, 2), 20, nChars)
      && !TopRejects(Table(lines, segment, 3), 18, nChars)
      && !TopRejects(Table(lines, segment, 4), 16, nChars)
  {
    assert TopNgramFractions[0] == (2, 20) && TopNgramFractions[1] == (3, 18) && TopNgramFractions[2] == (4, 16);
  }

  // ------------------------------------------------------------------
  // The filter's loops

  /** The first pass: n_lines, n_chars, and the duplicate sums from the
      counter of stripped non-empty lines. */
  method DuplicateLineStats(text: string)
    returns (nLines: nat, nChars: nat, nDupLines: nat, nDupChars: nat, ghost lines: seq<string>)
    ensures lines == Lines(text)
    ensures nLines == |Lines(text)| && nChars == CharCount(Lines(text))
    ensures nDupLines == DupLines(Lines(text)) && nDupChars == DupChars(Lines(text))
  {
    var pieces := SplitOn(text, '\n');
    var counter;
    counter, nLines, nChars, lines := CountLines(pieces);
    nDupLines, nDupChars := SumDuplicates(lines, counter);
  }

  /** The loop over text.split('\n'): strip each piece and count the
      non-empty ones, with their number and total length. */
  method CountLines(pieces: seq<string>)
    returns (counter: Counter<string>, nLines: nat, nChars: nat, ghost lines: seq<string>)
    ensures lines == NonEmptyLines(pieces)
    ensures counter == AddAll(Empty(), NonEmptyLines(pieces))
    ensures nLines == |NonEmptyLines(pieces)| && nChars == CharCount(NonEmptyLines(pieces))
  {
    counter := Empty<string>();
    nLines, nChars := 0, 0;
    assert pieces[..0] == [];
    lines := [];
    for i := 0 to |pieces|
      invariant LinesCounted(pieces[..i], counter, nLines, nChars, lines)
    {
      var line := Strip(pieces[i]);
      CountLinesStep(pieces, i, counter, nLines, nChars, lines);
      if line != "" {
        counter := Add(counter, line);
        nLines := nLines + 1;
        nChars := nChars + |line|;
        lines := lines + [line];
      }
    }
    assert pieces[..|pieces|] == pieces;
  }

  /** The line loop's state after the pieces ps. */
  ghost predicate LinesCounted(ps: seq<string>, counter: Counter<string>, nLines: nat, nChars: nat, lines: seq<string>) {
    lines == NonEmptyLines(ps) && counter == AddAll(Empty(), lines)
    && nLines == |lines| && nChars == CharCount(lines)
  }

  /** One piece of the line loop: a non-empty stripped piece is one more
      line, one more count and its length more characters. */
  lemma CountLinesStep(pieces: seq<string>, i: nat, counter: Counter<string>, nLines: nat, nChars: nat, lines: seq<string>)
    requires i < |pieces| && LinesCounted(pieces[..i], counter, nLines, nChars, lines)
    ensures var line := Strip(pieces[i]);
      if line != "" then LinesCounted(pieces[..i + 1], Add(counter, line), nLines + 1, nChars + |line|, lines + [line])
      else LinesCounted(pieces[..i + 1], counter, nLines, nChars, lines)
  {
    var line := Strip(pieces[i]);
    NonEmptyLinesStep(pieces, i);
    AddAllSnoc(Empty(), lines, line);
    CharCountAppend(lines, [line]);
  }

  /** The loop over counter.items(): every count above one, and that count
      times the line's length. */
  method SumDuplicates(ghost lines: seq<string>, counter: Counter<string>) returns (nDupLines: nat, nDupChars: nat)
    requires counter == AddAll(Empty(), lines)
    ensures nDupLines == DupLines(lines) && nDupChars == DupChars(lines)
  {
    ghost var m := multiset(lines);
    CountsOfCounted(lines);
    nDupLines, nDupChars := 0, 0;
    for j := 0 to |counter.keys|
      invariant nDupLines == KeySum(counter.keys[..j], m, lines, false)
      invariant nDupChars == KeySum(counter.keys[..j], m, lines, true)
    {
      KeySumStep(counter.keys, j, m, lines);
      var line := counter.keys[j];
      var n := counter.count[line];
      if n > 1 {
        nDupLines := nDupLines + n;
        nDupChars := nDupChars + |line| * n;
      }
    }
    assert counter.keys[..|counter.keys|] == counter.keys;
    DistinctSum(lines, lines, false);
    DistinctSum(lines, lines, true);
  }

  lemma CountsOfCounted(ks: seq<string>)
    ensures forall j | 0 <= j < |AddAll(Empty(), ks).keys| ::
      AddAll(Empty(), ks).keys[j] in AddAll(Empty(), ks).count
      && AddAll(Empty(), ks).count[AddAll(Empty(), ks).keys[j]] == multiset(ks)[AddAll(Empty(), ks).keys[j]]
  {
    AddAllCount(Empty(), ks);
    var c := AddAll(Empty(), ks);
    forall j | 0 <= j < |c.keys|
      ensures c.keys[j] in c.count && c.count[c.keys[j]] == multiset(ks)[c.keys[j]]
    {
      assert Get(c, c.keys[j]) == multiset(ks)[c.keys[j]];
    }
  }

  lemma KeySumStep(ks: seq<string>, j: nat, m: multiset<string>, all: seq<string>)
    requires j < |ks| && m == multiset(all)
    ensures KeySum(ks[..j + 1], m, all, false)
      == KeySum(ks[..j], m, all, false) + (if m[ks[j]] > 1 then m[ks[j]] else 0)
    ensures KeySum(ks[..j + 1], m, all, true)
      == KeySum(ks[..j], m, all, true) + (if m[ks[j]] > 1 then |ks[j]| * m[ks[j]] else 0)
  {
    assert ks[..j + 1][..j] == ks[..j];
  }

  /** Moving the start past i adds the window at i, when it is full. */
  lemma CountStep(c: Counter<Gram>, text: seq<string>, n: nat, i: nat)
    requires n > 0 && i < |text|
    ensures AddAll(c, WindowsBefore(text, n, i + 1)) ==
      if i + n <= |text| then Add(AddAll(c, WindowsBefore(text, n, i)), text[i..i + n])
      else AddAll(c, WindowsBefore(text, n, i))
  {
    WindowsBeforeStep(text, n, i);
    if i + n <= |text| {
      AddAllSnoc(c, WindowsBefore(text, n, i), text[i..i + n]);
    } else {
      assert WindowsBefore(text, n, i + 1) == WindowsBefore(text, n, i);
    }
  }

  /** count_ngrams: adds every full window of order 2, 3 and 4 of text to
      that order's table; a tail slice shorter than n is never counted and
      every other table is left as it was. */
  method CountNgrams(text: seq<string>, tables: map<nat, Counter<Gram>>) returns (r: map<nat, Counter<Gram>>)
    requires forall n | 2 <= n <= 4 :: n in tables
    ensures r.Keys == tables.Keys
    ensures forall n | 2 <= n <= 4 :: r[n] == AddAll(tables[n], Windows(text, n))
    ensures forall n | n in tables && !(2 <= n <= 4) :: r[n] == tables[n]
  {
    r := tables;
    for i := 0 to |text|
      invariant CountedBefore(tables, r, text, i)
    {
      var r' := CountAt(text, i, r);
      CountedStep(tables, r, r', text, i);
      r := r';
    }
    CountedEnd(tables, r, text);
  }

  /** The tables after the windows that start before i are counted. */
  ghost predicate CountedBefore(tables: map<nat, Counter<Gram>>, r: map<nat, Counter<Gram>>, text: seq<string>, i: nat) {
    && r.Keys == tables.Keys
    && (forall n | 2 <= n <= 4 :: n in tables && r[n] == AddAll(tables[n], WindowsBefore(text, n, i)))
    && (forall n | n in tables && !(2 <= n <= 4) :: r[n] == tables[n])
  }

  lemma CountedStep(tables: map<nat, Counter<Gram>>, r: map<nat, Counter<Gram>>, r': map<nat, Counter<Gram>>,
                    text: seq<string>, i: nat)
    requires i < |text| && CountedBefore(tables, r, text, i)
    requires r'.Keys == r.Keys
    requires forall n | 2 <= n <= 4 :: r'[n] == AddGram(r[n], text, i, n)
    requires forall n | n in r && !(2 <= n <= 4) :: r'[n] == r[n]
    ensures CountedBefore(tables, r', text, i + 1)
  {
    forall n | 2 <= n <= 4
      ensures r'[n] == AddAll(tables[n], WindowsBefore(text, n, i + 1))
    {
      CountStep(tables[n], text, n, i);
    }
  }

  lemma CountedEnd(tables: map<nat, Counter<Gram>>, r: map<nat, Counter<Gram>>, text: seq<string>)
    requires CountedBefore(tables, r, text, |text|)
    ensures r.Keys == tables.Keys
    ensures forall n | 2 <= n <= 4 :: r[n] == AddAll(tables[n], Windows(text, n))
    ensures forall n | n in tables && !(2 <= n <= 4) :: r[n] == tables[n]
  {
    forall n | 2 <= n <= 4
      ensures WindowsBefore(text, n, |text|) == Windows(text, n)
    {
    }
  }

  /** The table of order n after the window at i (when full) is counted. */
  function AddGram(c: Counter<Gram>, text: seq<string>, i: nat, n: nat): Counter<Gram> {
    if i + n <= |text| then Add(c, text[i..i + n]) else c
  }

  /** The inner loop of count_ngrams: the windows of order 2, 3 and 4
      starting at i. */
  method CountAt(text: seq<string>, i: nat, tables: map<nat, Counter<Gram>>) returns (r: map<nat, Counter<Gram>>)
    requires i < |text|
    requires forall n | 2 <= n <= 4 :: n in tables
    ensures r.Keys == tables.Keys
    ensures forall n | 2 <= n <= 4 :: r[n] == AddGram(tables[n], text, i, n)
    ensures forall n | n in tables && !(2 <= n <= 4) :: r[n] == tables[n]
  {
    r := tables;
    for n := 2 to 5
      invariant r.Keys == tables.Keys
      invariant forall m | 2 <= m < n :: r[m] == AddGram(tables[m], text, i, m)
      invariant forall m | m in tables && !(2 <= m < n) :: r[m] == tables[m]
    {
      var gram := text[i..if i + n <= |text| then i + n else |text|];
      if |gram| == n {
        r := r[n := Add(r[n], gram)];
      }
    }
  }

  lemma WordListSnoc(lines: seq<string>, line: string, segment: Segmenter)
    ensures WordList(lines + [line], segment) == WordList(lines, segment) + segment(line)
  {
    assert (lines + [line])[..|lines|] == lines;
  }

  /** Counting one more line's windows into the table of the lines before
      it gives the table of all the lines. */
  lemma TableStep(prev: seq<string>, line: string, segment: Segmenter, n: nat)
    requires n > 0
    ensures Table(prev + [line], segment, n) == AddAll(Table(prev, segment, n), Windows(segment(line), n))
  {
    var lines := prev + [line];
    assert lines[..|prev|] == prev;
    assert GramStream(lines, segment, n) == GramStream(prev, segment, n) + Windows(segment(line), n);
    AddAllAppend(Empty(), GramStream(prev, segment, n), Windows(segment(line), n));
  }

  /** {n: {} for n in range(2, 5)} */
  function NoTables(): (t: map<nat, Counter<Gram>>)
    ensures t.Keys == {2, 3, 4}
    ensures forall n | n in t :: t[n] == Empty()
  {
    map[2 := Empty(), 3 := Empty(), 4 := Empty()]
  }

  /** The tables before the first line are those of a document with no lines. */
  lemma TablesOfNothing(segment: Segmenter)
    ensures forall n | 2 <= n <= 4 :: n in NoTables() && NoTables()[n] == Table([], segment, n)
  {
    forall n | 2 <= n <= 4
      ensures Table([], segment, n) == Empty()
    {
    }
  }

  /** The second pass: the word list and the order 2..4 tables
      (ngrams = {n: {} for n in range(2, 5)}), built line by line. */
  method Tokenize(text: string, segment: Segmenter, ghost lines: seq<string>)
    returns (words: seq<string>, tables: map<nat, Counter<Gram>>)
    requires lines == Lines(text)
    ensures words == WordList(lines, segment)
    ensures tables.Keys == {2, 3, 4}
    ensures forall n | 2 <= n <= 4 :: n in tables && tables[n] == Table(lines, segment, n)
  {
    tables := NoTables();
    words := [];
    var pieces := SplitOn(text, '\n');
    assert pieces[..0] == [];
    ghost var seen: seq<string> := [];
    TablesOfNothing(segment);
    for i := 0 to |pieces|
      invariant seen == NonEmptyLines(pieces[..i])
      invariant words == WordList(seen, segment)
      invariant tables.Keys == {2, 3, 4}
      invariant forall n | 2 <= n <= 4 :: n in tables && tables[n] == Table(seen, segment, n)
    {
      NonEmptyLinesStep(pieces, i);
      words, tables, seen := TokenizePiece(seen, pieces[i], segment, words, tables);
    }
    assert pieces[..|pieces|] == pieces;
    assert seen == lines;
  }

  /** One piece of text.split('\n') in the second pass: skipped when it
      strips to nothing, tokenized otherwise. */
  method TokenizePiece(ghost seen: seq<string>, piece: string, segment: Segmenter,
                       words: seq<string>, tables: map<nat, Counter<Gram>>)
    returns (words': seq<string>, tables': map<nat, Counter<Gram>>, ghost seen': seq<string>)
    requires words == WordList(seen, segment)
    requires tables.Keys == {2, 3, 4}
    requires forall n | 2 <= n <= 4 :: n in tables && tables[n] == Table(seen, segment, n)
    ensures seen' == seen + (if Strip(piece) != "" then [Strip(piece)] else [])
    ensures words' == WordList(seen', segment)
    ensures tables'.Keys == {2, 3, 4}
    ensures forall n | 2 <= n <= 4 :: n in tables' && tables'[n] == Table(seen', segment, n)
  {
    var line := Strip(piece);
    if line != "" {
      words', tables' := TokenizeLine(seen, line, segment, words, tables);
      seen' := seen + [line];
    } else {
      words', tables', seen' := words, tables, seen;
      assert seen + [] == seen;
    }
  }

  /** One non-empty line of the second pass: its tokens join the word list
      and its windows join the tables. */
  method TokenizeLine(ghost lines: seq<string>, line: string, segment: Segmenter,
                      words: seq<string>, tables: map<nat, Counter<Gram>>)
    returns (words': seq<string>, tables': map<nat, Counter<Gram>>)
    requires words == WordList(lines, segment)
    requires tables.Keys == {2, 3, 4}
    requires forall n | 2 <= n <= 4 :: n in tables && tables[n] == Table(lines, segment, n)
    ensures words' == WordList(lines + [line], segment)
    ensures tables'.Keys == {2, 3, 4}
    ensures forall n | 2 <= n <= 4 :: n in tables' && tables'[n] == Table(lines + [line], segment, n)
  {
    var lineWords := segment(line);
    WordListSnoc(lines, line, segment);
    words' := words + lineWords;
    forall n | 2 <= n <= 4
      ensures Table(lines + [line], segment, n) == AddAll(tables[n], Windows(lineWords, n))
    {
      TableStep(lines, line, segment, n);
    }
    tables' := CountNgrams(lineWords, tables);
  }

  /** The strict-`>` scan for the most repeated gram of one table. */
  method MaxRepeat(table: Counter<Gram>) returns (maxRepeatW: Gram, maxRepeat: nat)
    ensures (maxRepeatW, maxRepeat) == TopGram(table)
  {
    maxRepeat, maxRepeatW := 0, [];
    ghost var arg := -1;
    for i := 0 to |table.keys|
      invariant (maxRepeat, arg) == Top(table, i)
      invariant maxRepeatW == if arg >= 0 then table.keys[arg] else []
    {
      var repeat := Get(table, table.keys[i]);
      if repeat > maxRepeat {
        maxRepeat, maxRepeatW := repeat, table.keys[i];
        arg := i;
      }
    }
  }

  lemma CoveredBeforeStep(w: seq<string>, n: nat, j: nat, i: nat)
    requires n > 0 && i + n <= |w|
    ensures CoveredBefore(w, n, j, i + 1) <==> CoveredBefore(w, n, j, i) || (i <= j < i + n && Repeated(w, n, i))
  {
    if CoveredBefore(w, n, j, i + 1) && !CoveredBefore(w, n, j, i) {
      var k :| 0 <= k < i + 1 && k + n <= |w| && k <= j < k + n && Repeated(w, n, k);
      assert k == i;
    }
  }

  lemma CoveredBeforeEnd(w: seq<string>, n: nat, j: nat, i: nat)
    requires n > 0 && i + n > |w|
    ensures CoveredBefore(w, n, j, i) <==> CoveredBefore(w, n, j, |w|)
  {
  }

  /** sum(mark) of the order-n overlap loop over word_list: a window whose
      tuple is already in fdist marks its tokens with their lengths. */
  method OverlapCharCount(words: seq<string>, n: nat) returns (marked: nat)
    requires n > 0
    ensures marked == MarkSum(words, n)
  {
    var fdist := Empty<Gram>();
    var mark := new nat[|words|](_ => 0);
    var starts := if |words| >= n then |words| - n + 1 else 0;
    for i := 0 to starts
      invariant fdist == AddAll(Empty(), Windows(words, n)[..i])
      invariant forall j | 0 <= j < |words| ::
        mark[j] == if CoveredBefore(words, n, j, i) then |words[j]| else 0
    {
      fdist := MarkWindow(words, n, i, fdist, mark);
    }
    forall j | 0 <= j < |words|
      ensures mark[j] == Mark(words, n)[j]
    {
      CoveredBeforeEnd(words, n, j, starts);
    }
    assert mark[..] == Mark(words, n);
    marked := Sum(mark[..]);
  }

  /** One window of the overlap loop: a tuple already in fdist marks its
      tokens; either way the tuple is counted. */
  method MarkWindow(words: seq<string>, n: nat, i: nat, fdist: Counter<Gram>, mark: array<nat>)
    returns (fdist': Counter<Gram>)
    requires n > 0 && i + n <= |words| && mark.Length == |words|
    requires fdist == AddAll(Empty(), Windows(words, n)[..i])
    requires forall j | 0 <= j < |words| ::
      mark[j] == if CoveredBefore(words, n, j, i) then |words[j]| else 0
    modifies mark
    ensures fdist' == AddAll(Empty(), Windows(words, n)[..i + 1])
    ensures forall j | 0 <= j < |words| ::
      mark[j] == if CoveredBefore(words, n, j, i + 1) then |words[j]| else 0
  {
    var bag := words[i..i + n];
    FdistStep(words, n, i);
    forall j | 0 <= j < |words|
      ensures CoveredBefore(words, n, j, i + 1) <==> CoveredBefore(words, n, j, i) || (i <= j < i + n && Repeated(words, n, i))
    {
      CoveredBeforeStep(words, n, j, i);
    }
    if bag in fdist.count {
      for j := i to i + n
        invariant forall j' | 0 <= j' < |words| ::
          mark[j'] == if CoveredBefore(words, n, j', i) || i <= j' < j then |words[j']| else 0
      {
        mark[j] := |words[j]|;
      }
    }
    fdist' := Add(fdist, bag);
  }

  /** The table after window i counts that window too, and the window was
      in the table before exactly when it repeats an earlier one. */
  lemma FdistStep(words: seq<string>, n: nat, i: nat)
    requires n > 0 && i + n <= |words|
    ensures var c := AddAll(Empty(), Windows(words, n)[..i]);
      && AddAll(Empty(), Windows(words, n)[..i + 1]) == Add(c, words[i..i + n])
      && (words[i..i + n] in c.count <==> Repeated(words, n, i))
  {
    var seen := Windows(words, n)[..i];
    var bag := words[i..i + n];
    assert Windows(words, n)[..i + 1] == seen + [bag];
    AddAllSnoc(Empty(), seen, bag);
    CountedMember(seen, bag);
  }

  /** A counter built from nothing has a count for x exactly when x occurs. */
  lemma CountedMember<K>(ks: seq<K>, x: K)
    ensures x in AddAll(Empty(), ks).count <==> x in ks
  {
    AddAllCount(Empty(), ks);
    var c := AddAll(Empty(), ks);
    assert Get(c, x) == multiset(ks)[x];
  }

  /** process: the cascade of checks on item['content'] (missing content is
      the empty string and fails the length bound). */
  method Process(item: Page, segment: Segmenter) returns (v: Verdict)
    ensures v == Evaluate(item.content.GetOr(""), segment)
    ensures |item.content.GetOr("")| < MinLength || |item.content.GetOr("")| > MaxLength ==> v == Drop(LengthBound)
  {
    var text := item.content.GetOr("");
    if |text| < MinLength || |text| > MaxLength {
      return Drop(LengthBound);
    }
    var nLines, nChars, nDupLines, nDupChars, lines := DuplicateLineStats(text);
    if nLines == 0 {
      return DivisionByZero(DuplicateLines);
    }
    LineCharsPositive(lines);
    if 10 * nDupLines > 3 * nLines || 10 * nDupChars > 3 * nChars {
      return Drop(DuplicateLines);
    }
    var words, ngrams := Tokenize(text, segment, lines);
    var nTokenChars := CharCount(words);
    EvaluateAdmitted(text, segment, lines);
    v := TopNgramChecks(lines, segment, words, ngrams, nTokenChars);
  }

  /** A document of admissible length whose lines pass the duplicate check
      goes on to the n-gram stages. */
  lemma EvaluateAdmitted(text: string, segment: Segmenter, lines: seq<string>)
    requires lines == Lines(text) && MinLength <= |text| <= MaxLength
    requires |lines| > 0 && !DuplicateRejects(lines)
    ensures Evaluate(text, segment) == TopStages(lines, segment, CharCount(WordList(lines, segment)), 0)
  {
  }

  /** The fixed threshold tables: orders 2..4, then 5..10. */
  lemma FractionOrders()
    ensures |TopNgramFractions| == 3
    ensures forall k | 0 <= k < 3 :: 2 <= TopNgramFractions[k].0 <= 4
    ensures |DuplicateNgramFractions| == 6
    ensures forall k | 0 <= k < 6 :: DuplicateNgramFractions[k].0 >= 5
  {
  }

  /** The top-n-gram loop of process, then the overlap loop. */
  method TopNgramChecks(ghost lines: seq<string>, segment: Segmenter, words: seq<string>,
                        ngrams: map<nat, Counter<Gram>>, nTokenChars: nat) returns (v: Verdict)
    requires words == WordList(lines, segment)
    requires forall n | 2 <= n <= 4 :: n in ngrams && ngrams[n] == Table(lines, segment, n)
    ensures v == TopStages(lines, segment, nTokenChars, 0)
  {
    FractionOrders();
    for k := 0 to |TopNgramFractions|
      invariant TopStages(lines, segment, nTokenChars, 0) == TopStages(lines, segment, nTokenChars, k)
    {
      var (n, percent) := TopNgramFractions[k];
      var maxRepeatW, maxRepeat := MaxRepeat(ngrams[n]);
      var charCount := CharCount(maxRepeatW);
      if nTokenChars == 0 {
        return DivisionByZero(TopNgram(n));
      }
      if 100 * (charCount * maxRepeat) > percent * nTokenChars {
        return Drop(TopNgram(n));
      }
    }
    v := OverlapChecks(words, nTokenChars);
  }

  /** The repeated-n-gram loop of process, orders 5..10. */
  method OverlapChecks(words: seq<string>, nTokenChars: nat) returns (v: Verdict)
    ensures v == OverlapStages(words, nTokenChars, 0)
  {
    FractionOrders();
    for k := 0 to |DuplicateNgramFractions|
      invariant OverlapStages(words, nTokenChars, 0) == OverlapStages(words, nTokenChars, k)
    {
      var (n, percent) := DuplicateNgramFractions[k];
      var marked := OverlapCharCount(words, n);
      if nTokenChars == 0 {
        return DivisionByZero(DuplicateNgram(n));
      }
      if 100 * marked > percent * nTokenChars {
        return Drop(DuplicateNgram(n));
      }
    }
    return Keep;
  }

  /** What a worker can raise. */
  datatype WorkerError = JsonDecodeError | ZeroDivisionError(at: Check)

  /** worker: json.loads, then process.  The decoder is foreign, so it is a
      parameter (None is a line it rejects). */
  method Worker(line: string, decode: string -> Option<Page>, segment: Segmenter)
    returns (r: Result<(Page, bool), WorkerError>)
    ensures decode(line).None? ==> r == Failure(JsonDecodeError)
    ensures decode(line).Some? ==> match Evaluate(decode(line).value.content.GetOr(""), segment)
      case Keep => r == Success((decode(line).value, true))
      case Drop(_) => r == Success((decode(line).value, false))
      case DivisionByZero(c) => r == Failure(ZeroDivisionError(c))
  {
    var item := decode(line);
    if item.None? {
      return Failure(JsonDecodeError);
    }
    var v := Process(item.value, segment);
    match v
    case Keep => r := Success((item.value, true));
    case Drop(_) => r := Success((item.value, false));
    case DivisionByZero(c) => r := Failure(ZeroDivisionError(c));
  }

  /** The records of one input file that the filter keeps, in input order,
      or the index of the first line whose worker raised (which stops the
      script before the output file is written). */
  ghost function Kept(lines: seq<string>, decode: string -> Option<Page>, segment: Segmenter)
    : Result<seq<Page>, (nat, WorkerError)>
    decreases |lines|
  {
    if |lines| == 0 then Success([])
    else
      var prev := Kept(lines[..|lines| - 1], decode, segment);
      var item := decode(lines[|lines| - 1]);
      if prev.Failure? then prev
      else if item.None? then Failure((|lines| - 1, JsonDecodeError))
      else match Evaluate(item.value.content.GetOr(""), segment)
        case Keep => Success(prev.value + [item.value])
        case Drop(_) => prev
        case DivisionByZero(c) => Failure((|lines| - 1, ZeroDivisionError(c)))
  }

  /** Every kept record passed every check. */
  lemma {:induction false} KeptPassed(lines: seq<string>, decode: string -> Option<Page>, segment: Segmenter)
    requires Kept(lines, decode, segment).Success?
    ensures forall p | p in Kept(lines, decode, segment).value :: Evaluate(p.content.GetOr(""), segment) == Keep
    decreases |lines|
  {
    if |lines| > 0 {
      KeptPassed(lines[..|lines| - 1], decode, segment);
    }
  }

  /** The main loop over one input file: `if flag:` the record is written. */
  method FilterFile(lines: seq<string>, decode: string -> Option<Page>, segment: Segmenter)
    returns (r: Result<seq<Page>, (nat, WorkerError)>)
    ensures r == Kept(lines, decode, segment)
  {
    var out: seq<Page> := [];
    for i := 0 to |lines|
      invariant Kept(lines[..i], decode, segment) == Success(out)
    {
      assert lines[..i + 1][..i] == lines[..i];
      var res := Worker(lines[i], decode, segment);
      if res.Failure? {
        BadLineStops(lines, decode, segment, i + 1);
        return Failure((i, res.error));
      }
      var (item, flag) := res.value;
      if flag {
        out := out + [item];
      }
    }
    assert lines[..|lines|] == lines;
    return Success(out);
  }

  /** Once a line has raised, the result stays that failure. */
  lemma {:induction false} BadLineStops(lines: seq<string>, decode: string -> Option<Page>, segment: Segmenter, k: nat)
    requires 0 < k <= |lines| && Kept(lines[..k], decode, segment).Failure?
    ensures Kept(lines, decode, segment) == Kept(lines[..k], decode, segment)
    decreases |lines|
  {
    if k < |lines| {
      var init := lines[..|lines| - 1];
      assert init[..k] == lines[..k];
      BadLineStops(init, decode, segment, k);
    } else {
      assert lines[..k] == lines;
    }
  }
}
