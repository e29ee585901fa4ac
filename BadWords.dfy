/** is_bad_doc: a document is flagged when the flagged words occur in it more
    than three times in all.  The script for Chinese text filtering and the
    WARC download script carry identical copies of this function. */
module BadWords {
  import opened Strings

  /** The running total is_bad_doc accumulates over the first |badwords|
      words: each word's str.count after stripping it. */
  function BadTotal(doc: string, badwords: seq<string>): nat
    decreases |badwords|
  {
    if |badwords| == 0 then 0
    else BadTotal(doc, badwords[..|badwords| - 1]) + CountOf(doc, Strip(badwords[|badwords| - 1]))
  }

  /** Scans the bad words in order, adding each one's non-overlapping count
      when it occurs, and stops as soon as the total passes three. */
  method IsBadDoc(doc: string, badwords: seq<string>) returns (bad: bool)
    ensures bad <==> BadTotal(doc, badwords) > 3
  {
    var count := 0;
    for i := 0 to |badwords|
      invariant count == BadTotal(doc, badwords[..i])
      invariant count <= 3
    {
      assert badwords[..i + 1][..i] == badwords[..i];
      var badWord := Strip(badwords[i]);
      if Contains(doc, badWord) {
        count := count + CountOf(doc, badWord);
        if count > 3 {
          BadTotalPrefix(doc, badwords, i + 1);
          return true;
        }
      }
    }
    assert badwords[..|badwords|] == badwords;
    return false;
  }

  /** The running total never decreases, so stopping early at a total above
      three gives the same answer as scanning every word. */
  lemma {:induction false} BadTotalPrefix(doc: string, badwords: seq<string>, k: nat)
    requires k <= |badwords|
    ensures BadTotal(doc, badwords[..k]) <= BadTotal(doc, badwords)
    decreases |badwords|
  {
    if k < |badwords| {
      var init := badwords[..|badwords| - 1];
      assert init[..k] == badwords[..k];
      BadTotalPrefix(doc, init, k);
    } else {
      assert badwords[..k] == badwords;
    }
  }

  lemma {:induction false} BadTotalAppend(doc: string, a: seq<string>, b: seq<string>)
    ensures BadTotal(doc, a + b) == BadTotal(doc, a) + BadTotal(doc, b)
    decreases |b|
  {
    if |b| == 0 {
      assert a + b == a;
    } else {
      assert (a + b)[..|a + b| - 1] == a + b[..|b| - 1];
      BadTotalAppend(doc, a, b[..|b| - 1]);
    }
  }

  /** The download script iterates a frozenset, whose order is not fixed:
      the verdict does not depend on the order of the bad words. */
  lemma {:induction false} BadTotalOrderFree(doc: string, a: seq<string>, b: seq<string>)
    requires multiset(a) == multiset(b)
    ensures BadTotal(doc, a) == BadTotal(doc, b)
    decreases |a|
  {
    if |a| > 0 {
      var init, x := a[..|a| - 1], a[|a| - 1];
      assert a == init + [x];
      assert x in multiset(b);
      var k :| 0 <= k < |b| && b[k] == x;
      var rest := b[..k] + b[k + 1..];
      assert b == b[..k] + [x] + b[k + 1..];
      assert multiset(b) == multiset(b[..k]) + multiset([x]) + multiset(b[k + 1..]);
      assert multiset(a) == multiset(init) + multiset([x]);
      assert multiset(rest) == multiset(b[..k]) + multiset(b[k + 1..]);
      assert multiset(init) == multiset(a) - multiset([x]);
      assert multiset(rest) == multiset(b) - multiset([x]);
      BadTotalOrderFree(doc, init, rest);
      BadTotalAppend(doc, b[..k], b[k + 1..]);
      BadTotalAppend(doc, b[..k] + [x], b[k + 1..]);
      BadTotalAppend(doc, b[..k], [x]);
      assert [x][..0] == [];
    }
  }
}
