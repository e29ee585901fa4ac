/** The input queue both fetching scripts fill before starting their
    workers: every path not already done, in order, then one None sentinel
    per worker. */
module Queues {
  import opened Wrappers

  /** The paths not already done, in their original order. */
  function Pending(paths: seq<string>, done: set<string>): (r: seq<string>)
    ensures |r| <= |paths|
    ensures forall p :: p in r <==> p in paths && p !in done
    decreases |paths|
  {
    if |paths| == 0 then []
    else
      var p := paths[|paths| - 1];
      Pending(paths[..|paths| - 1], done) + (if p !in done then [p] else [])
  }

  /** in_queue.put(path) for each path. */
  function Wrapped(ps: seq<string>): (r: seq<Option<string>>)
    ensures |r| == |ps| && forall k | 0 <= k < |ps| :: r[k] == Some(ps[k])
    decreases |ps|
  {
    if |ps| == 0 then [] else Wrapped(ps[..|ps| - 1]) + [Some(ps[|ps| - 1])]
  }

  lemma WrappedSnoc(ps: seq<string>, p: string)
    ensures Wrapped(ps + [p]) == Wrapped(ps) + [Some(p)]
  {
    assert (ps + [p])[..|ps|] == ps;
  }

  lemma PendingStep(paths: seq<string>, done: set<string>, i: nat)
    requires i < |paths|
    ensures Pending(paths[..i + 1], done) == Pending(paths[..i], done) + (if paths[i] !in done then [paths[i]] else [])
  {
    assert paths[..i + 1][..i] == paths[..i];
  }

  /** in_queue.put(None), n times. */
  function Sentinels(n: nat): (r: seq<Option<string>>)
    ensures |r| == n && forall k | 0 <= k < n :: r[k] == None
  {
    if n == 0 then [] else Sentinels(n - 1) + [None]
  }

  /** The paths on a filled queue are exactly the wrapped ones. */
  lemma WrappedMembers(ps: seq<string>, n: nat)
    ensures forall p :: Some(p) in Wrapped(ps) + Sentinels(n) <==> p in ps
  {
    var q := Wrapped(ps) + Sentinels(n);
    forall p
      ensures Some(p) in q <==> p in ps
    {
      if Some(p) in q {
        var k :| 0 <= k < |q| && q[k] == Some(p);
        assert k < |ps| && ps[k] == p;
      }
      if p in ps {
        var k :| 0 <= k < |ps| && ps[k] == p;
        assert q[k] == Some(p);
      }
    }
  }

  /** A filled queue: the wrapped paths in order, then only sentinels. */
  lemma WrappedShape(ps: seq<string>, n: nat)
    ensures var q := Wrapped(ps) + Sentinels(n);
      && |q| == |ps| + n
      && (forall k | 0 <= k < |ps| :: q[k] == Some(ps[k]))
      && (forall k | |ps| <= k < |q| :: q[k] == None)
  {
    var w, z := Wrapped(ps), Sentinels(n);
    assert forall k | |ps| <= k < |w + z| :: (w + z)[k] == z[k - |w|];
  }

  /** The filter loop: each path not in done, in order, onto the queue. */
  method EnqueuePending(totalPaths: seq<string>, done: set<string>) returns (queue: seq<Option<string>>)
    ensures queue == Wrapped(Pending(totalPaths, done))
  {
    queue := [];
    ghost var pending: seq<string> := [];
    assert totalPaths[..0] == [];
    for i := 0 to |totalPaths|
      invariant pending == Pending(totalPaths[..i], done)
      invariant queue == Wrapped(pending)
    {
      PendingStep(totalPaths, done, i);
      if totalPaths[i] !in done {
        WrappedSnoc(pending, totalPaths[i]);
        queue := queue + [Some(totalPaths[i])];
        pending := pending + [totalPaths[i]];
      }
    }
    assert totalPaths[..|totalPaths|] == totalPaths;
  }

  /** One None per fetch worker after what is queued. */
  method EnqueueSentinels(queue: seq<Option<string>>, n: nat) returns (queue': seq<Option<string>>)
    ensures queue' == queue + Sentinels(n)
  {
    queue' := queue;
    for i := 0 to n
      invariant queue' == queue + Sentinels(i)
    {
      queue' := queue' + [None];
    }
  }
}
