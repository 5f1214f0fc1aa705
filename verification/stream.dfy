/**
 The background worker's consume loop: every event of the trace stream is
 handled in arrival order, one at a time, and the victims log is the fold
 of the per-event handler over the stream.

 Each observation pairs an event with the answer the operating system would
 give to a kill of its process at that moment. The answer is consulted only
 when a kill is actually attempted.
 */
module EventStream {
  import opened Enforcement
  import opened Events

  datatype Observation = Observation(event: IoEvent, outcome: KillOutcome)

  predicate Kills(root: string, o: Observation) {
    KillsProcess(root, o.event, o.outcome)
  }

  /** The victims log after the observations, handled one by one from an
      empty log. */
  function Run(root: string, obs: seq<Observation>): (log: seq<string>)
    ensures |log| <= |obs|
  {
    if obs == [] then []
    else
      var last := obs[|obs| - 1];
      OnEvent(Run(root, obs[..|obs| - 1]), root, last.event, last.outcome)
  }

  /** Reference definition: the names of the processes that were killed,
      in stream order. */
  function Victims(root: string, obs: seq<Observation>): (names: seq<string>)
    ensures |names| <= |obs|
  {
    if obs == [] then []
    else (if Kills(root, obs[0]) then [obs[0].event.processName] else []) + Victims(root, obs[1..])
  }

  lemma {:induction false} VictimsAppend(root: string, a: seq<Observation>, b: seq<Observation>)
    ensures Victims(root, a + b) == Victims(root, a) + Victims(root, b)
    decreases |a|
  {
    if a == [] {
      assert a + b == b;
    } else {
      var head := if Kills(root, a[0]) then [a[0].event.processName] else [];
      assert (a + b)[0] == a[0];
      assert (a + b)[1..] == a[1..] + b;
      assert Victims(root, a + b) == head + Victims(root, a[1..] + b);
      VictimsAppend(root, a[1..], b);
      assert Victims(root, a) == head + Victims(root, a[1..]);
    }
  }

  /** The fold and the filter agree. */
  lemma {:induction false} RunIsVictims(root: string, obs: seq<Observation>)
    ensures Run(root, obs) == Victims(root, obs)
    decreases |obs|
  {
    if obs != [] {
      var init := obs[..|obs| - 1];
      var last := obs[|obs| - 1];
      RunIsVictims(root, init);
      VictimsAppend(root, init, [last]);
      assert init + [last] == obs;
      assert [last][1..] == [];
    }
  }

  /** Handling a stream in two pieces is handling the whole stream: the log
      only grows, in stream order, and no event depends on earlier ones. */
  lemma {:induction false} RunAppend(root: string, a: seq<Observation>, b: seq<Observation>)
    ensures Run(root, a + b) == Run(root, a) + Run(root, b)
  {
    RunIsVictims(root, a + b);
    RunIsVictims(root, a);
    RunIsVictims(root, b);
    VictimsAppend(root, a, b);
  }

  /** The log after a prefix of the stream is a prefix of the log after a
      longer prefix. */
  lemma {:induction false} RunPrefixMonotone(root: string, obs: seq<Observation>, i: nat, j: nat)
    requires i <= j <= |obs|
    ensures Run(root, obs[..i]) <= Run(root, obs[..j])
  {
    assert obs[..j] == obs[..i] + obs[i..j];
    RunAppend(root, obs[..i], obs[i..j]);
  }

  /** One step of the fold: the log after obs[..i+1] is obs[i] handled on top
      of the log after obs[..i]. */
  lemma {:induction false} RunStep(root: string, obs: seq<Observation>, i: nat)
    requires i < |obs|
    ensures Run(root, obs[..i + 1]) ==
              OnEvent(Run(root, obs[..i]), root, obs[i].event, obs[i].outcome)
  {
    assert obs[..i + 1][..i] == obs[..i];
  }

  /** Every event is evaluated, and only ever extends the log: the log after
      obs[..i+1] is the log after obs[..i], plus obs[i]'s process name exactly
      when that event kills its process. */
  lemma {:induction false} RunExtends(root: string, obs: seq<Observation>, i: nat)
    requires i < |obs|
    ensures Run(root, obs[..i + 1]) ==
              Run(root, obs[..i]) + (if Kills(root, obs[i]) then [obs[i].event.processName] else [])
  {
    RunStep(root, obs, i);
  }

  /** A failed kill leaves the log unchanged and does not stop a later event
      from killing its process. */
  lemma {:induction false} FailureDoesNotStopLaterKills(root: string, obs: seq<Observation>, i: nat, j: nat)
    requires i < j < |obs|
    requires obs[i].outcome.Failed?
    requires Kills(root, obs[j])
    ensures Run(root, obs[..i + 1]) == Run(root, obs[..i])
    ensures Run(root, obs[..j + 1]) == Run(root, obs[..j]) + [obs[j].event.processName]
  {
    RunStep(root, obs, i);
    RunStep(root, obs, j);
  }

  /** The positions of the observations that kill, in increasing order. */
  function KillPositions(root: string, obs: seq<Observation>): (idx: seq<nat>)
    ensures forall k :: 0 <= k < |idx| ==> idx[k] < |obs| && Kills(root, obs[idx[k]])
    ensures forall k, l :: 0 <= k < l < |idx| ==> idx[k] < idx[l]
    ensures forall j :: 0 <= j < |obs| && Kills(root, obs[j]) ==> j in idx
  {
    if obs == [] then []
    else
      var prev := KillPositions(root, obs[..|obs| - 1]);
      if Kills(root, obs[|obs| - 1]) then prev + [|obs| - 1] else prev
  }

  /** The log holds exactly the names of the killing observations, one entry
      per kill, in the order they occurred. */
  lemma {:induction false} RunListsKillsInOrder(root: string, obs: seq<Observation>)
    ensures |Run(root, obs)| == |KillPositions(root, obs)|
    ensures forall k :: 0 <= k < |Run(root, obs)| ==>
              Run(root, obs)[k] == obs[KillPositions(root, obs)[k]].event.processName
    decreases |obs|
  {
    if obs != [] {
      var init := obs[..|obs| - 1];
      var last := obs[|obs| - 1];
      RunListsKillsInOrder(root, init);
      var prevLog := Run(root, init);
      var prevIdx := KillPositions(root, init);
      assert Run(root, obs) == OnEvent(prevLog, root, last.event, last.outcome);
      forall k | 0 <= k < |prevIdx|
        ensures init[prevIdx[k]] == obs[prevIdx[k]]
      {
      }
      if Kills(root, last) {
        assert Run(root, obs) == prevLog + [last.event.processName];
        assert KillPositions(root, obs) == prevIdx + [|obs| - 1];
      } else {
        assert Run(root, obs) == prevLog;
        assert KillPositions(root, obs) == prevIdx;
      }
    }
  }

  /** The on-screen victims list only grows as the stream is consumed. */
  lemma {:induction false} VictimsTextGrowsWithStream(initial: string, root: string,
                                                     obs: seq<Observation>, i: nat, j: nat)
    requires i <= j <= |obs|
    ensures VictimsText(initial, Run(root, obs[..i])) <= VictimsText(initial, Run(root, obs[..j]))
  {
    var shorter := Run(root, obs[..i]);
    var longer := Run(root, obs[..j]);
    RunPrefixMonotone(root, obs, i, j);
    assert longer == shorter + longer[|shorter|..];
    VictimsTextGrows(initial, shorter, longer[|shorter|..]);
  }

  /** The worker loop: consume the stream in order, handling each event. */
  method ProcessEvents(root: string, obs: seq<Observation>) returns (log: seq<string>)
    ensures log == Victims(root, obs)
    ensures |log| <= |obs|
  {
    log := [];
    var i := 0;
    while i < |obs|
      invariant i <= |obs|
      invariant log == Run(root, obs[..i])
    {
      RunStep(root, obs, i);
      log := OnEvent(log, root, obs[i].event, obs[i].outcome);
      i := i + 1;
    }
    assert obs[..|obs|] == obs;
    RunIsVictims(root, obs);
  }
}
