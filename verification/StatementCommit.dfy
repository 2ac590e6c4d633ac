/** What Commit sends to the cluster: the entries that are still valid, in log order. */
module StatementCommit {
  import opened Sequences
  import opened Cluster
  import opened StatementSpec
  import opened StatementHistory

  /** One call to the cache for a log entry, and whether the cache accepted it. */
  datatype Effect = Effect(index: nat, accepted: bool)

  predicate Survives(log: Log, i: nat)
    requires Backward(log) && i < |log|
  {
    OperationValid(log, i) && !log[i].UndoOp?
  }

  /** The loop of Commit stops after an allocation that the cache rejects. */
  predicate Stops(log: Log, accepted: set<nat>, i: nat)
    requires Backward(log) && i < |log|
  {
    Survives(log, i) && log[i].AllocateOp? && i !in accepted
  }

  /** What the loop sends for entries `..n`; `accepted` are the entries whose call succeeds. */
  function Sent(log: Log, accepted: set<nat>, n: nat): seq<Effect>
    requires Backward(log) && n <= |log|
  {
    if n == 0 then []
    else
      var sent := Sent(log, accepted, n - 1);
      if Survives(log, n - 1) && !Stopped(log, accepted, n - 1) then sent + [Effect(n - 1, n - 1 in accepted)] else sent
  }

  /** An allocation before entry `n` was rejected. */
  predicate Stopped(log: Log, accepted: set<nat>, n: nat)
    requires Backward(log) && n <= |log|
  {
    exists j :: 0 <= j < n && Stops(log, accepted, j)
  }

  /** Exactly the surviving entries that no rejected allocation precedes are sent, each once and in order. */
  lemma {:induction false} SentExactly(log: Log, accepted: set<nat>, n: nat)
    requires Backward(log) && n <= |log|
    ensures var sent := Sent(log, accepted, n);
            && (forall a, b :: 0 <= a < b < |sent| ==> sent[a].index < sent[b].index)
            && (forall a :: 0 <= a < |sent| ==> sent[a].index < n && sent[a].accepted == (sent[a].index in accepted))
            && (forall i: nat :: i < n ==>
                  ((Survives(log, i) && !Stopped(log, accepted, i)) <==> Effect(i, i in accepted) in sent))
    decreases n
  {
    if n > 0 {
      SentExactly(log, accepted, n - 1);
      var before, sent := Sent(log, accepted, n - 1), Sent(log, accepted, n);
      forall i: nat | i < n
        ensures (Survives(log, i) && !Stopped(log, accepted, i)) <==> Effect(i, i in accepted) in sent
      {
        if i == n - 1 {
          assert Effect(i, i in accepted) !in before;
          if Survives(log, i) && !Stopped(log, accepted, i) { assert sent[|sent| - 1] == Effect(i, i in accepted); }
        } else {
          assert Effect(i, i in accepted) in before <==> Effect(i, i in accepted) in sent;
        }
      }
    }
  }

  /** An eviction that was undone between calls is not sent, and one that was not is, unless a
      rejected allocation came first. */
  lemma UndoneEvictionNotSent(log: Log, accepted: set<nat>, i: nat)
    requires PublicLog(log) && Backward(log) && i < |log| && log[i].EvictOp?
    ensures (Effect(i, i in accepted) in Sent(log, accepted, |log|)) <==>
            (!Stopped(log, accepted, i) && forall k :: 0 <= k < |log| && log[k].UndoOp? ==> log[k].index != i)
  {
    SentExactly(log, accepted, |log|);
    PublicValidity(log, i);
  }

  /** The pod groups and actions for which an eviction was accepted; each gets one event. */
  function EventKeys(spec: Spec, log: Log, sent: seq<Effect>): set<(JobId, string)>
    requires Known(spec, log) && forall a :: 0 <= a < |sent| ==> sent[a].index < |log|
  {
    set a | 0 <= a < |sent| && sent[a].accepted && log[sent[a].index].EvictOp? ::
      (spec.tasks[log[sent[a].index].task].job, log[sent[a].index].metadata.action)
  }

  /** The deferred loop over the committed evictions: one event per key, no key twice. */
  method RecordEvents(keys: set<(JobId, string)>) returns (events: seq<(JobId, string)>)
    ensures forall k :: k in events <==> k in keys
    ensures forall a, b :: 0 <= a < b < |events| ==> events[a] != events[b]
  {
    events := Listed(keys);
  }
}
