/** The session half of each Statement call: what it does to tasks, nodes and plugins, in the order
    the scheduler's code does it. The log half is in Statement. */
module SessionSteps {
  import opened Options
  import opened Cluster
  import opened StatementSpec
  import Session

  method EvictTask(ssn: Session.Session, t: TaskId) returns (ok: bool)
    requires ssn.Valid() && t in ssn.spec.tasks && JobFound(ssn.spec, t)
    requires t in ssn.tasks && t in ssn.ledger && ssn.tasks[t].node in ssn.spec.nodes
    modifies ssn
    ensures ssn.Valid() && ok == (Slot(old(ssn.tasks)[t].node, t) in old(ssn.pods))
    ensures ssn.State() ==
      if ok then Evicted(old(ssn.State()), t)
      else WithRecord(old(ssn.State()), t, old(ssn.tasks)[t].(status := Releasing))
  {
    hide Session.Session.Valid;
    var previous := ssn.tasks[t];
    ssn.SetRecord(t, previous.(status := Releasing, virtual := true));
    ok := ssn.UpdateTask(previous.node, t);
    if !ok {
      ssn.SetRecord(t, ssn.tasks[t].(virtual := previous.virtual));
      assert ssn.tasks == old(ssn.tasks)[t := previous.(status := Releasing)];
      return;
    }
    ssn.Notify(t, -1);
  }

  /** The end of every removal: the node lets go of the task, the plugins hear of it, the record changes. */
  method TakeOff(ssn: Session.Session, t: TaskId, host: NodeName, r: Record)
    requires ssn.Valid() && t in ssn.spec.tasks && host in ssn.spec.nodes
    requires t in ssn.tasks && t in ssn.ledger && r.status == ssn.tasks[t].status
    modifies ssn
    ensures ssn.Valid() && ssn.State() == Touch(old(ssn.State()), t, r, host, None, -1)
  {
    hide Session.Session.Valid;
    var removed := ssn.RemoveTask(host, t);
    ssn.Notify(t, -1);
    ssn.SetFields(t, r);
  }

  /** The end of a placement: the plugins hear of it, and the task is flagged. */
  method Announce(ssn: Session.Session, t: TaskId)
    requires ssn.Valid() && t in ssn.spec.tasks && t in ssn.tasks && t in ssn.ledger
    modifies ssn`ledger, ssn`tasks
    ensures ssn.Valid() && ssn.ledger == old(ssn.ledger)[t := old(ssn.ledger)[t] + 1]
    ensures ssn.tasks == old(ssn.tasks)[t := old(ssn.tasks)[t].(virtual := true)]
  {
    hide Session.Session.Valid;
    ssn.Notify(t, 1);
    ssn.SetFields(t, ssn.tasks[t].(virtual := true));
  }

  method UnallocateTask(ssn: Session.Session, t: TaskId, numa: Numa, virtual: bool) returns (ok: bool)
    requires ssn.Valid() && t in ssn.spec.tasks
    requires t in ssn.tasks && t in ssn.ledger
    modifies ssn
    ensures ssn.Valid() && ok == (old(ssn.tasks)[t].node in ssn.spec.nodes)
    ensures ssn.State() ==
      if ok then Unallocated(ssn.spec, old(ssn.State()), t, numa, virtual)
      else WithRecord(old(ssn.State()), t, NextStatus(ssn.spec, t, old(ssn.tasks)[t], Pending))
  {
    hide Session.Session.Valid;
    var pending := NextStatus(ssn.spec, t, ssn.tasks[t], Pending);
    ssn.SetRecord(t, pending);
    var host := pending.node;
    if host !in ssn.spec.nodes {
      return false;
    }
    TakeOff(ssn, t, host, pending.(virtual := virtual, node := NO_NODE, numa := numa));
    ok := true;
  }

  method UnevictTask(ssn: Session.Session, op: Operation)
    requires ssn.Valid() && op.EvictOp? && OpKnown(ssn.spec, op)
    requires op.task in ssn.tasks && op.task in ssn.ledger
    modifies ssn
    ensures ssn.Valid() && ssn.State() == Unevicted(ssn.spec, old(ssn.State()), op)
  {
    hide Session.Session.Valid;
    var t, previous := op.task, op.previous;
    ssn.SetRecord(t, NextStatus(ssn.spec, t, ssn.tasks[t], previous.status)
                     .(groups := previous.groups, numa := previous.numa, virtual := previous.virtual));
    var done;
    if Slot(previous.node, t) in ssn.pods {
      done := ssn.UpdateTask(previous.node, t);
    } else {
      done := ssn.AddTask(previous.node, t);
    }
    ssn.Notify(t, 1);
  }

  /** A task that cannot be added keeps the status and node name it was given for the attempt. */
  method AllocateTask(ssn: Session.Session, t: TaskId, host: NodeName) returns (ok: bool)
    requires ssn.Valid() && t in ssn.spec.tasks && JobFound(ssn.spec, t)
    requires t in ssn.tasks && t in ssn.ledger
    modifies ssn
    ensures ssn.Valid() && ok == (host in ssn.spec.nodes && Slot(host, t) !in old(ssn.pods))
    ensures ssn.State() ==
      if ok then AllocatedTo(old(ssn.State()), t, host)
      else WithRecord(old(ssn.State()), t, old(ssn.tasks)[t].(status := Allocated, node := host))
  {
    hide Session.Session.Valid;
    var placed := ssn.tasks[t].(status := Allocated, node := host);
    ssn.SetRecord(t, placed);
    if host !in ssn.spec.nodes {
      return false;
    }
    ok := ssn.AddTask(host, t);
    if !ok {
      return;
    }
    Announce(ssn, t);
  }

  method UnpipelineTask(ssn: Session.Session, op: Operation) returns (ok: bool)
    requires ssn.Valid() && op.PipelineOp? && OpKnown(ssn.spec, op)
    requires op.task in ssn.tasks && op.task in ssn.ledger
    modifies ssn
    ensures ssn.Valid() && ok == (old(ssn.tasks)[op.task].node in ssn.spec.nodes)
    ensures ssn.State() ==
      if ok then Unpipelined(ssn.spec, old(ssn.State()), op)
      else WithRecord(old(ssn.State()), op.task,
                      NextStatus(ssn.spec, op.task, old(ssn.tasks)[op.task], op.previous.status)
                      .(groups := op.previous.groups, virtual := op.previous.virtual))
  {
    hide Session.Session.Valid;
    var t, previous := op.task, op.previous;
    var host := ssn.tasks[t].node;
    var unplaced := NextStatus(ssn.spec, t, ssn.tasks[t], previous.status)
                    .(groups := previous.groups, virtual := previous.virtual);
    ssn.SetRecord(t, unplaced);
    if host !in ssn.spec.nodes {
      return false;
    }
    TakeOff(ssn, t, host, unplaced.(node := previous.node, numa := previous.numa));
    ok := true;
  }

  /** A node gets its copy of the task, instead of the one it may have. */
  method PlaceOnNode(ssn: Session.Session, t: TaskId, host: NodeName, gpuMoved: bool)
    requires ssn.Valid() && t in ssn.spec.tasks && host in ssn.spec.nodes && t in ssn.tasks
    requires gpuMoved ==> Slot(host, t) in ssn.pods
    modifies ssn`pods, ssn`nodes, ssn`orphans
    ensures ssn.Valid() && ssn.pods == old(ssn.pods)[Slot(host, t) := CopyOf(ssn.tasks[t])]
    ensures ssn.orphans ==
      if gpuMoved then old(ssn.orphans) + [(Slot(host, t), old(ssn.pods)[Slot(host, t)])] else old(ssn.orphans)
  {
    hide Session.Session.Valid;
    if gpuMoved {
      ssn.ConsolidateToDifferentGpu(host, t);
    } else if Slot(host, t) in ssn.pods {
      var updated := ssn.UpdateTask(host, t);
    } else {
      var added := ssn.AddTask(host, t);
    }
  }

  /** The result is what the log entry keeps for undoing it. */
  method PipelineTask(ssn: Session.Session, t: TaskId, host: NodeName) returns (previous: Record)
    requires ssn.Valid() && t in ssn.spec.tasks && JobFound(ssn.spec, t) && host in ssn.spec.nodes
    requires t in ssn.tasks && t in ssn.ledger
    modifies ssn
    ensures ssn.Valid() && previous == PipelinePrevious(ssn.spec, old(ssn.State()), t, host)
    ensures ssn.State() == PipelinedTo(ssn.spec, old(ssn.State()), t, host)
  {
    hide Session.Session.Valid;
    var slot := Slot(host, t);
    var found := slot in ssn.pods;
    previous := ssn.tasks[t];
    var placed := previous.(status := Pipelined, node := host);
    var gpuMoved, numaMoved := false, false;
    if found {
      gpuMoved := GpuPlacementChanged(ssn.spec, previous, ssn.pods[slot], t);
      numaMoved := NumaPlacementChanged(previous, ssn.pods[slot]);
    }
    ssn.SetRecord(t, placed);
    if numaMoved {
      previous := previous.(numa := ssn.pods[slot].numa);
    }
    if gpuMoved {
      previous := previous.(groups := ssn.pods[slot].groups);
    }
    PlaceOnNode(ssn, t, host, gpuMoved);
    Announce(ssn, t);
  }
}
