/** The API objects that the binder's GPU reservation code reads and writes. */
module BinderApi {
  import opened Options

  type PodKey = string
  type RequestKey = string
  type Group = string
  type Node = string

  datatype PodPhase = PodPending | PodRunning | PodSucceeded | PodFailed | PodUnknown

  /** A workload pod. `single` is the value of its GPU group label and `multi` the groups of its
      multi-fraction labels. */
  datatype Pod = Pod(phase: PodPhase, single: Option<Group>, multi: set<Group>)

  /** A request without a phase counts as RequestPending. `limit` is the backoff limit, if it has one. */
  datatype RequestPhase = RequestPending | RequestSucceeded | RequestFailed
  datatype Request = Request(
    pod: PodKey, groups: seq<Group>, limit: Option<int>, phase: RequestPhase, attempts: int, deleting: bool)

  /** The name of a reservation pod is a hash of its node and GPU group; the pair stands for the name.
      The value is the device index that the reservation pod has written, if any. */
  datatype Reserved = Reserved(node: Node, group: Group)

  datatype Objects = Objects(
    pods: map<PodKey, Pod>, reservations: map<Reserved, Option<string>>, requests: map<RequestKey, Request>)

  /** The phases that keep a labelled pod's reservation. */
  predicate Live(p: Pod) {
    p.phase.PodRunning? || p.phase.PodPending?
  }

  predicate Labelled(p: Pod, g: Group) {
    p.single == Some(g) || g in p.multi
  }

  /** hasLivePodForBindRequest: any pod of that name that has not finished. */
  predicate Unfinished(pods: map<PodKey, Pod>, p: PodKey) {
    p in pods && !pods[p].phase.PodSucceeded? && !pods[p].phase.PodFailed?
  }

  predicate RetriesLeft(r: Request) {
    r.limit.Some? && r.attempts < r.limit.value
  }

  /** isActionableBindRequest: the binder will still work on it. */
  predicate Actionable(r: Request) {
    !r.deleting && (r.phase.RequestPending? || (r.phase.RequestFailed? && RetriesLeft(r)))
  }

  /** Whether hasActiveBindRequestsForGpuGroup counts the request. */
  predicate Protecting(pods: map<PodKey, Pod>, r: Request, g: Group) {
    g in r.groups &&
    match r.phase
    case RequestFailed => RetriesLeft(r)
    case RequestSucceeded => Unfinished(pods, r.pod)
    case RequestPending => true
  }

  predicate Protected(o: Objects, g: Group) {
    exists k :: k in o.requests && Protecting(o.pods, o.requests[k], g)
  }

  /** A request protects its groups exactly when the binder would work on it if it were not being
      deleted, or it succeeded and its pod is alive. In particular every actionable request protects. */
  lemma ProtectingIff(pods: map<PodKey, Pod>, r: Request, g: Group)
    requires g in r.groups
    ensures Protecting(pods, r, g) <==>
      Actionable(r.(deleting := false)) || (r.phase.RequestSucceeded? && Unfinished(pods, r.pod))
    ensures Actionable(r) ==> Protecting(pods, r, g)
  {
  }

  ghost predicate HasLivePodIn(o: Objects, g: Group) {
    exists p :: p in o.pods && Live(o.pods[p]) && Labelled(o.pods[p], g)
  }

  ghost predicate IsReserved(o: Objects, g: Group) {
    exists n: Node :: Reserved(n, g) in o.reservations
  }

  ghost predicate AtMostOneReservation(o: Objects, g: Group) {
    forall n: Node, m: Node :: Reserved(n, g) in o.reservations && Reserved(m, g) in o.reservations ==> n == m
  }

  /** Somebody still relies on the group: a live labelled pod, or a request the binder will work on. */
  ghost predicate Needed(o: Objects, g: Group) {
    || HasLivePodIn(o, g)
    || (exists k :: k in o.requests && Actionable(o.requests[k]) && g in o.requests[k].groups)
  }

  lemma NeededWithoutPodsIsProtected(o: Objects, g: Group)
    requires Needed(o, g) && !HasLivePodIn(o, g)
    ensures Protected(o, g)
  {
    var k :| k in o.requests && Actionable(o.requests[k]) && g in o.requests[k].groups;
    ProtectingIff(o.pods, o.requests[k], g);
  }
}
