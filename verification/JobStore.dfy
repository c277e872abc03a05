/** The durable job and restore-approval store as a state machine
    (internal/controlplane/sqlstore.go). Every transaction is one atomic step; times are
    integers, and an approval that expires at 0 carries no deadline. */
module JobStore {
  import opened Prelude

  datatype JobStatus = Queued | Running | Succeeded | Failed

  /** The erasure part of a synchronisation payload: one shard of an object on its way from
      `source` to `target`, under a lease that protects its digest. */
  datatype Shard = Shard(
    object_: string,
    index: nat,
    digest: string,
    bytes: int,
    lease: string,
    transfer: string,
    source: string,
    target: string)

  datatype Job = Job(
    id: string,
    kind: string,
    target: string,
    affinity: string,
    approval: Option<string>,   // approval id carried by a decodable restore payload
    shard: Option<Shard>,       // shard carried by a decodable synchronisation payload
    status: JobStatus,
    priority: int,
    attempts: int,
    maxAttempts: int,
    notBefore: int,
    leaseOwner: string,
    leaseUntil: Option<int>,
    created: int,
    lastError: string)

  /** What a caller submits; absent fields take the store's defaults. */
  datatype Request = Request(
    kind: string,
    target: string,
    affinity: string,
    approval: Option<string>,
    shard: Option<Shard>,
    status: Option<JobStatus>,
    priority: int,
    attempts: int,
    maxAttempts: int,
    notBefore: Option<int>)

  datatype ApprovalStatus = Pending | Approved | Scheduled | Executed | Expired

  datatype Approval = Approval(requestedBy: string, approvedBy: string, status: ApprovalStatus, expires: int)

  datatype State = State(jobs: map<string, Job>, approvals: map<string, Approval>)

  const RESTORE := "restore-generation"
  const BACKUP := "backup-repo"
  const MIRROR := "mirror-gitlab"
  const REPLICATE_CAS := "replicate-cas"
  const INSTALL_CAS := "install-cas"
  const PROTECT_ERASURE := "protect-erasure"
  const EXPIRED_LEASE := "lease expired on final attempt"

  predicate Active(j: Job) {
    j.status == Queued || j.status == Running
  }

  predicate SameKey(j: Job, kind: string, target: string, affinity: string) {
    j.kind == kind && j.target == target && j.affinity == affinity
  }

  predicate Conflicts(s: State, kind: string, target: string, affinity: string) {
    exists id :: id in s.jobs && Active(s.jobs[id]) && SameKey(s.jobs[id], kind, target, affinity)
  }

  // --- Transactions on jobs -----------------------------------------------------

  function NewJob(r: Request, id: string, now: int): Job {
    Job(id, r.kind, r.target, r.affinity, r.approval, r.shard,
        if r.status.None? then Queued else r.status.value,
        r.priority, r.attempts, if r.maxAttempts <= 0 then 5 else r.maxAttempts,
        if r.notBefore.None? then now else r.notBefore.value, "", None, now, "")
  }

  /** The insert goes through unless the key is already active or the id is taken. */
  function Enqueue(s: State, r: Request, id: string, now: int): State {
    if Conflicts(s, r.kind, r.target, r.affinity) || id in s.jobs then s
    else s.(jobs := s.jobs[id := NewJob(r, id, now)])
  }

  /** The follow-up job an agent may file for the job it holds: a mirror of the same target, bound to
      the agent; everything else is as the agent's text has it. */
  function Adopted(s: State, parent: string, agent: string, child: Request): Option<Request> {
    if Held(s, parent, agent) && child.kind == MIRROR && child.target == s.jobs[parent].target
    then Some(child.(affinity := agent))
    else None
  }

  predicate LeaseExpired(j: Job, now: int) {
    j.status == Running && j.leaseUntil.Some? && j.leaseUntil.value <= now
  }

  function Reap(j: Job, now: int): Job {
    if LeaseExpired(j, now) && j.attempts >= j.maxAttempts then
      j.(status := Failed, leaseOwner := "", leaseUntil := None,
         lastError := if j.lastError == "" then EXPIRED_LEASE else j.lastError)
    else j
  }

  predicate Leasable(j: Job, owner: string, now: int) {
    && j.notBefore <= now && j.attempts < j.maxAttempts
    && (j.affinity == "" || j.affinity == owner)
    && (j.status == Queued || LeaseExpired(j, now))
  }

  function Grant(j: Job, owner: string, until: int): Job {
    j.(status := Running, attempts := j.attempts + 1, leaseOwner := owner, leaseUntil := Some(until))
  }

  /** Queue order: priority first, then age. */
  predicate Ahead(a: Job, b: Job) {
    a.priority > b.priority || (a.priority == b.priority && a.created < b.created)
  }

  ghost function LeasableIds(s: State, owner: string, now: int): set<string> {
    set id | id in s.jobs && Leasable(s.jobs[id], owner, now)
  }

  /** A legal choice of jobs for one lease call: leasable, no more than asked for, as many as
      there are, and none ahead of them left behind. */
  ghost predicate LeaseChoice(s: State, owner: string, limit: int, now: int, chosen: set<string>) {
    && chosen <= LeasableIds(s, owner, now)
    && |chosen| == Min(if limit <= 0 then 1 else limit, |LeasableIds(s, owner, now)|)
    && forall a, b :: a in LeasableIds(s, owner, now) - chosen && b in chosen ==> !Ahead(s.jobs[a], s.jobs[b])
  }

  function Lease(s: State, owner: string, until: int, now: int, chosen: set<string>): State {
    s.(jobs := map id | id in s.jobs ::
         if id in chosen then Grant(Reap(s.jobs[id], now), owner, until) else Reap(s.jobs[id], now))
  }

  predicate Held(s: State, id: string, owner: string) {
    id in s.jobs && s.jobs[id].status == Running && s.jobs[id].leaseOwner == owner
  }

  function Finish(j: Job): Job {
    j.(status := Succeeded, leaseOwner := "", leaseUntil := None, lastError := "")
  }

  /** The approval a restore job must consume to succeed. */
  function Consumes(j: Job): Option<string> {
    if j.kind == RESTORE && j.approval.Some? && j.approval.value != "" then j.approval else None
  }

  function Complete(s: State, id: string, owner: string): State {
    if !Held(s, id, owner) then s
    else
      var j := s.jobs[id];
      match Consumes(j)
      case None => s.(jobs := s.jobs[id := Finish(j)])
      case Some(a) =>
        if a in s.approvals && s.approvals[a].status == Scheduled then
          State(s.jobs[id := Finish(j)], s.approvals[a := s.approvals[a].(status := Executed)])
        else s
  }

  /** The write of a failure report. `seen` is the attempt count that its separate read returned. */
  function Fail(s: State, id: string, owner: string, seen: int, detail: string, retryAfter: int, now: int): State {
    if !Held(s, id, owner) then s
    else
      var j := s.jobs[id];
      s.(jobs := s.jobs[id := j.(
           status := if seen >= j.maxAttempts then Failed else Queued,
           notBefore := if seen >= j.maxAttempts then now else now + retryAfter,
           leaseOwner := "", leaseUntil := None, lastError := detail)])
  }

  /** The unique index on active keys refuses a retry that would duplicate one. */
  function Retry(s: State, id: string, now: int): State {
    if id !in s.jobs || s.jobs[id].status != Failed then s
    else
      var j := s.jobs[id];
      if Conflicts(s, j.kind, j.target, j.affinity) then s
      else s.(jobs := s.jobs[id := j.(status := Queued, attempts := 0, notBefore := now,
                                      leaseOwner := "", leaseUntil := None, lastError := "")])
  }

  // --- Transactions on approvals --------------------------------------------------

  function Create(s: State, id: string, a: Approval): State {
    if id in s.approvals then s else s.(approvals := s.approvals[id := a])
  }

  function Approve(s: State, id: string, actor: string, distinct: bool, now: int): State {
    if id !in s.approvals || s.approvals[id].status != Pending then s
    else
      var a := s.approvals[id];
      if a.expires != 0 && a.expires <= now then s.(approvals := s.approvals[id := a.(status := Expired)])
      else if distinct && a.requestedBy == actor then s
      else s.(approvals := s.approvals[id := a.(status := Approved, approvedBy := actor)])
  }

  function Move(s: State, id: string, from: ApprovalStatus, to: ApprovalStatus): State {
    if id in s.approvals && s.approvals[id].status == from then
      s.(approvals := s.approvals[id := s.approvals[id].(status := to)])
    else s
  }

  function Schedule(s: State, id: string, now: int): State {
    if id in s.approvals && s.approvals[id].expires > now then Move(s, id, Approved, Scheduled) else s
  }

  // --- Runs --------------------------------------------------------------------------

  datatype Event =
    | EnqueueEv(request: Request, job: string, now: int)
    | LeaseEv(owner: string, limit: int, until: int, now: int, chosen: set<string>)
    | CompleteEv(job: string, owner: string)
    | ReadEv(job: string, owner: string)
    | FailEv(job: string, owner: string, read: nat, seen: int, detail: string, retryAfter: int, now: int)
    | RetryEv(job: string, now: int)
    | CreateEv(approval: string, content: Approval)
    | ApproveEv(approval: string, actor: string, distinct: bool, now: int)
    | ScheduleEv(approval: string, now: int)
    | ReleaseEv(approval: string)
    | ExecuteEv(approval: string)

  function Apply(s: State, e: Event): State {
    match e
    case EnqueueEv(r, id, now) => Enqueue(s, r, id, now)
    case LeaseEv(owner, _, until, now, chosen) => Lease(s, owner, until, now, chosen)
    case CompleteEv(id, owner) => Complete(s, id, owner)
    case ReadEv(_, _) => s
    case FailEv(id, owner, _, seen, detail, retryAfter, now) => Fail(s, id, owner, seen, detail, retryAfter, now)
    case RetryEv(id, now) => Retry(s, id, now)
    case CreateEv(id, a) => Create(s, id, a)
    case ApproveEv(id, actor, distinct, now) => Approve(s, id, actor, distinct, now)
    case ScheduleEv(id, now) => Schedule(s, id, now)
    case ReleaseEv(id) => Move(s, id, Scheduled, Approved)
    case ExecuteEv(id) => Move(s, id, Scheduled, Executed)
  }

  /** A lease call picks its jobs lawfully; every other call is unconstrained. */
  ghost predicate Lawful(s: State, e: Event) {
    e.LeaseEv? ==> LeaseChoice(s, e.owner, e.limit, e.now, e.chosen)
  }

  /** The write of a failure report follows a read of the same job by the same owner, event number
      `read` of the run, which found the job held and `seen` attempts used. */
  ghost predicate FromRead(states: seq<State>, events: seq<Event>, i: nat)
    requires i < |events| < |states| && events[i].FailEv?
  {
    var e := events[i];
    && e.read < i && events[e.read] == ReadEv(e.job, e.owner)
    && Held(states[e.read], e.job, e.owner) && e.seen == states[e.read].jobs[e.job].attempts
  }

  ghost predicate Run(states: seq<State>, events: seq<Event>) {
    && |states| == |events| + 1
    && (forall i :: 0 <= i < |events| ==> Lawful(states[i], events[i]) && states[i + 1] == Apply(states[i], events[i]))
    && forall i :: 0 <= i < |events| && events[i].FailEv? ==> FromRead(states, events, i)
  }

  const EMPTY := State(map[], map[])
}
