/**
 The `unmapped` report: it counts sign-in denials over the delivered audit log and the undelivered
 outbox at once, while outbox workers move rows from one to the other.
 */
module UnmappedReport {
  import opened Prelude
  import S = SignIn

  type Id = nat
  type Worker = nat
  type Time = int

  /** The fields of an AUTH_LOGIN_FAILURE event the report reads, whose it is and when it happened. */
  datatype Denial = Denial(user: nat, tenant: nat, claim: Option<string>, refusal: Option<string>, reason: S.Reason, at: Time)

  datatype Status = Pending | Processing(worker: Worker, since: Option<Time>) | Sent | Failed

  datatype OutboxRow = OutboxRow(denial: Denial, status: Status)

  /**
   `emitted` is not a table: it remembers every denial ever enqueued.  `logs` is keyed by the unique
   outbox id.  `held` are the rows that workers have read into memory when they claimed them; a
   worker keeps its copy, for a delivery that committed may still look like a failure to it.
   */
  datatype System = System(outbox: map<Id, OutboxRow>, logs: map<Id, Denial>, emitted: map<Id, Denial>, held: set<(Worker, Id)>)

  datatype Step =
    | Enqueue(id: Id, denial: Denial)
    | Claim(id: Id, worker: Worker, now: Time)
    | Deliver(id: Id, worker: Worker)          // insert, ON CONFLICT DO NOTHING, then mark SENT
    | Pause(id: Id, worker: Worker)            // the chain is paused: back to PENDING
    | RecordError(id: Id, worker: Worker, dead: bool)
    | Reap(id: Id, dead: bool)
    | PurgeSent(id: Id)
    | PurgeFailed(id: Id)
    | MoveLogs(user: nat, from: nat, to: nat)  // the bootstrap migration's update of the audit log

  function SetStatus(sys: System, id: Id, status: Status): System {
    if id in sys.outbox then sys.(outbox := sys.outbox[id := sys.outbox[id].(status := status)]) else sys
  }

  /**
   Deliver, Pause and RecordError name the row by id alone: they do not look at its status, and
   Deliver inserts what the worker holds in memory even if the outbox row is gone.
   */
  function Next(sys: System, step: Step): System {
    match step
    case Enqueue(id, denial) =>
      if id in sys.emitted then sys
      else sys.(outbox := sys.outbox[id := OutboxRow(denial, Pending)], emitted := sys.emitted[id := denial])
    case Claim(id, worker, now) =>
      if id in sys.outbox && sys.outbox[id].status.Pending?
      then SetStatus(sys, id, Processing(worker, Some(now))).(held := sys.held + {(worker, id)}) else sys
    case Deliver(id, worker) =>
      if (worker, id) !in sys.held || id !in sys.emitted then sys
      else
        var logged := if id in sys.logs then sys else sys.(logs := sys.logs[id := sys.emitted[id]]);
        SetStatus(logged, id, Sent)
    case Pause(id, worker) => if (worker, id) in sys.held then SetStatus(sys, id, Pending) else sys
    case RecordError(id, worker, dead) =>
      if (worker, id) in sys.held then SetStatus(sys, id, if dead then Failed else Pending) else sys
    case Reap(id, dead) =>
      if id in sys.outbox && sys.outbox[id].status.Processing? then SetStatus(sys, id, if dead then Failed else Pending) else sys
    case PurgeSent(id) =>
      if id in sys.outbox && sys.outbox[id].status.Sent? then sys.(outbox := sys.outbox - {id}) else sys
    case PurgeFailed(id) =>
      if id in sys.outbox && sys.outbox[id].status.Failed? then sys.(outbox := sys.outbox - {id}) else sys
    case MoveLogs(user, from, to) => sys.(logs := map id | id in sys.logs :: Moved(sys.logs[id], user, from, to))
  }

  /** A logged denial after a migration; the outbox row of the same event keeps its tenant. */
  function Moved(d: Denial, user: nat, from: nat, to: nat): Denial {
    if d.user == user && d.tenant == from then d.(tenant := to) else d
  }

  function Run(sys: System, steps: seq<Step>): System
    decreases |steps|
  {
    if steps == [] then sys else Run(Next(sys, steps[0]), steps[1..])
  }

  const EMPTY := System(map[], map[], map[], {})

  // ----- the query ------------------------------------------------------------------------------------

  /** A GROUP BY key together with the window's start. */
  datatype Group = Group(tenant: nat, claim: Option<string>, refusal: Option<string>, reason: S.Reason, cutoff: Time)

  /** Either column identifies a denial the report shows. */
  predicate Reportable(d: Denial) {
    d.claim.Some? || d.refusal.Some?
  }

  predicate InGroup(d: Denial, g: Group) {
    && d.tenant == g.tenant && d.claim == g.claim && d.refusal == g.refusal && d.reason == g.reason
    && d.at >= g.cutoff
    && Reportable(d)
  }

  function Logged(sys: System, g: Group): set<Id> {
    set id | id in sys.logs && InGroup(sys.logs[id], g)
  }

  function Queued(sys: System, g: Group): set<Id> {
    set id | id in sys.outbox && !sys.outbox[id].status.Sent? && InGroup(sys.outbox[id].denial, g)
  }

  /** FAILED, or PROCESSING past the lease; an unknown start of the lease counts as past it. */
  predicate Stranded(status: Status, leaseCutoff: Time) {
    status.Failed? || (status.Processing? && !(status.since.Some? && status.since.value > leaseCutoff))
  }

  function StrandedIds(sys: System, g: Group, leaseCutoff: Time): set<Id> {
    set id | id in Queued(sys, g) && Stranded(sys.outbox[id].status, leaseCutoff)
  }

  /** count(*) over the UNION ALL of the two tables. */
  function Count(sys: System, g: Group): nat {
    |Logged(sys, g)| + |Queued(sys, g)|
  }

  function UndeliveredCount(sys: System, g: Group, leaseCutoff: Time): nat {
    |StrandedIds(sys, g, leaseCutoff)|
  }

  // ----- what it counts -------------------------------------------------------------------------------

  /** A denial as it is on record: as the audit log has it once it was delivered. */
  function OnRecord(sys: System, id: Id): Denial
    requires id in sys.logs || id in sys.outbox
  {
    if id in sys.logs then sys.logs[id] else sys.outbox[id].denial
  }

  /** The denials of a group that are on record, each once. */
  function Denials(sys: System, g: Group): set<Id> {
    set id | id in sys.logs.Keys + sys.outbox.Keys && InGroup(OnRecord(sys, id), g)
  }

  /** Rows that are in the audit log although their outbox row says they are not delivered. */
  function Doubled(sys: System): set<Id> {
    set id | id in sys.outbox && id in sys.logs && !sys.outbox[id].status.Sent?
  }

  /** Those of them whose outbox row is in the group. */
  function DoubledIn(sys: System, g: Group): set<Id> {
    set id | id in Doubled(sys) && InGroup(sys.outbox[id].denial, g)
  }

  ghost predicate Inv(sys: System) {
    && (forall id :: id in sys.outbox ==> id in sys.emitted && sys.outbox[id].denial == sys.emitted[id])
    && (forall id :: id in sys.logs ==> id in sys.emitted && sys.logs[id] == sys.emitted[id].(tenant := sys.logs[id].tenant))
    && (forall id :: id in sys.outbox && sys.outbox[id].status.Sent? ==> id in sys.logs)
  }

  lemma {:induction false} NextKeeps(sys: System, step: Step)
    requires Inv(sys)
    ensures Inv(Next(sys, step))
  {
    match step
    case MoveLogs(user, from, to) => MoveKeeps(sys, user, from, to);
    case Deliver(id, worker) => DeliverKeeps(sys, id, worker);
    case _ =>
  }

  lemma {:induction false} DeliverKeeps(sys: System, id: Id, worker: Worker)
    requires Inv(sys)
    ensures Inv(Next(sys, Deliver(id, worker)))
  {
  }

  lemma {:induction false} MoveKeeps(sys: System, user: nat, from: nat, to: nat)
    requires Inv(sys)
    ensures Inv(Next(sys, MoveLogs(user, from, to)))
  {
  }

  lemma {:induction false} RunKeeps(sys: System, steps: seq<Step>)
    requires Inv(sys)
    ensures Inv(Run(sys, steps))
    decreases |steps|
  {
    if steps != [] {
      NextKeeps(sys, steps[0]);
      RunKeeps(Next(sys, steps[0]), steps[1..]);
    }
  }

  /** In every state the report counts each denial once, and once more for every doubled row. */
  lemma {:induction false} CountIs(sys: System, g: Group)
    requires Inv(sys)
    ensures Count(sys, g) == |Denials(sys, g)| + |DoubledIn(sys, g)|
  {
    LoggedOrQueued(sys, g);
    SizesAddUp(Logged(sys, g), Queued(sys, g), DoubledIn(sys, g));
  }

  lemma {:induction false} SizesAddUp(logged: set<Id>, queued: set<Id>, doubled: set<Id>)
    requires doubled <= queued && logged !! queued - doubled
    ensures |logged| + |queued| == |logged + (queued - doubled)| + |doubled|
  {
    assert queued == (queued - doubled) + doubled;
  }

  lemma {:induction false} LoggedOrQueued(sys: System, g: Group)
    requires Inv(sys)
    ensures DoubledIn(sys, g) <= Queued(sys, g)
    ensures Logged(sys, g) !! Queued(sys, g) - DoubledIn(sys, g)
    ensures Logged(sys, g) + (Queued(sys, g) - DoubledIn(sys, g)) == Denials(sys, g)
  {
  }

  lemma {:induction false} CountInEveryReachableState(steps: seq<Step>, g: Group)
    ensures var sys := Run(EMPTY, steps);
            && Count(sys, g) == |Denials(sys, g)| + |DoubledIn(sys, g)|
            && (Count(sys, g) == |Denials(sys, g)| <==> DoubledIn(sys, g) == {})
  {
    RunKeeps(EMPTY, steps);
    CountIs(Run(EMPTY, steps), g);
  }

  // ----- which steps keep the count ---------------------------------------------------------------------

  predicate DeliveryStep(step: Step) {
    step.Claim? || step.Deliver? || step.Pause? || step.RecordError? || step.Reap?
  }

  /** A worker puts a row back that has been delivered since it was claimed. */
  predicate Demotes(sys: System, step: Step) {
    && (step.Pause? || step.RecordError?) && (step.worker, step.id) in sys.held
    && step.id in sys.outbox && sys.outbox[step.id].status.Sent?
  }

  /** A row that was put back is delivered again, which only restores its status. */
  predicate Redelivers(sys: System, step: Step) {
    step.Deliver? && (step.worker, step.id) in sys.held && step.id in Doubled(sys)
  }

  /** A worker delivers from memory a row that was purged undelivered: it is on record again. */
  predicate Revives(sys: System, step: Step) {
    && step.Deliver? && (step.worker, step.id) in sys.held && step.id in sys.emitted
    && step.id !in sys.outbox && step.id !in sys.logs
  }

  /**
   The exact effect of a delivery step on a group's count: putting a delivered row back adds one,
   redelivering such a row takes it away again, delivering a purged row from memory adds the one
   that was lost, and every other step leaves the count unchanged.
   */
  lemma {:induction false} DeliveryCount(sys: System, step: Step, g: Group)
    requires Inv(sys) && DeliveryStep(step)
    ensures Count(Next(sys, step), g) ==
              if step.id !in sys.emitted || !InGroup(sys.emitted[step.id], g) then Count(sys, g)
              else if Demotes(sys, step) || Revives(sys, step) then Count(sys, g) + 1
              else if Redelivers(sys, step) then Count(sys, g) - 1
              else Count(sys, g)
    ensures Denials(Next(sys, step), g) ==
              if Revives(sys, step) && InGroup(sys.emitted[step.id], g) then Denials(sys, g) + {step.id} else Denials(sys, g)
  {
    NextKeeps(sys, step);
    CountIs(sys, g);
    CountIs(Next(sys, step), g);
    DenialsChange(sys, step, g);
    DoubledInChanges(sys, step, g);
  }

  lemma {:induction false} DenialsChange(sys: System, step: Step, g: Group)
    requires Inv(sys) && DeliveryStep(step)
    ensures Denials(Next(sys, step), g) ==
              if Revives(sys, step) && InGroup(sys.emitted[step.id], g) then Denials(sys, g) + {step.id} else Denials(sys, g)
    ensures Revives(sys, step) ==> step.id !in Denials(sys, g)
  {
  }

  lemma {:induction false} DoubledInChanges(sys: System, step: Step, g: Group)
    requires Inv(sys) && DeliveryStep(step)
    ensures |DoubledIn(Next(sys, step), g)| == |DoubledIn(sys, g)| +
              if step.id !in sys.emitted || !InGroup(sys.emitted[step.id], g) then 0
              else if Demotes(sys, step) then 1 else if Redelivers(sys, step) then -1 else 0
  {
    var next, x := Next(sys, step), step.id;
    DoubledChanges(sys, step);
    SameOutboxDenials(sys, step);
    if Demotes(sys, step) {
      OneMoreDoubled(sys, next, x, g);
    } else if Redelivers(sys, step) {
      OneMoreDoubled(next, sys, x, g);
    } else {
      assert DoubledIn(next, g) == DoubledIn(sys, g);
    }
  }

  lemma {:induction false} SameOutboxDenials(sys: System, step: Step)
    requires DeliveryStep(step)
    ensures var next := Next(sys, step);
            next.outbox.Keys == sys.outbox.Keys && forall id :: id in sys.outbox ==> next.outbox[id].denial == sys.outbox[id].denial
  {
  }

  lemma {:induction false} OneMoreDoubled(less: System, more: System, x: Id, g: Group)
    requires less.outbox.Keys == more.outbox.Keys
    requires forall id :: id in less.outbox ==> more.outbox[id].denial == less.outbox[id].denial
    requires Doubled(more) == Doubled(less) + {x} && x !in Doubled(less) && x in less.outbox
    ensures |DoubledIn(more, g)| == |DoubledIn(less, g)| + if InGroup(less.outbox[x].denial, g) then 1 else 0
  {
    assert DoubledIn(more, g) == DoubledIn(less, g) + if InGroup(less.outbox[x].denial, g) then {x} else {};
  }

  function GroupOf(d: Denial): Group {
    Group(d.tenant, d.claim, d.refusal, d.reason, d.at)
  }

  lemma {:induction false} DoubledChanges(sys: System, step: Step)
    requires Inv(sys) && DeliveryStep(step)
    ensures Doubled(Next(sys, step)) ==
              if Demotes(sys, step) then Doubled(sys) + {step.id}
              else if Redelivers(sys, step) then Doubled(sys) - {step.id}
              else Doubled(sys)
  {
  }

  // ----- a bootstrap migration ----------------------------------------------------------------------------

  /** The logged denials of a group that belong to a user. */
  function LoggedBy(sys: System, g: Group, user: nat): set<Id> {
    set id | id in Logged(sys, g) && sys.logs[id].user == user
  }

  lemma {:induction false} LoggedAfterMove(sys: System, user: nat, from: nat, to: nat, g: Group)
    requires from != to
    ensures var next := Next(sys, MoveLogs(user, from, to));
            && Queued(next, g) == Queued(sys, g)
            && Logged(next, g) == (
                 if g.tenant == from then Logged(sys, g) - LoggedBy(sys, g, user)
                 else if g.tenant == to then Logged(sys, g) + LoggedBy(sys, g.(tenant := from), user)
                 else Logged(sys, g))
            && (g.tenant == to ==> Logged(sys, g) !! LoggedBy(sys, g.(tenant := from), user))
            && LoggedBy(sys, g, user) <= Logged(sys, g)
  {
  }

  /**
   The exact effect of a migration on a group's count: the left tenant's group loses the user's
   logged denials, the joined tenant's group of the same claim gains them, and no other count
   changes.  Denials that are still in the outbox stay with the left tenant.
   */
  lemma {:induction false} MoveCount(sys: System, user: nat, from: nat, to: nat, g: Group)
    requires from != to
    ensures Count(Next(sys, MoveLogs(user, from, to)), g) ==
              if g.tenant == from then Count(sys, g) - |LoggedBy(sys, g, user)|
              else if g.tenant == to then Count(sys, g) + |LoggedBy(sys, g.(tenant := from), user)|
              else Count(sys, g)
  {
    LoggedAfterMove(sys, user, from, to, g);
    PartSize(Logged(sys, g), LoggedBy(sys, g, user));
  }

  lemma {:induction false} PartSize(a: set<Id>, b: set<Id>)
    ensures b <= a ==> |a - b| == |a| - |b|
  {
    if b <= a {
      assert a == (a - b) + b;
    }
  }

  /** Between them, the two tenants' groups of one claim keep their count. */
  lemma {:induction false} MoveKeepsTheSum(sys: System, user: nat, from: nat, to: nat, g: Group)
    requires from != to
    ensures var next := Next(sys, MoveLogs(user, from, to));
            Count(next, g.(tenant := from)) + Count(next, g.(tenant := to)) ==
            Count(sys, g.(tenant := from)) + Count(sys, g.(tenant := to))
  {
    MoveCount(sys, user, from, to, g.(tenant := from));
    MoveCount(sys, user, from, to, g.(tenant := to));
    assert g.(tenant := to).(tenant := from) == g.(tenant := from);
  }

  // ----- exactly when every denial is counted once --------------------------------------------------------

  ghost predicate CountedOnce(sys: System) {
    forall g :: Count(sys, g) == |Denials(sys, g)|
  }

  ghost predicate NoneDoubled(sys: System) {
    forall id :: id in Doubled(sys) ==> id in sys.emitted && !Reportable(sys.emitted[id])
  }

  /** Counts are right in every group exactly when no reportable denial is doubled. */
  lemma {:induction false} CountedOnceIff(sys: System)
    requires Inv(sys)
    ensures CountedOnce(sys) <==> NoneDoubled(sys)
  {
    if CountedOnce(sys) {
      forall id | id in Doubled(sys)
        ensures id in sys.emitted && !Reportable(sys.emitted[id])
      {
        var g := GroupOf(sys.emitted[id]);
        CountIs(sys, g);
        assert Count(sys, g) == |Denials(sys, g)|;
        assert Reportable(sys.emitted[id]) ==> id in DoubledIn(sys, g);
      }
    }
    if NoneDoubled(sys) {
      forall g
        ensures Count(sys, g) == |Denials(sys, g)|
      {
        CountIs(sys, g);
        assert DoubledIn(sys, g) == {};
      }
    }
  }

  /** The step puts back a delivered row that the report shows. */
  predicate DemotesReportable(sys: System, step: Step) {
    Demotes(sys, step) && step.id in sys.emitted && Reportable(sys.emitted[step.id])
  }

  lemma {:induction false} StepCountsOnceIff(sys: System, step: Step)
    requires Inv(sys) && NoneDoubled(sys)
    ensures NoneDoubled(Next(sys, step)) <==> !DemotesReportable(sys, step)
  {
    var next := Next(sys, step);
    if DeliveryStep(step) {
      DoubledChanges(sys, step);
      assert next.emitted == sys.emitted;
      if Demotes(sys, step) {
        assert step.id in Doubled(next);
      }
    } else {
      forall id | id in Doubled(next)
        ensures id in Doubled(sys)
      {
      }
    }
  }

  ghost predicate CountedOnceThroughout(sys: System, steps: seq<Step>)
    decreases |steps|
  {
    CountedOnce(sys) && (steps == [] || CountedOnceThroughout(Next(sys, steps[0]), steps[1..]))
  }

  ghost predicate NeverDemotes(sys: System, steps: seq<Step>)
    decreases |steps|
  {
    steps == [] || (!DemotesReportable(sys, steps[0]) && NeverDemotes(Next(sys, steps[0]), steps[1..]))
  }

  /** Over a run the report is right at every moment exactly when no step puts back a delivered, reportable row. */
  lemma {:induction false} CountedOnceThroughoutIff(sys: System, steps: seq<Step>)
    requires Inv(sys) && CountedOnce(sys)
    ensures CountedOnceThroughout(sys, steps) <==> NeverDemotes(sys, steps)
    decreases |steps|
  {
    if steps != [] {
      var next := Next(sys, steps[0]);
      NextKeeps(sys, steps[0]);
      CountedOnceIff(sys);
      CountedOnceIff(next);
      StepCountsOnceIff(sys, steps[0]);
      if CountedOnce(next) {
        CountedOnceThroughoutIff(next, steps[1..]);
      }
    }
  }

  // ----- workers that keep their lease --------------------------------------------------------------------

  /** The worker acts on a row that is still the one it claimed. */
  predicate KeepsLease(sys: System, step: Step) {
    step.Deliver? || step.Pause? || step.RecordError? ==>
      step.id in sys.outbox && sys.outbox[step.id].status.Processing? && sys.outbox[step.id].status.worker == step.worker
  }

  ghost predicate LeasesKept(sys: System, steps: seq<Step>)
    decreases |steps|
  {
    steps == [] || (KeepsLease(sys, steps[0]) && LeasesKept(Next(sys, steps[0]), steps[1..]))
  }

  /** If every worker acts within its lease, each denial is counted exactly once at every moment. */
  lemma {:induction false} LeasesCountOnce(sys: System, steps: seq<Step>)
    requires Inv(sys) && CountedOnce(sys) && LeasesKept(sys, steps)
    ensures CountedOnceThroughout(sys, steps)
  {
    LeasesNeverDemote(sys, steps);
    CountedOnceThroughoutIff(sys, steps);
  }

  lemma {:induction false} LeasesNeverDemote(sys: System, steps: seq<Step>)
    requires LeasesKept(sys, steps)
    ensures NeverDemotes(sys, steps)
    decreases |steps|
  {
    if steps != [] {
      LeasesNeverDemote(Next(sys, steps[0]), steps[1..]);
    }
  }

  /** Two workers, one slow: the reaper frees the row, the other delivers it, the slow one reports an error. */
  function SlowWorkerRun(d: Denial): seq<Step> {
    [Enqueue(7, d), Claim(7, 1, 101), Reap(7, false), Claim(7, 2, 700), Deliver(7, 2), RecordError(7, 1, false)]
  }

  lemma {:induction false} SlowWorkerEndsDoubled(d: Denial)
    ensures Run(EMPTY, SlowWorkerRun(d)) == System(map[7 := OutboxRow(d, Pending)], map[7 := d], map[7 := d], {(1, 7), (2, 7)})
  {
    var steps := SlowWorkerRun(d);
    var s1 := Next(EMPTY, steps[0]);
    var s2 := Next(s1, steps[1]);
    var s3 := Next(s2, steps[2]);
    var s4 := Next(s3, steps[3]);
    var s5 := Next(s4, steps[4]);
    assert s5 == System(map[7 := OutboxRow(d, Sent)], map[7 := d], map[7 := d], {(1, 7), (2, 7)});
    calc {
      Run(EMPTY, steps);
      Run(s1, steps[1..]);
      Run(s2, steps[1..][1..]);
      Run(s3, steps[1..][1..][1..]);
      Run(s4, steps[1..][1..][1..][1..]);
      Run(s5, steps[1..][1..][1..][1..][1..]);
      Run(Next(s5, steps[5]), []);
    }
  }

  /** One reportable denial, counted twice. */
  lemma {:induction false} SlowWorkerDoubleCounts(d: Denial)
    requires Reportable(d)
    ensures |Denials(Run(EMPTY, SlowWorkerRun(d)), GroupOf(d))| == 1
    ensures Count(Run(EMPTY, SlowWorkerRun(d)), GroupOf(d)) == 2
  {
    SlowWorkerEndsDoubled(d);
    var sys := Run(EMPTY, SlowWorkerRun(d));
    assert Denials(sys, GroupOf(d)) == {7} && DoubledIn(sys, GroupOf(d)) == {7};
    CountIs(sys, GroupOf(d));
  }

  /** What the report calls stranded is part of what it counts. */
  lemma {:induction false} UndeliveredIsCounted(sys: System, g: Group, leaseCutoff: Time)
    ensures UndeliveredCount(sys, g, leaseCutoff) <= Count(sys, g)
  {
    SubsetSize(StrandedIds(sys, g, leaseCutoff), Queued(sys, g));
  }

  lemma {:induction false} SubsetSize(a: set<Id>, b: set<Id>)
    requires a <= b
    ensures |a| <= |b|
  {
    assert b == a + (b - a);
  }

  // ----- the heading a denial is printed under --------------------------------------------------------------

  datatype Bucket = Unregistered | OtherTenant | Refused

  function BucketOf(refusal: Option<string>, reason: S.Reason): Bucket {
    if refusal.Some? then Refused
    else if reason == S.TenantClaimUnmapped then Unregistered
    else OtherTenant
  }

  /**
   The bucket of every denial a sign-in emits, from the lookup it came from: refused if the claim
   cannot be stored, another tenant's if the claim resolves, and unregistered otherwise, which
   includes a claim that is revoked or folds onto an existing tenant.
   */
  lemma {:induction false} HeadingNamesTheRemedy(p: S.Policy, st: S.State, a: S.Attempt)
    requires S.Attempted(p, st, a).1.Denied?
    ensures var r := S.Attempted(p, st, a).1;
            match a.extraction
            case Malformed(_) => BucketOf(r.refusal, r.reason) == Refused && r.claim == None
            case NoClaim => r.claim == None && r.refusal == None
            case Claimed(raw) =>
              && r.claim == Some(raw)
              && match S.ResolveByClaim(p, st.db, raw)
                 case Found(_) => BucketOf(r.refusal, r.reason) == OtherTenant
                 case Unstorable(_) => BucketOf(r.refusal, r.reason) == Refused
                 case _ => BucketOf(r.refusal, r.reason) == Unregistered
  {
    if a.extraction.Claimed? {
      S.ResolverAndCreatorAgree(p, st.db, a.extraction.value, a.newId, a.now, a.createFails);
    }
  }
}
