/**
 Any number of operators at once: every interleaving of the read and write phases of `add` and
 `remove` with sign-in registrations, row deletions and tenant deletions.
 */
module ClaimRuns {
  import opened Prelude
  import opened ClaimRegistry

  /** A command whose operator has been shown a plan and has not answered yet. */
  datatype Pending = PendingAdd(add: AddPlan) | PendingRemove(remove: RemovePlan)

  datatype System = System(db: Db, pending: map<nat, Pending>)

  datatype Step =
    | StartAdd(op: nat, addArgs: AddArgs)
    | StartRemove(op: nat, removeArgs: RemoveArgs)
    | Confirm(op: nat, at: Time)
    | Abort(op: nat)
    | SignIn(claim: Claim, tenant: TenantId, at: Time)
    | DeleteClaim(claim: Claim)
    | DropTenant(tenant: TenantId, order: seq<Claim>)
    | NewTenant(tenant: TenantId)

  function Write(db: Db, p: Pending, now: Time): (Db, WriteOutcome) {
    match p
    case PendingAdd(plan) => WriteAdd(db, plan, now)
    case PendingRemove(plan) => WriteRemove(db, plan, now)
  }

  function Next(sys: System, step: Step): System {
    match step
    case StartAdd(op, args) =>
      var r := ReadAdd(sys.db, args);
      if op !in sys.pending && r.AddPlanned? then sys.(pending := sys.pending[op := PendingAdd(r.plan)]) else sys
    case StartRemove(op, args) =>
      var r := ReadRemove(sys.db, args);
      if op !in sys.pending && r.RemovePlanned? then sys.(pending := sys.pending[op := PendingRemove(r.plan)]) else sys
    case Confirm(op, now) =>
      if op in sys.pending then System(Write(sys.db, sys.pending[op], now).0, sys.pending - {op}) else sys
    case Abort(op) => sys.(pending := sys.pending - {op})
    case SignIn(claim, tenant, now) => sys.(db := RegisterAtSignIn(sys.db, claim, tenant, now))
    case DeleteClaim(claim) => sys.(db := DeleteRow(sys.db, claim))
    case DropTenant(tenant, order) => sys.(db := DeleteTenant(sys.db, tenant, order))
    case NewTenant(tenant) => sys.(db := sys.db.(tenants := sys.db.tenants + {tenant}))
  }

  function Run(sys: System, steps: seq<Step>): System
    decreases |steps|
  {
    if steps == [] then sys else Run(Next(sys, steps[0]), steps[1..])
  }

  ghost predicate PendingOk(pending: map<nat, Pending>) {
    forall op :: op in pending ==> PlanOk(pending[op])
  }

  predicate PlanOk(p: Pending) {
    match p
    case PendingAdd(plan) => PlanShape(plan)
    case PendingRemove(plan) => plan.shown.tenant == plan.tenant && plan.shown.revokedAt.None?
  }

  ghost predicate Inv(base: map<Claim, Row>, sys: System) {
    && TablesOk(sys.db)
    && LogTellsTheTables(base, sys.db)
    && PendingOk(sys.pending)
  }

  // ----- the log replays to the tables ------------------------------------------------------------

  lemma {:induction false} WritesKeepsLog(base: map<Claim, Row>, before: Db, after: Db)
    requires Writes(before, after) && TablesOk(before) && LogTellsTheTables(base, before)
    ensures TablesOk(after) && LogTellsTheTables(base, after)
    ensures before.events <= after.events
  {
    if after != before {
      OneEventKeepsLog(base, before, after);
    }
  }

  lemma {:induction false} DeleteRowsKeeps(base: map<Claim, Row>, db: Db, order: seq<Claim>)
    requires TablesOk(db) && LogTellsTheTables(base, db)
    ensures var after := DeleteRows(db, order);
            && TablesOk(after) && LogTellsTheTables(base, after)
            && db.events <= after.events
            && Evolves(db, after)
            && after.tenants == db.tenants && after.nextRow == db.nextRow
            && forall c :: Lookup(after.claims, c) == if c in order then None else Lookup(db.claims, c)
    decreases |order|
  {
    if order != [] {
      var mid := DeleteRow(db, order[0]);
      DeleteRowWrites(db, order[0]);
      WritesKeepsLog(base, db, mid);
      DeleteRowsKeeps(base, mid, order[1..]);
      var after := DeleteRows(db, order);
      forall c
        ensures Lookup(after.claims, c) == if c in order then None else Lookup(db.claims, c)
      {
        assert c in order <==> c == order[0] || c in order[1..];
        assert Lookup(mid.claims, c) == if c == order[0] then None else Lookup(db.claims, c);
      }
      EvolvesTransitive(db, mid, after);
    }
  }

  lemma {:induction false} EvolvesTransitive(a: Db, b: Db, c: Db)
    requires Evolves(a, b) && Evolves(b, c) && TablesOk(a)
    ensures Evolves(a, c)
  {
  }

  lemma {:induction false} DropTenantKeeps(base: map<Claim, Row>, db: Db, tenant: TenantId, order: seq<Claim>)
    requires TablesOk(db) && LogTellsTheTables(base, db)
    ensures var after := DeleteTenant(db, tenant, order);
            && TablesOk(after) && LogTellsTheTables(base, after)
            && db.events <= after.events && Evolves(db, after)
  {
    if tenant in db.tenants && ListsClaimsOf(db.claims, tenant, order) {
      DeleteRowsKeeps(base, db, order);
      var gone := DeleteRows(db, order);
      forall c | c in gone.claims
        ensures gone.claims[c].tenant != tenant
      {
        assert Lookup(gone.claims, c).Some?;
        assert c !in order;
      }
    }
  }

  lemma {:induction false} NextKeepsTables(base: map<Claim, Row>, sys: System, step: Step)
    requires Inv(base, sys)
    ensures var after := Next(sys, step).db;
            TablesOk(after) && LogTellsTheTables(base, after) && sys.db.events <= after.events && Evolves(sys.db, after)
  {
    match step
    case Confirm(op, now) =>
      if op in sys.pending {
        ConfirmKeeps(base, sys.db, sys.pending[op], now);
      }
    case SignIn(claim, tenant, now) =>
      SignInWrites(sys.db, claim, tenant, now);
      WritesKeepsLog(base, sys.db, RegisterAtSignIn(sys.db, claim, tenant, now));
    case DeleteClaim(claim) =>
      DeleteRowWrites(sys.db, claim);
      WritesKeepsLog(base, sys.db, DeleteRow(sys.db, claim));
    case DropTenant(tenant, order) =>
      DropTenantKeeps(base, sys.db, tenant, order);
    case _ =>
  }

  lemma {:induction false} StartedPlansAreOk(sys: System, step: Step)
    requires PendingOk(sys.pending)
    ensures PendingOk(Next(sys, step).pending)
  {
  }

  lemma {:induction false} NextKeeps(base: map<Claim, Row>, sys: System, step: Step)
    requires Inv(base, sys)
    ensures Inv(base, Next(sys, step))
    ensures sys.db.events <= Next(sys, step).db.events
    ensures Evolves(sys.db, Next(sys, step).db)
  {
    NextKeepsTables(base, sys, step);
    StartedPlansAreOk(sys, step);
  }

  lemma {:induction false} ConfirmKeeps(base: map<Claim, Row>, db: Db, p: Pending, now: Time)
    requires PlanOk(p) && TablesOk(db) && LogTellsTheTables(base, db)
    ensures var after := Write(db, p, now).0;
            TablesOk(after) && LogTellsTheTables(base, after) && db.events <= after.events && Evolves(db, after)
  {
    WriteIsOneEvent(db, p, now);
    WritesKeepsLog(base, db, Write(db, p, now).0);
  }

  lemma {:induction false} WriteIsOneEvent(db: Db, p: Pending, now: Time)
    requires PlanOk(p)
    ensures var (after, outcome) := Write(db, p, now);
            && Writes(db, after)
            && (outcome.Committed? <==> |after.events| == |db.events| + 1)
            && (!outcome.Committed? ==> after == db)
  {
    match p
    case PendingAdd(plan) => AddWrites(db, plan, now);
    case PendingRemove(plan) => RemoveWrites(db, plan, now);
  }

  lemma {:induction false} RunKeeps(base: map<Claim, Row>, sys: System, steps: seq<Step>)
    requires Inv(base, sys)
    ensures Inv(base, Run(sys, steps))
    ensures sys.db.events <= Run(sys, steps).db.events
    ensures Evolves(sys.db, Run(sys, steps).db)
    decreases |steps|
  {
    if steps != [] {
      var next := Next(sys, steps[0]);
      NextKeeps(base, sys, steps[0]);
      RunKeeps(base, next, steps[1..]);
      EvolvesTransitive(sys.db, next.db, Run(next, steps[1..]).db);
    }
  }

  /** The state of a system that has rows (a backfill wrote them) and no events yet. */
  function Opening(rows: map<Claim, Row>, tenants: set<TenantId>, nextRow: nat): System {
    System(Db(rows, [], tenants, nextRow), map[])
  }

  /**
   Under every interleaving the log replays, from the rows it opened with, to exactly the live
   rows, and every event starts in the state its predecessor on the same claim ended in.
   */
  lemma {:induction false} LogReplaysToTables(rows: map<Claim, Row>, tenants: set<TenantId>, nextRow: nat, steps: seq<Step>)
    requires TablesOk(Opening(rows, tenants, nextRow).db)
    ensures var db := Run(Opening(rows, tenants, nextRow), steps).db;
            && TablesOk(db)
            && (forall c :: Replay(rows, db.events, c) == View(db.claims, c))
            && (forall i, j :: 0 <= i < j < |db.events| && NextOnClaim(db.events, i, j) ==> NewState(db.events[i]) == OldState(db.events[j]))
  {
    var sys := Opening(rows, tenants, nextRow);
    RunKeeps(rows, sys, steps);
    var log := Run(sys, steps).db.events;
    forall i, j | 0 <= i < j < |log| && NextOnClaim(log, i, j)
      ensures NewState(log[i]) == OldState(log[j])
    {
      ReplaySkips(rows, log, i, j);
    }
  }

  /** Events i and j are on one claim, with none on that claim between them. */
  ghost predicate NextOnClaim(log: seq<Event>, i: nat, j: nat)
    requires i < j < |log|
  {
    log[i].claim == log[j].claim && forall k :: i < k < j ==> log[k].claim != log[i].claim
  }

  lemma {:induction false} ReplaySkips(base: map<Claim, Row>, log: seq<Event>, i: nat, j: nat)
    requires i < j <= |log|
    requires forall k :: i < k < j ==> log[k].claim != log[i].claim
    ensures Replay(base, log[..j], log[i].claim) == NewState(log[i])
    decreases j
  {
    var prefix := log[..j];
    assert prefix[..j - 1] == log[..j - 1];
    if j > i + 1 {
      ReplaySkips(base, log, i, j - 1);
    }
  }

  /** The log is history: any earlier state of the tables is the replay of a prefix of today's log. */
  lemma {:induction false} PastIsReplayed(rows: map<Claim, Row>, tenants: set<TenantId>, nextRow: nat, earlier: seq<Step>, later: seq<Step>)
    requires TablesOk(Opening(rows, tenants, nextRow).db)
    ensures var past := Run(Opening(rows, tenants, nextRow), earlier).db;
            var present := Run(Opening(rows, tenants, nextRow), earlier + later).db;
            && past.events <= present.events
            && forall c :: View(past.claims, c) == Replay(rows, present.events[..|past.events|], c)
  {
    var sys := Opening(rows, tenants, nextRow);
    var past := Run(sys, earlier);
    RunConcat(sys, earlier, later);
    RunKeeps(rows, sys, earlier);
    PrefixOfLater(rows, past, later);
    assert Run(past, later).db.events[..|past.db.events|] == past.db.events;
  }

  lemma {:induction false} PrefixOfLater(rows: map<Claim, Row>, sys: System, later: seq<Step>)
    requires Inv(rows, sys)
    ensures sys.db.events <= Run(sys, later).db.events
  {
    RunKeeps(rows, sys, later);
  }

  lemma {:induction false} RunConcat(sys: System, a: seq<Step>, b: seq<Step>)
    ensures Run(sys, a + b) == Run(Run(sys, a), b)
    decreases |a|
  {
    if a == [] {
      assert a + b == b;
    } else {
      assert (a + b)[1..] == a[1..] + b;
      RunConcat(Next(sys, a[0]), a[1..], b);
    }
  }

  // ----- every run is a serial run of its successful commands ---------------------------------------

  /** A command that reads and writes with nothing in between, or a write that is atomic anyway. */
  datatype Atomic =
    | WholeAdd(args: AddArgs, at: Time)
    | WholeRemove(removeArgs: RemoveArgs, at: Time)
    | Other(step: Step)

  function Execute(db: Db, a: Atomic): Db {
    match a
    case WholeAdd(args, now) =>
      var r := ReadAdd(db, args);
      if r.AddPlanned? then WriteAdd(db, r.plan, now).0 else db
    case WholeRemove(args, now) =>
      var r := ReadRemove(db, args);
      if r.RemovePlanned? then WriteRemove(db, r.plan, now).0 else db
    case Other(step) => Next(System(db, map[]), step).db
  }

  function ExecuteAll(db: Db, commands: seq<Atomic>): Db
    decreases |commands|
  {
    if commands == [] then db else ExecuteAll(Execute(db, commands[0]), commands[1..])
  }

  function AsCommand(p: Pending, now: Time): Atomic {
    match p
    case PendingAdd(plan) => WholeAdd(AddArgs(Some(plan.tenant), plan.claim, plan.actor, plan.from), now)
    case PendingRemove(plan) => WholeRemove(RemoveArgs(Some(plan.tenant), plan.claim, plan.actor), now)
  }

  /** The command that a step completes: reads, aborts and lost races complete none. */
  function Completes(sys: System, step: Step): seq<Atomic> {
    match step
    case StartAdd(_, _) => []
    case StartRemove(_, _) => []
    case Abort(_) => []
    case Confirm(op, now) =>
      if op in sys.pending && Write(sys.db, sys.pending[op], now).1.Committed? then [AsCommand(sys.pending[op], now)] else []
    case SignIn(_, _, _) => [Other(step)]
    case DeleteClaim(_) => [Other(step)]
    case DropTenant(_, _) => [Other(step)]
    case NewTenant(_) => [Other(step)]
  }

  /** The successful commands of a run, in the order of their writes. */
  function Successes(sys: System, steps: seq<Step>): seq<Atomic>
    decreases |steps|
  {
    if steps == [] then [] else Completes(sys, steps[0]) + Successes(Next(sys, steps[0]), steps[1..])
  }

  /** A write that succeeds does what the whole command would do if it ran at this very moment. */
  lemma {:induction false} CommittedWriteIsAtomic(db: Db, p: Pending, now: Time)
    requires PlanOk(p)
    requires Write(db, p, now).1.Committed?
    ensures Execute(db, AsCommand(p, now)) == Write(db, p, now).0
  {
  }

  /**
   The interleaved run leaves the tables, and the log, exactly as the successful commands alone
   would, each executed from start to end in the order in which they wrote.
   */
  lemma {:induction false} RunIsSerial(sys: System, steps: seq<Step>)
    requires PendingOk(sys.pending)
    ensures Run(sys, steps).db == ExecuteAll(sys.db, Successes(sys, steps))
    decreases |steps|
  {
    if steps != [] {
      var next := Next(sys, steps[0]);
      StartedPlansAreOk(sys, steps[0]);
      RunIsSerial(next, steps[1..]);
      var done := Completes(sys, steps[0]);
      assert ExecuteAll(sys.db, done) == next.db by {
        if steps[0].Confirm? && steps[0].op in sys.pending {
          var p := sys.pending[steps[0].op];
          WriteIsOneEvent(sys.db, p, steps[0].at);
          if Write(sys.db, p, steps[0].at).1.Committed? {
            CommittedWriteIsAtomic(sys.db, p, steps[0].at);
          }
        }
      }
      ExecuteConcat(sys.db, done, Successes(next, steps[1..]));
    }
  }

  lemma {:induction false} ExecuteConcat(db: Db, a: seq<Atomic>, b: seq<Atomic>)
    ensures ExecuteAll(db, a + b) == ExecuteAll(ExecuteAll(db, a), b)
    decreases |a|
  {
    if a == [] {
      assert a + b == b;
    } else {
      assert (a + b)[1..] == a[1..] + b;
      ExecuteConcat(Execute(db, a[0]), a[1..], b);
    }
  }

  // ----- what an operator's answer acts on ------------------------------------------------------------

  function ClaimOf(p: Pending): Claim {
    match p
    case PendingAdd(plan) => plan.claim
    case PendingRemove(plan) => plan.claim
  }

  /** The owner and revocation state the operator was shown. */
  function Shown(p: Pending): ClaimState {
    match p
    case PendingAdd(plan) =>
      (match plan.existing
       case None => Absent
       case Some(row) => Owned(row.tenant, row.revokedAt))
    case PendingRemove(plan) => Owned(plan.shown.tenant, plan.shown.revokedAt)
  }

  /**
   A confirmed command succeeds only on the state its operator was shown, and its event says so;
   a command that does not succeed changes neither table.
   */
  lemma {:induction false} ConfirmActsOnWhatWasShown(sys: System, op: nat, now: Time)
    requires PendingOk(sys.pending) && op in sys.pending
    ensures var p := sys.pending[op];
            var after := Next(sys, Confirm(op, now)).db;
            if Write(sys.db, p, now).1.Committed? then
              && View(sys.db.claims, ClaimOf(p)) == Shown(p)
              && |after.events| == |sys.db.events| + 1
              && after.events[|sys.db.events|].claim == ClaimOf(p)
              && OldState(after.events[|sys.db.events|]) == Shown(p)
            else
              after == sys.db
  {
    WriteIsOneEvent(sys.db, sys.pending[op], now);
  }

  /**
   A run in which no command succeeds and no other writer is at work leaves both tables alone,
   however many commands were started, refused, aborted or confirmed and lost their race.
   */
  lemma {:induction false} OnlyConfirmedCommandsWrite(sys: System, steps: seq<Step>)
    requires PendingOk(sys.pending) && Successes(sys, steps) == []
    ensures Run(sys, steps).db == sys.db
  {
    RunIsSerial(sys, steps);
  }

  // ----- what a run may do to a row ---------------------------------------------------------------------

  /** A confirmed `add` for `claim` that named `owner` as the tenant to take it from. */
  ghost predicate ReassignsFrom(sys: System, step: Step, claim: Claim, owner: TenantId) {
    && step.Confirm? && step.op in sys.pending
    && sys.pending[step.op].PendingAdd?
    && sys.pending[step.op].add.claim == claim
    && sys.pending[step.op].add.from == Some(owner)
  }

  ghost predicate Deletes(sys: System, step: Step, claim: Claim) {
    && claim in sys.db.claims
    && claim !in Next(sys, step).db.claims
  }

  ghost predicate Revokes(sys: System, step: Step, claim: Claim) {
    && step.Confirm? && step.op in sys.pending
    && sys.pending[step.op].PendingRemove?
    && sys.pending[step.op].remove.claim == claim
  }

  predicate Resolves(claims: map<Claim, Row>, claim: Claim) {
    claim in claims && claims[claim].revokedAt.None?
  }

  /** A row that stays in the table changes owner only when the operator named the losing tenant. */
  lemma {:induction false} OwnerChangeNamesTheLoser(sys: System, step: Step, claim: Claim)
    requires PendingOk(sys.pending) && TablesOk(sys.db)
    requires claim in sys.db.claims && claim in Next(sys, step).db.claims
    requires sys.db.claims[claim].tenant != Next(sys, step).db.claims[claim].tenant
    ensures ReassignsFrom(sys, step, claim, sys.db.claims[claim].tenant)
    ensures Resolves(Next(sys, step).db.claims, claim)
  {
    if step.DropTenant? {
      DropTenantOnlyDeletes(sys.db, step.tenant, step.order);
    }
  }

  /** An active claim stops resolving only through a confirmed `remove` or a deletion of its row. */
  lemma {:induction false} ActiveClaimStaysResolved(sys: System, step: Step, claim: Claim)
    requires PendingOk(sys.pending) && TablesOk(sys.db)
    requires Resolves(sys.db.claims, claim) && !Resolves(Next(sys, step).db.claims, claim)
    ensures Revokes(sys, step, claim) || (Deletes(sys, step, claim) && (step.DeleteClaim? || step.DropTenant?))
  {
    if step.DropTenant? {
      DropTenantOnlyDeletes(sys.db, step.tenant, step.order);
    }
  }

  lemma {:induction false} DropTenantOnlyDeletes(db: Db, tenant: TenantId, order: seq<Claim>)
    requires TablesOk(db)
    ensures forall c :: c in DeleteTenant(db, tenant, order).claims ==>
              c in db.claims && DeleteTenant(db, tenant, order).claims[c] == db.claims[c]
  {
    if tenant in db.tenants && ListsClaimsOf(db.claims, tenant, order) {
      DeleteRowsOnlyDeletes(db, order);
    }
  }

  lemma {:induction false} DeleteRowsOnlyDeletes(db: Db, order: seq<Claim>)
    ensures forall c :: c in DeleteRows(db, order).claims ==>
              c in db.claims && DeleteRows(db, order).claims[c] == db.claims[c]
    decreases |order|
  {
    if order != [] {
      DeleteRowsOnlyDeletes(DeleteRow(db, order[0]), order[1..]);
    }
  }

  /**
   Over any run a row that is still there, recognised by its identifier, is under the same claim
   with the same registrant and registration time.
   */
  lemma {:induction false} ProvenanceIsKept(rows: map<Claim, Row>, sys: System, steps: seq<Step>, claim: Claim, later: Claim)
    requires Inv(rows, sys)
    requires claim in sys.db.claims && later in Run(sys, steps).db.claims
    requires sys.db.claims[claim].id == Run(sys, steps).db.claims[later].id
    ensures later == claim
    ensures SameRow(sys.db.claims[claim], Run(sys, steps).db.claims[later])
  {
    RunKeeps(rows, sys, steps);
  }

  // ----- repeating a command ------------------------------------------------------------------------------

  /**
   Repeating a completed `add` plans nothing, so it adds no event; it reports success unless the
   flag `--from` still names the tenant that has just lost the claim.
   */
  lemma {:induction false} RepeatedAddWritesNothing(db: Db, args: AddArgs, now: Time)
    requires ReadAdd(db, args).AddPlanned? && WriteAdd(db, ReadAdd(db, args).plan, now).1.Committed?
    ensures var after := WriteAdd(db, ReadAdd(db, args).plan, now).0;
            var again := ReadAdd(after, args);
            && !again.AddPlanned?
            && (again.AddAlreadyDone? <==> args.from.None? || args.from == args.tenant)
            && (!again.AddAlreadyDone? ==> again == AddRefused(FromIsNotOwner))
            && Execute(after, WholeAdd(args, now)) == after
  {
  }

  /** Moving a claim twice with the same command line: the second call is refused. */
  lemma {:induction false} RepeatedReassignmentIsRefused()
    ensures var db := Db(map["a.example" := Row(0, 7, None, 100, None)], [], {7, 8}, 1);
            var args := AddArgs(Some(8), "a.example", "ops", Some(7));
            && ReadAdd(db, args).AddPlanned?
            && var (after, outcome) := WriteAdd(db, ReadAdd(db, args).plan, 200);
               outcome.Committed? && ReadAdd(after, args) == AddRefused(FromIsNotOwner)
  {
  }

  lemma {:induction false} RepeatedRemoveWritesNothing(db: Db, args: RemoveArgs, now: Time)
    requires ReadRemove(db, args).RemovePlanned?
    ensures var (after, outcome) := WriteRemove(db, ReadRemove(db, args).plan, now);
            && outcome.Committed?
            && ReadRemove(after, args).RemoveAlreadyDone?
            && Execute(after, WholeRemove(args, now)) == after
  {
  }

  // ----- which row a command acts on ----------------------------------------------------------------------

  /** A successful `add` on an existing row acts on the very row that was shown. */
  lemma {:induction false} AddActsOnTheRowShown(db: Db, plan: AddPlan, now: Time)
    requires plan.existing.Some? && WriteAdd(db, plan, now).1.Committed?
    ensures plan.claim in db.claims && db.claims[plan.claim].id == plan.existing.value.id
    ensures WriteAdd(db, plan, now).0.claims[plan.claim].id == plan.existing.value.id
  {
  }

  /** The row under `claim` was deleted at some step of the run. */
  ghost predicate DeletedDuring(sys: System, steps: seq<Step>, claim: Claim)
    decreases |steps|
  {
    steps != [] && (Deletes(sys, steps[0], claim) || DeletedDuring(Next(sys, steps[0]), steps[1..], claim))
  }

  lemma {:induction false} RowIsKeptUnlessDeleted(rows: map<Claim, Row>, sys: System, steps: seq<Step>, claim: Claim)
    requires Inv(rows, sys) && claim in sys.db.claims
    ensures DeletedDuring(sys, steps, claim) <==>
              !(claim in Run(sys, steps).db.claims && Run(sys, steps).db.claims[claim].id == sys.db.claims[claim].id)
    decreases |steps|
  {
    if steps != [] {
      var next := Next(sys, steps[0]);
      NextKeeps(rows, sys, steps[0]);
      if Deletes(sys, steps[0], claim) {
        DeletedRowNeverReturns(rows, sys, next, steps[1..], claim);
      } else {
        RowSurvivesStep(sys, steps[0], claim);
        RowIsKeptUnlessDeleted(rows, next, steps[1..], claim);
      }
    }
  }

  lemma {:induction false} RowSurvivesStep(sys: System, step: Step, claim: Claim)
    requires TablesOk(sys.db) && claim in sys.db.claims && claim in Next(sys, step).db.claims
    ensures Next(sys, step).db.claims[claim].id == sys.db.claims[claim].id
  {
    if step.DropTenant? {
      DropTenantOnlyDeletes(sys.db, step.tenant, step.order);
    }
  }

  lemma {:induction false} DeletedRowNeverReturns(rows: map<Claim, Row>, before: System, gone: System, steps: seq<Step>, claim: Claim)
    requires Inv(rows, gone) && TablesOk(before.db) && before.db.nextRow <= gone.db.nextRow
    requires claim in before.db.claims && claim !in gone.db.claims
    ensures claim in Run(gone, steps).db.claims ==> Run(gone, steps).db.claims[claim].id != before.db.claims[claim].id
  {
    RunKeeps(rows, gone, steps);
  }

  /**
   `remove` matches its row by claim, so a success acts on the row the operator was shown exactly
   when that row was not deleted, and the claim registered anew, while the prompt was open.
   */
  lemma {:induction false} RemoveActsOnTheRowShown(rows: map<Claim, Row>, sys: System, args: RemoveArgs, steps: seq<Step>, now: Time)
    requires Inv(rows, sys) && ReadRemove(sys.db, args).RemovePlanned?
    requires WriteRemove(Run(sys, steps).db, ReadRemove(sys.db, args).plan, now).1.Committed?
    ensures Run(sys, steps).db.claims[args.claim].id == ReadRemove(sys.db, args).plan.shown.id
            <==> !DeletedDuring(sys, steps, args.claim)
  {
    RowIsKeptUnlessDeleted(rows, sys, steps, args.claim);
  }

  /** A run in which a confirmed `remove` revokes a row its operator never saw. */
  lemma {:induction false} RemoveCanHitANewRow()
    ensures var shown := Row(0, 7, None, 100, None);
            var sys := Opening(map["a.example" := shown], {7}, 1);
            var steps := [
              StartRemove(1, RemoveArgs(Some(7), "a.example", "ops")),
              DeleteClaim("a.example"),
              StartAdd(2, AddArgs(Some(7), "a.example", "dev", None)),
              Confirm(2, 200)];
            var open := Run(sys, steps);
            && 1 in open.pending
            && open.pending[1] == PendingRemove(RemovePlan(7, "a.example", "ops", shown))
            && Write(open.db, open.pending[1], 300).1.Committed?
            && open.db.claims["a.example"].id != shown.id
  {
    var shown := Row(0, 7, None, 100, None);
    var s0 := Opening(map["a.example" := shown], {7}, 1);
    var start := StartRemove(1, RemoveArgs(Some(7), "a.example", "ops"));
    var add := StartAdd(2, AddArgs(Some(7), "a.example", "dev", None));
    var steps := [start, DeleteClaim("a.example"), add, Confirm(2, 200)];
    var s1 := Next(s0, start);
    var s2 := Next(s1, DeleteClaim("a.example"));
    var s3 := Next(s2, add);
    var s4 := Next(s3, Confirm(2, 200));
    assert steps[1..][1..][1..][1..] == [];
    calc {
      Run(s0, steps);
      Run(s1, steps[1..]);
      Run(s2, steps[1..][1..]);
      Run(s3, steps[1..][1..][1..]);
      Run(s4, []);
      s4;
    }
  }
}
