/**
 The tenant-claim registry and its append-only routing log.

 A command (`add`, `remove`) reads the claim's row, shows it to an operator, waits for an answer
 and then writes with a compare-and-swap; the write and its log event are one transaction.  The
 read and the write are therefore two functions here, and everything may happen between them.
 */
module ClaimRegistry {
  import opened Prelude

  type TenantId = nat
  type Claim = string
  type Time = int

  const SIGNIN_ACTOR := "signin"
  const DELETE_ACTOR := "db-delete"

  /** One row of tenant_claims; the table is keyed by its unique claim. */
  datatype Row = Row(
    id: nat,
    tenant: TenantId,
    createdBy: Option<string>,
    createdAt: Time,
    revokedAt: Option<Time>)

  datatype Operation = Register | Revoke | Unrevoke | Reassign | Deregister

  /** One row of tenant_claim_events. */
  datatype Event = Event(
    seqNo: nat,
    claim: Claim,
    operation: Operation,
    oldTenant: Option<TenantId>,
    newTenant: Option<TenantId>,
    oldRevoked: Option<Time>,
    newRevoked: Option<Time>,
    actor: string)

  /** `nextRow` stands for the generator of row identifiers, which are never reused. */
  datatype Db = Db(claims: map<Claim, Row>, events: seq<Event>, tenants: set<TenantId>, nextRow: nat)

  datatype WriteOutcome =
    | Committed
    | LostRace  // the compare-and-swap matched no row, or the claim was registered meanwhile
    | Threw     // foreign key violation: the transaction rolls back

  function Record(
    db: Db, claim: Claim, operation: Operation,
    oldTenant: Option<TenantId>, newTenant: Option<TenantId>,
    oldRevoked: Option<Time>, newRevoked: Option<Time>, actor: string): Db
  {
    db.(events := db.events + [Event(|db.events| + 1, claim, operation, oldTenant, newTenant, oldRevoked, newRevoked, actor)])
  }

  // ----- add ------------------------------------------------------------------------------------

  /** `tenant` is what the `--tenant` reference resolved to; `from` is the `--from` flag. */
  datatype AddArgs = AddArgs(tenant: Option<TenantId>, claim: Claim, actor: string, from: Option<TenantId>)

  /** What the operator is shown and asked to confirm. */
  datatype AddPlan = AddPlan(tenant: TenantId, claim: Claim, actor: string, from: Option<TenantId>, existing: Option<Row>)

  datatype AddRefusal = TenantNotFound | NothingToReassign | FromIsNotOwner | OwnedByAnother

  datatype AddRead =
    | AddRefused(why: AddRefusal)
    | AddAlreadyDone
    | AddPlanned(plan: AddPlan)

  function Lookup(claims: map<Claim, Row>, claim: Claim): Option<Row> {
    if claim in claims then Some(claims[claim]) else None
  }

  /** The read phase of `add`, up to the confirmation prompt. */
  function ReadAdd(db: Db, args: AddArgs): AddRead {
    if args.tenant.None? then AddRefused(TenantNotFound)
    else
      var tenant := args.tenant.value;
      var existing := Lookup(db.claims, args.claim);
      if args.from.Some? && existing.None? then AddRefused(NothingToReassign)
      else if args.from.Some? && args.from.value != existing.value.tenant then AddRefused(FromIsNotOwner)
      else if existing.Some? && existing.value.tenant != tenant && args.from.None? then AddRefused(OwnedByAnother)
      else if existing.Some? && existing.value.tenant == tenant && existing.value.revokedAt.None? then AddAlreadyDone
      else AddPlanned(AddPlan(tenant, args.claim, args.actor, args.from, existing))
  }

  /** The WHERE clause of add's updates: row identity, owner and revocation state as shown. */
  predicate StillAsShown(claims: map<Claim, Row>, claim: Claim, shown: Row) {
    && claim in claims
    && claims[claim].id == shown.id
    && claims[claim].tenant == shown.tenant
    && claims[claim].revokedAt == shown.revokedAt
  }

  /** The write phase of `add`, after a confirmed prompt. */
  function WriteAdd(db: Db, plan: AddPlan, now: Time): (r: (Db, WriteOutcome)) {
    match plan.existing
    case Some(shown) =>
      if !StillAsShown(db.claims, plan.claim, shown) then
        (db, LostRace)
      else if shown.tenant != plan.tenant then
        if plan.tenant !in db.tenants then
          (db, Threw)
        else
          var moved := db.claims[plan.claim].(tenant := plan.tenant, revokedAt := None);
          (Record(db.(claims := db.claims[plan.claim := moved]), plan.claim, Reassign,
                  Some(shown.tenant), Some(plan.tenant), shown.revokedAt, None, plan.actor), Committed)
      else
        var cleared := db.claims[plan.claim].(revokedAt := None);
        (Record(db.(claims := db.claims[plan.claim := cleared]), plan.claim, Unrevoke,
                Some(plan.tenant), Some(plan.tenant), shown.revokedAt, None, plan.actor), Committed)
    case None =>
      if plan.claim in db.claims then
        (db, LostRace)
      else if plan.tenant !in db.tenants then
        (db, Threw)
      else
        (Record(Insert(db, plan.claim, plan.tenant, plan.actor, now), plan.claim, Register,
                None, Some(plan.tenant), None, None, plan.actor), Committed)
  }

  function Insert(db: Db, claim: Claim, tenant: TenantId, actor: string, now: Time): Db {
    db.(claims := db.claims[claim := Row(db.nextRow, tenant, Some(actor), now, None)], nextRow := db.nextRow + 1)
  }

  // ----- remove ---------------------------------------------------------------------------------

  datatype RemoveArgs = RemoveArgs(tenant: Option<TenantId>, claim: Claim, actor: string)

  datatype RemovePlan = RemovePlan(tenant: TenantId, claim: Claim, actor: string, shown: Row)

  datatype RemoveRefusal = NoSuchTenant | NotRegistered | OwnedElsewhere

  datatype RemoveRead =
    | RemoveRefused(why: RemoveRefusal)
    | RemoveAlreadyDone
    | RemovePlanned(plan: RemovePlan)

  function ReadRemove(db: Db, args: RemoveArgs): RemoveRead {
    if args.tenant.None? then RemoveRefused(NoSuchTenant)
    else if args.claim !in db.claims then RemoveRefused(NotRegistered)
    else
      var row := db.claims[args.claim];
      if row.tenant != args.tenant.value then RemoveRefused(OwnedElsewhere)
      else if row.revokedAt.Some? then RemoveAlreadyDone
      else RemovePlanned(RemovePlan(args.tenant.value, args.claim, args.actor, row))
  }

  /** The write phase of `remove`: its WHERE names the claim, not the row that was shown. */
  function WriteRemove(db: Db, plan: RemovePlan, now: Time): (r: (Db, WriteOutcome)) {
    if plan.claim in db.claims && db.claims[plan.claim].tenant == plan.tenant && db.claims[plan.claim].revokedAt.None? then
      var revoked := db.claims[plan.claim].(revokedAt := Some(now));
      (Record(db.(claims := db.claims[plan.claim := revoked]), plan.claim, Revoke,
              Some(plan.tenant), Some(plan.tenant), None, Some(now), plan.actor), Committed)
    else
      (db, LostRace)
  }

  // ----- the other writers ----------------------------------------------------------------------

  /** Sign-in creates a tenant together with the claim that named it. */
  function RegisterAtSignIn(db: Db, claim: Claim, tenant: TenantId, now: Time): Db {
    if claim in db.claims || tenant in db.tenants then db
    else
      Record(Insert(db.(tenants := db.tenants + {tenant}), claim, tenant, SIGNIN_ACTOR, now), claim, Register,
             None, Some(tenant), None, None, SIGNIN_ACTOR)
  }

  /** Deleting a row fires the trigger that records it. */
  function DeleteRow(db: Db, claim: Claim): Db {
    if claim !in db.claims then db
    else
      var row := db.claims[claim];
      Record(db.(claims := db.claims - {claim}), claim, Deregister,
             Some(row.tenant), None, row.revokedAt, None, DELETE_ACTOR)
  }

  function DeleteRows(db: Db, order: seq<Claim>): Db
    decreases |order|
  {
    if order == [] then db else DeleteRows(DeleteRow(db, order[0]), order[1..])
  }

  /** `order` lists the claims of `tenant`, in the order the cascade visits them. */
  predicate ListsClaimsOf(claims: map<Claim, Row>, tenant: TenantId, order: seq<Claim>) {
    && (forall i, j :: 0 <= i < j < |order| ==> order[i] != order[j])
    && (forall c :: c in order ==> c in claims && claims[c].tenant == tenant)
    && (forall c :: c in claims && claims[c].tenant == tenant ==> c in order)
  }

  /** Deleting a tenant cascades to its claim rows, each of which records its own deletion. */
  function DeleteTenant(db: Db, tenant: TenantId, order: seq<Claim>): Db {
    if tenant in db.tenants && ListsClaimsOf(db.claims, tenant, order) then
      var gone := DeleteRows(db, order);
      gone.(tenants := gone.tenants - {tenant})
    else db
  }

  // ----- the table in place ---------------------------------------------------------------------

  /** The two tables as the commands update them. */
  class Registry {
    var claims: map<Claim, Row>
    var events: seq<Event>
    var tenants: set<TenantId>
    var nextRow: nat

    function Contents(): Db
      reads this
    {
      Db(claims, events, tenants, nextRow)
    }

    constructor (db: Db)
      ensures Contents() == db
    {
      claims, events, tenants, nextRow := db.claims, db.events, db.tenants, db.nextRow;
    }

    method ReadForAdd(args: AddArgs) returns (r: AddRead)
      ensures r == ReadAdd(Contents(), args)
    {
      if args.tenant.None? {
        return AddRefused(TenantNotFound);
      }
      var existing := Lookup(claims, args.claim);
      if args.from.Some? && existing.None? {
        return AddRefused(NothingToReassign);
      }
      if args.from.Some? && args.from.value != existing.value.tenant {
        return AddRefused(FromIsNotOwner);
      }
      var isReassignment := existing.Some? && existing.value.tenant != args.tenant.value;
      if isReassignment && args.from.None? {
        return AddRefused(OwnedByAnother);
      }
      if existing.Some? && !isReassignment && existing.value.revokedAt.None? {
        return AddAlreadyDone;
      }
      r := AddPlanned(AddPlan(args.tenant.value, args.claim, args.actor, args.from, existing));
    }

    /** One update or insert, then one event, in one transaction. */
    method CommitAdd(plan: AddPlan, now: Time) returns (outcome: WriteOutcome)
      modifies this
      ensures (Contents(), outcome) == WriteAdd(old(Contents()), plan, now)
    {
      if plan.existing.Some? {
        var shown := plan.existing.value;
        if !StillAsShown(claims, plan.claim, shown) {
          return LostRace;
        }
        var isReassignment := shown.tenant != plan.tenant;
        if isReassignment {
          if plan.tenant !in tenants {
            return Threw;
          }
          claims := claims[plan.claim := claims[plan.claim].(tenant := plan.tenant, revokedAt := None)];
          AppendEvent(plan.claim, Reassign, Some(shown.tenant), Some(plan.tenant), shown.revokedAt, None, plan.actor);
        } else {
          claims := claims[plan.claim := claims[plan.claim].(revokedAt := None)];
          AppendEvent(plan.claim, Unrevoke, Some(plan.tenant), Some(plan.tenant), shown.revokedAt, None, plan.actor);
        }
      } else {
        if plan.claim in claims {
          return LostRace;
        }
        if plan.tenant !in tenants {
          return Threw;
        }
        claims := claims[plan.claim := Row(nextRow, plan.tenant, Some(plan.actor), now, None)];
        nextRow := nextRow + 1;
        AppendEvent(plan.claim, Register, None, Some(plan.tenant), None, None, plan.actor);
      }
      outcome := Committed;
    }

    method ReadForRemove(args: RemoveArgs) returns (r: RemoveRead)
      ensures r == ReadRemove(Contents(), args)
    {
      if args.tenant.None? {
        return RemoveRefused(NoSuchTenant);
      }
      if args.claim !in claims {
        return RemoveRefused(NotRegistered);
      }
      var existing := claims[args.claim];
      if existing.tenant != args.tenant.value {
        return RemoveRefused(OwnedElsewhere);
      }
      if existing.revokedAt.Some? {
        return RemoveAlreadyDone;
      }
      r := RemovePlanned(RemovePlan(args.tenant.value, args.claim, args.actor, existing));
    }

    method CommitRemove(plan: RemovePlan, now: Time) returns (outcome: WriteOutcome)
      modifies this
      ensures (Contents(), outcome) == WriteRemove(old(Contents()), plan, now)
    {
      if plan.claim !in claims || claims[plan.claim].tenant != plan.tenant || claims[plan.claim].revokedAt.Some? {
        return LostRace;
      }
      claims := claims[plan.claim := claims[plan.claim].(revokedAt := Some(now))];
      AppendEvent(plan.claim, Revoke, Some(plan.tenant), Some(plan.tenant), None, Some(now), plan.actor);
      outcome := Committed;
    }

    /** The row deletion and what its trigger writes. */
    method Delete(claim: Claim)
      modifies this
      ensures Contents() == DeleteRow(old(Contents()), claim)
    {
      if claim in claims {
        var row := claims[claim];
        claims := claims - {claim};
        AppendEvent(claim, Deregister, Some(row.tenant), None, row.revokedAt, None, DELETE_ACTOR);
      }
    }

    method AppendEvent(claim: Claim, operation: Operation, oldTenant: Option<TenantId>, newTenant: Option<TenantId>,
                       oldRevoked: Option<Time>, newRevoked: Option<Time>, actor: string)
      modifies this`events
      ensures Contents() == Record(old(Contents()), claim, operation, oldTenant, newTenant, oldRevoked, newRevoked, actor)
    {
      events := events + [Event(|events| + 1, claim, operation, oldTenant, newTenant, oldRevoked, newRevoked, actor)];
    }
  }

  // ----- what the log says ----------------------------------------------------------------------

  /** Who a claim belongs to, and since when it is revoked. */
  datatype ClaimState = Absent | Owned(tenant: TenantId, revokedAt: Option<Time>)

  function View(claims: map<Claim, Row>, claim: Claim): ClaimState {
    if claim in claims then Owned(claims[claim].tenant, claims[claim].revokedAt) else Absent
  }

  function StateOf(tenant: Option<TenantId>, revoked: Option<Time>): ClaimState {
    if tenant.Some? then Owned(tenant.value, revoked) else Absent
  }

  function OldState(e: Event): ClaimState {
    StateOf(e.oldTenant, e.oldRevoked)
  }

  function NewState(e: Event): ClaimState {
    StateOf(e.newTenant, e.newRevoked)
  }

  /** The state of `claim` after the events of `log`, starting from the rows `base`. */
  function Replay(base: map<Claim, Row>, log: seq<Event>, claim: Claim): ClaimState {
    if log == [] then View(base, claim)
    else
      var last := log[|log| - 1];
      if last.claim == claim then NewState(last) else Replay(base, log[..|log| - 1], claim)
  }

  /** Every event starts from the state its predecessors left behind. */
  ghost predicate Linked(base: map<Claim, Row>, log: seq<Event>) {
    forall i :: 0 <= i < |log| ==> OldState(log[i]) == Replay(base, log[..i], log[i].claim)
  }

  /** Replaying the log gives the live rows. */
  ghost predicate LogTellsTheTables(base: map<Claim, Row>, db: Db) {
    && Linked(base, db.events)
    && forall c :: Replay(base, db.events, c) == View(db.claims, c)
  }

  ghost predicate SeqNumbersIncrease(log: seq<Event>) {
    forall i :: 0 <= i < |log| ==> log[i].seqNo == i + 1
  }

  ghost predicate NamesATenant(e: Event) {
    e.oldTenant.Some? || e.newTenant.Some?
  }

  /** Foreign key, unique row identifiers, and the log's own column constraints. */
  ghost predicate TablesOk(db: Db) {
    && (forall c :: c in db.claims ==> db.claims[c].tenant in db.tenants)
    && (forall c :: c in db.claims ==> db.claims[c].id < db.nextRow)
    && (forall c, d :: c in db.claims && d in db.claims && c != d ==> db.claims[c].id != db.claims[d].id)
    && SeqNumbersIncrease(db.events)
    && (forall i :: 0 <= i < |db.events| ==> NamesATenant(db.events[i]))
  }

  /** `after` extends `before` by one event that says exactly what changed. */
  ghost predicate OneEventStep(before: Db, after: Db) {
    && |after.events| == |before.events| + 1
    && after.events[..|before.events|] == before.events
    && var e := after.events[|before.events|];
       && e.seqNo == |after.events|
       && NamesATenant(e)
       && OldState(e) == View(before.claims, e.claim)
       && NewState(e) == View(after.claims, e.claim)
       && OldState(e) != NewState(e)
       && forall c :: c != e.claim ==> Lookup(after.claims, c) == Lookup(before.claims, c)
  }

  lemma {:induction false} OneEventKeepsLog(base: map<Claim, Row>, before: Db, after: Db)
    requires LogTellsTheTables(base, before) && OneEventStep(before, after)
    ensures LogTellsTheTables(base, after)
  {
    var n := |before.events|;
    var e := after.events[n];
    forall i | 0 <= i < |after.events|
      ensures OldState(after.events[i]) == Replay(base, after.events[..i], after.events[i].claim)
    {
      if i < n {
        assert after.events[i] == after.events[..n][i] == before.events[i];
        assert after.events[..i] == after.events[..n][..i] == before.events[..i];
      }
    }
    forall c
      ensures Replay(base, after.events, c) == View(after.claims, c)
    {
      if c != e.claim {
        assert Lookup(after.claims, c) == Lookup(before.claims, c);
        assert Replay(base, before.events, c) == View(before.claims, c);
      }
    }
  }

  /** A row keeps its identity, its registrant and its registration time. */
  predicate SameRow(a: Row, b: Row) {
    a.id == b.id && a.createdBy == b.createdBy && a.createdAt == b.createdAt
  }

  /** Rows of `after` are rows of `before` under the same claim, or were created since. */
  ghost predicate Evolves(before: Db, after: Db) {
    && before.nextRow <= after.nextRow
    && forall c :: c in after.claims ==>
         || (c in before.claims && SameRow(before.claims[c], after.claims[c]))
         || before.nextRow <= after.claims[c].id
  }

  /** What every single write does: nothing, or one step that its event describes. */
  ghost predicate Writes(before: Db, after: Db) {
    && (after == before || OneEventStep(before, after))
    && (TablesOk(before) ==> TablesOk(after))
    && Evolves(before, after)
  }

  /** What the read phase guarantees about a plan it hands out. */
  predicate PlanShape(plan: AddPlan) {
    match plan.existing
    case None => plan.from.None?
    case Some(row) =>
      && (plan.from.Some? ==> plan.from.value == row.tenant)
      && (row.tenant != plan.tenant ==> plan.from.Some?)
      && (row.tenant == plan.tenant ==> row.revokedAt.Some?)
  }

  lemma {:induction false} AddWrites(db: Db, plan: AddPlan, now: Time)
    requires PlanShape(plan)
    ensures var (after, outcome) := WriteAdd(db, plan, now);
            && Writes(db, after)
            && (outcome.Committed? <==> |after.events| == |db.events| + 1)
            && (!outcome.Committed? ==> after == db)
  {
    var (after, outcome) := WriteAdd(db, plan, now);
    if outcome.Committed? {
      AppendedIsOneEvent(db, after, plan.claim);
    }
  }

  lemma {:induction false} RemoveWrites(db: Db, plan: RemovePlan, now: Time)
    ensures var (after, outcome) := WriteRemove(db, plan, now);
            && Writes(db, after)
            && (outcome.Committed? <==> |after.events| == |db.events| + 1)
            && (!outcome.Committed? ==> after == db)
  {
    var (after, outcome) := WriteRemove(db, plan, now);
    if outcome.Committed? {
      AppendedIsOneEvent(db, after, plan.claim);
    }
  }

  lemma {:induction false} SignInWrites(db: Db, claim: Claim, tenant: TenantId, now: Time)
    ensures Writes(db, RegisterAtSignIn(db, claim, tenant, now))
  {
    var after := RegisterAtSignIn(db, claim, tenant, now);
    if after != db {
      AppendedIsOneEvent(db, after, claim);
    }
  }

  lemma {:induction false} DeleteRowWrites(db: Db, claim: Claim)
    ensures Writes(db, DeleteRow(db, claim))
  {
    var after := DeleteRow(db, claim);
    if after != db {
      AppendedIsOneEvent(db, after, claim);
    }
  }

  lemma {:induction false} AppendedIsOneEvent(before: Db, after: Db, claim: Claim)
    requires |after.events| == |before.events| + 1
    requires after.events == before.events + [after.events[|before.events|]]
    requires var e := after.events[|before.events|];
             && e.claim == claim && e.seqNo == |after.events| && NamesATenant(e)
             && OldState(e) == View(before.claims, claim)
             && NewState(e) == View(after.claims, claim)
             && OldState(e) != NewState(e)
    requires forall c :: c != claim ==> Lookup(after.claims, c) == Lookup(before.claims, c)
    ensures OneEventStep(before, after)
  {
    assert after.events[..|before.events|] == before.events;
  }
}
