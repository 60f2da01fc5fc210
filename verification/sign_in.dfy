/**
 Sign-in: resolving an identity provider's claim to a tenant, joining it, and the one-time move of
 a bootstrap tenant's estate.  A sign-in is one transaction: it commits as a whole or not at all.
 */
module SignIn {
  import opened Prelude
  import R = ClaimRegistry

  type UserId = nat
  type TenantId = R.TenantId
  type Time = R.Time
  type Token = nat

  /** Claim normalisation, the external-id fold, and why a claim cannot be stored (None: it can). */
  datatype Policy = Policy(normalize: string -> string, fold: string -> string, refusal: string -> Option<string>)

  datatype Tenant = Tenant(bootstrap: bool, createdAt: Time)

  /** A membership row; `active` is deactivatedAt IS NULL. */
  datatype Member = Member(active: bool)

  /** The tables the bootstrap migration rewrites. */
  datatype Table =
    | Users | Accounts | PasswordEntries | Tags | Folders | Sessions | ExtensionTokens | EntryHistories
    | VaultKeys | AuditLogs | EmergencyGrants | EmergencyKeyPairs | PasswordShares | ShareAccessLogs
    | Attachments | Notifications | ApiKeys | WebAuthnCredentials

  /**
   A row of one of those tables.  `owner` is the user whose data the row is: its userId, ownerId or
   createdById column, or, in the tables without such a column, the owner of its parent row.
   `rest` stands for every other column.  A user is keyed by its id, a session by its token.
   */
  datatype Rec = Rec(owner: UserId, tenant: TenantId, rest: string)

  type Tables = map<Table, map<nat, Rec>>

  datatype Db = Db(
    registry: R.Db,
    tenants: map<TenantId, Tenant>,
    externalIds: map<string, TenantId>,
    members: map<(TenantId, UserId), Member>,
    tables: Tables)

  /** `cache` is the session cache: the tenant each cached token is served with. */
  datatype State = State(db: Db, cache: map<Token, TenantId>)

  ghost predicate Valid(db: Db) {
    && (forall t: Table :: t in db.tables)
    && db.registry.tenants == db.tenants.Keys
    && (forall x :: x in db.externalIds ==> db.externalIds[x] in db.tenants)
    && (forall c :: c in db.registry.claims ==> db.registry.claims[c].tenant in db.tenants)
    && (forall k :: k in db.members ==> k.0 in db.tenants && k.1 in db.tables[Users])
    && (forall u :: u in db.tables[Users] ==> db.tables[Users][u].owner == u)
  }

  // ----- who owns a claim ---------------------------------------------------------------------------

  datatype ClaimLookup =
    | Found(id: TenantId)
    | Revoked(tenant: TenantId)
    | Unstorable(refusal: string)
    | Collision(tenant: TenantId)
    | Unregistered

  datatype Resolution =
    | Resolved(id: TenantId)
    | ClaimTaken(tenant: TenantId)
    | ClaimCollision(tenant: TenantId)
    | ClaimInvalid(refusal: string)
    | CreateThrew

  predicate NotLater(tenants: map<TenantId, Tenant>, a: TenantId, b: TenantId)
    requires a in tenants && b in tenants
  {
    tenants[a].createdAt < tenants[b].createdAt || (tenants[a].createdAt == tenants[b].createdAt && a <= b)
  }

  ghost predicate IsOldest(tenants: map<TenantId, Tenant>, candidates: set<TenantId>, t: TenantId)
    requires candidates <= tenants.Keys
  {
    t in candidates && forall u :: u in candidates ==> NotLater(tenants, t, u)
  }

  /** ORDER BY created_at, id LIMIT 1. */
  function Oldest(tenants: map<TenantId, Tenant>, candidates: set<TenantId>): (t: TenantId)
    requires candidates != {} && candidates <= tenants.Keys
    ensures IsOldest(tenants, candidates, t)
  {
    OldestExists(tenants, candidates);
    var t :| t in candidates && forall u :: u in candidates ==> NotLater(tenants, t, u);
    t
  }

  lemma {:induction false} OldestExists(tenants: map<TenantId, Tenant>, candidates: set<TenantId>)
    requires candidates != {} && candidates <= tenants.Keys
    ensures exists t :: IsOldest(tenants, candidates, t)
    decreases |candidates|
  {
    var x :| x in candidates;
    var rest := candidates - {x};
    if rest == {} {
      assert candidates == {x};
      assert IsOldest(tenants, candidates, x);
    } else {
      OldestExists(tenants, rest);
      var t :| IsOldest(tenants, rest, t);
      var winner := if NotLater(tenants, x, t) then x else t;
      forall u | u in candidates
        ensures NotLater(tenants, winner, u)
      {
        assert u == x || u in rest;
      }
      assert IsOldest(tenants, candidates, winner);
    }
  }

  /** The tenants whose external id folds onto a claim. */
  function FoldingOnto(p: Policy, db: Db, claim: string): set<TenantId> {
    set x | x in db.externalIds && p.fold(x) == claim && db.externalIds[x] in db.tenants :: db.externalIds[x]
  }

  function ResolveByClaim(p: Policy, db: Db, raw: string): ClaimLookup {
    var claim := p.normalize(raw);
    if claim in db.registry.claims then
      var row := db.registry.claims[claim];
      if row.revokedAt.None? then Found(row.tenant) else Revoked(row.tenant)
    else if raw in db.externalIds then Found(db.externalIds[raw])
    else if p.refusal(claim).Some? then Unstorable(p.refusal(claim).value)
    else if FoldingOnto(p, db, claim) != {} then Collision(Oldest(db.tenants, FoldingOnto(p, db, claim)))
    else Unregistered
  }

  function RefusalFromLookup(lookup: ClaimLookup): Resolution
    requires !lookup.Found? && !lookup.Unregistered?
  {
    match lookup
    case Revoked(tenant) => ClaimTaken(tenant)
    case Collision(tenant) => ClaimCollision(tenant)
    case Unstorable(refusal) => ClaimInvalid(refusal)
  }

  /** `newId` is the new tenant's id; `createFails` says that both insert attempts failed. */
  function FindOrCreate(p: Policy, db: Db, raw: string, newId: TenantId, now: Time, createFails: bool): (Db, Resolution) {
    var claim := p.normalize(raw);
    if claim in db.registry.claims then
      var row := db.registry.claims[claim];
      (db, if row.revokedAt.None? then Resolved(row.tenant) else ClaimTaken(row.tenant))
    else if raw in db.externalIds then (db, Resolved(db.externalIds[raw]))
    else if p.refusal(claim).Some? then (db, ClaimInvalid(p.refusal(claim).value))
    else if FoldingOnto(p, db, claim) != {} then (db, ClaimCollision(Oldest(db.tenants, FoldingOnto(p, db, claim))))
    else if createFails || newId in db.tenants then (db, CreateThrew)
    else
      (db.(tenants := db.tenants[newId := Tenant(false, now)],
           externalIds := db.externalIds[raw := newId],
           registry := R.RegisterAtSignIn(db.registry, claim, newId, now)),
       Resolved(newId))
  }

  function ResolveTarget(p: Policy, db: Db, lookup: ClaimLookup, raw: string, newId: TenantId, now: Time, createFails: bool): (Db, Resolution) {
    match lookup
    case Found(id) => (db, Resolved(id))
    case Unregistered => FindOrCreate(p, db, raw, newId, now, createFails)
    case _ => (db, RefusalFromLookup(lookup))
  }

  // ----- membership ---------------------------------------------------------------------------------

  function ActiveTenants(members: map<(TenantId, UserId), Member>, user: UserId): set<TenantId> {
    set k | k in members && k.1 == user && members[k].active :: k.0
  }

  function ActiveMembers(members: map<(TenantId, UserId), Member>, tenant: TenantId): set<UserId> {
    set k | k in members && k.0 == tenant && members[k].active :: k.1
  }

  function TheOne(s: set<nat>): (x: nat)
    requires |s| == 1
    ensures s == {x}
  {
    SingletonOf(s);
    var x :| x in s;
    x
  }

  lemma {:induction false} SingletonOf(s: set<nat>)
    requires |s| == 1
    ensures forall x :: x in s ==> s == {x}
  {
    forall x | x in s
      ensures s == {x}
    {
      assert |s - {x}| == 0;
    }
  }

  /** upsert with `update: {}`: an existing row, active or not, is left as it is. */
  function Upsert(members: map<(TenantId, UserId), Member>, tenant: TenantId, user: UserId): map<(TenantId, UserId), Member> {
    if (tenant, user) in members then members else members[(tenant, user) := Member(true)]
  }

  // ----- the bootstrap migration ------------------------------------------------------------------------

  /** The tables the migration filters by tenant alone. */
  predicate TenantOnly(t: Table) {
    t.EntryHistories? || t.EmergencyKeyPairs? || t.ShareAccessLogs?
  }

  /** The WHERE clause of each table's update. */
  predicate Selected(t: Table, row: Rec, user: UserId, from: TenantId) {
    if t.Users? || t.Accounts? then row.owner == user
    else if TenantOnly(t) then row.tenant == from
    else row.owner == user && row.tenant == from
  }

  function Retarget(t: Table, rows: map<nat, Rec>, user: UserId, from: TenantId, to: TenantId): map<nat, Rec> {
    map k | k in rows :: if Selected(t, rows[k], user, from) then rows[k].(tenant := to) else rows[k]
  }

  function MoveEstate(tables: Tables, user: UserId, from: TenantId, to: TenantId): Tables {
    map t | t in tables :: Retarget(t, tables[t], user, from, to)
  }

  /** The migration's updates in four consecutive groups. */
  function Group(t: Table): (g: nat)
    ensures g < 4
  {
    match t
    case Users | Accounts | PasswordEntries | Tags | Folders => 0
    case Sessions | ExtensionTokens | EntryHistories | VaultKeys => 1
    case AuditLogs | EmergencyGrants | EmergencyKeyPairs | PasswordShares | ShareAccessLogs => 2
    case Attachments | Notifications | ApiKeys | WebAuthnCredentials => 3
  }

  ghost function FirstGroups(g: nat): set<Table> {
    set t: Table | Group(t) < g
  }

  function GroupAt(g: nat): set<Table> {
    if g == 0 then {Users, Accounts, PasswordEntries, Tags, Folders}
    else if g == 1 then {Sessions, ExtensionTokens, EntryHistories, VaultKeys}
    else if g == 2 then {AuditLogs, EmergencyGrants, EmergencyKeyPairs, PasswordShares, ShareAccessLogs}
    else if g == 3 then {Attachments, Notifications, ApiKeys, WebAuthnCredentials}
    else {}
  }

  lemma {:induction false} GroupInTurn(g: nat)
    requires g < 4
    ensures FirstGroups(g + 1) == FirstGroups(g) + GroupAt(g) && FirstGroups(g) !! GroupAt(g)
  {
  }

  /** The estate with only the tables `done` rewritten. */
  ghost function PartlyMoved(tables: Tables, done: set<Table>, user: UserId, from: TenantId, to: TenantId): Tables {
    map t | t in tables :: if t in done then Retarget(t, tables[t], user, from, to) else tables[t]
  }

  function MovedTokens(tables: Tables, user: UserId, from: TenantId): set<Token> {
    if Sessions !in tables then {} else set k | k in tables[Sessions] && Selected(Sessions, tables[Sessions][k], user, from)
  }

  function Migrate(db: Db, user: UserId, from: TenantId, to: TenantId): Db {
    db.(tables := MoveEstate(db.tables, user, from, to),
        members := Upsert(db.members, to, user) - {(from, user)})
  }

  // ----- the sign-in ------------------------------------------------------------------------------------

  datatype Extraction = NoClaim | Malformed(diagnosis: string) | Claimed(value: string)

  datatype Reason = TenantMismatch | TenantClaimUnmapped

  datatype Result =
    | Allowed
    | Denied(reason: Reason, tenant: Option<TenantId>, claim: Option<string>, refusal: Option<string>)
    | Threw

  /** One sign-in attempt; `lost` are the cached tokens whose tombstone write fails. */
  datatype Attempt = Attempt(
    user: UserId, extraction: Extraction, newId: TenantId, now: Time, createFails: bool, lost: set<Token>)

  /** The reason each refusal is audited with. */
  function RefusalReason(r: Resolution): Reason
    requires !r.Resolved? && !r.CreateThrew?
  {
    if r.ClaimInvalid? then TenantMismatch else TenantClaimUnmapped
  }

  function RefusalTenant(r: Resolution): Option<TenantId>
    requires !r.Resolved? && !r.CreateThrew?
  {
    match r
    case ClaimTaken(tenant) => Some(tenant)
    case ClaimCollision(tenant) => Some(tenant)
    case ClaimInvalid(_) => None
  }

  function RefusalDiagnosis(r: Resolution): Option<string>
    requires !r.Resolved? && !r.CreateThrew?
  {
    match r
    case ClaimInvalid(refusal) => Some(refusal)
    case _ => None
  }

  function OrElse(a: Option<TenantId>, b: Option<TenantId>): Option<TenantId> {
    if a.Some? then a else b
  }

  function LookupOwner(lookup: ClaimLookup): Option<TenantId> {
    if lookup.Found? || lookup.Unregistered? then None else RefusalTenant(RefusalFromLookup(lookup))
  }

  function LookupReason(lookup: ClaimLookup): Reason
    requires !lookup.Found?
  {
    if lookup.Unregistered? then TenantClaimUnmapped else RefusalReason(RefusalFromLookup(lookup))
  }

  function LookupDiagnosis(lookup: ClaimLookup): Option<string>
    requires !lookup.Found?
  {
    if lookup.Unregistered? then None else RefusalDiagnosis(RefusalFromLookup(lookup))
  }

  function Refuse(r: Resolution, raw: string, existing: Option<TenantId>): Result
    requires !r.Resolved?
  {
    if r.CreateThrew? then Threw
    else Denied(RefusalReason(r), OrElse(RefusalTenant(r), existing), Some(raw), RefusalDiagnosis(r))
  }

  /** The whole of ensureTenantMembershipForSignIn; a throw is a rollback. */
  function Attempted(p: Policy, st: State, a: Attempt): (State, Result) {
    match a.extraction
    case Claimed(raw) => WithClaim(p, st, a, raw)
    case _ => (st, WithoutClaim(st.db, a))
  }

  function WithoutClaim(db: Db, a: Attempt): Result
    requires !a.extraction.Claimed?
  {
    var diagnosis := if a.extraction.Malformed? then Some(a.extraction.diagnosis) else None;
    var tenants := ActiveTenants(db.members, a.user);
    if |tenants| > 1 then Denied(TenantMismatch, None, None, diagnosis)
    else if diagnosis.Some? then
      Denied(TenantMismatch, if tenants == {} then None else Some(TheOne(tenants)), None, diagnosis)
    else Allowed
  }

  function WithClaim(p: Policy, st: State, a: Attempt, raw: string): (State, Result) {
    var db := st.db;
    var lookup := ResolveByClaim(p, db, raw);
    var tenants := ActiveTenants(db.members, a.user);
    if |tenants| > 1 then (st, Threw)
    else if tenants == {} then
      var (db1, target) := ResolveTarget(p, db, lookup, raw, a.newId, a.now, a.createFails);
      if !target.Resolved? then (st, Refuse(target, raw, None))
      else if Users !in db.tables || a.user !in db.tables[Users] then (st, Threw)
      else (st.(db := db1.(members := Upsert(db1.members, target.id, a.user))), Allowed)
    else
      var existing := TheOne(tenants);
      if lookup == Found(existing) then (st, Allowed)
      else if existing !in db.tenants || !db.tenants[existing].bootstrap then
        (st, Denied(if lookup.Found? then TenantMismatch else LookupReason(lookup),
                    OrElse(LookupOwner(lookup), Some(existing)), Some(raw),
                    if lookup.Found? then None else LookupDiagnosis(lookup)))
      else
        var (db1, target) := ResolveTarget(p, db, lookup, raw, a.newId, a.now, a.createFails);
        if !target.Resolved? then (st, Refuse(target, raw, Some(existing)))
        else if |ActiveMembers(db1.members, existing)| > 1 || Users !in db.tables || a.user !in db.tables[Users] then (st, Threw)
        else (State(Migrate(db1, a.user, existing, target.id), st.cache - (MovedTokens(db.tables, a.user, existing) - a.lost)), Allowed)
  }

  lemma {:induction false} NothingMovedYet(start: Tables, user: UserId, from: TenantId, to: TenantId)
    ensures PartlyMoved(start, FirstGroups(0), user, from, to) == start
  {
  }

  lemma {:induction false} SessionsMoveLater(start: Tables, user: UserId, from: TenantId, to: TenantId)
    requires Sessions in start
    ensures Sessions in PartlyMoved(start, FirstGroups(1), user, from, to)
    ensures PartlyMoved(start, FirstGroups(1), user, from, to)[Sessions] == start[Sessions]
  {
  }

  lemma {:induction false} EverythingMoved(start: Tables, user: UserId, from: TenantId, to: TenantId)
    ensures PartlyMoved(start, FirstGroups(4), user, from, to) == MoveEstate(start, user, from, to)
  {
  }

  // ----- the store in place --------------------------------------------------------------------------------

  /** The database and the session cache as a sign-in updates them, statement by statement. */
  class Store {
    var registry: R.Db
    var tenants: map<TenantId, Tenant>
    var externalIds: map<string, TenantId>
    var members: map<(TenantId, UserId), Member>
    var tables: Tables
    var cache: map<Token, TenantId>

    function Contents(): State
      reads this
    {
      State(Db(registry, tenants, externalIds, members, tables), cache)
    }

    method Restore(st: State)
      modifies this
      ensures Contents() == st
    {
      registry, tenants, externalIds := st.db.registry, st.db.tenants, st.db.externalIds;
      members, tables, cache := st.db.members, st.db.tables, st.cache;
    }

    /** One updateMany; `start` are the tables the migration began with, `done` those rewritten so far. */
    method UpdateMany(t: Table, user: UserId, from: TenantId, to: TenantId, ghost start: Tables, ghost done: set<Table>)
      requires t in start && t !in done && tables == PartlyMoved(start, done, user, from, to)
      modifies this`tables
      ensures tables == PartlyMoved(start, done + {t}, user, from, to)
    {
      tables := tables[t := Retarget(t, tables[t], user, from, to)];
    }

    method MoveVault(user: UserId, from: TenantId, to: TenantId, ghost start: Tables)
      requires (forall t: Table :: t in start) && tables == PartlyMoved(start, FirstGroups(0), user, from, to)
      modifies this`tables
      ensures tables == PartlyMoved(start, FirstGroups(1), user, from, to)
    {
      ghost var done := FirstGroups(0);
      GroupInTurn(0);
      UpdateMany(Users, user, from, to, start, done);
      UpdateMany(Accounts, user, from, to, start, done + {Users});
      UpdateMany(PasswordEntries, user, from, to, start, done + {Users} + {Accounts});
      UpdateMany(Tags, user, from, to, start, done + {Users} + {Accounts} + {PasswordEntries});
      UpdateMany(Folders, user, from, to, start, done + {Users} + {Accounts} + {PasswordEntries} + {Tags});
      assert done + {Users} + {Accounts} + {PasswordEntries} + {Tags} + {Folders} == FirstGroups(1);
    }

    method MoveTokensAndKeys(user: UserId, from: TenantId, to: TenantId, ghost start: Tables)
      requires (forall t: Table :: t in start) && tables == PartlyMoved(start, FirstGroups(1), user, from, to)
      modifies this`tables
      ensures tables == PartlyMoved(start, FirstGroups(2), user, from, to)
    {
      ghost var done := FirstGroups(1);
      GroupInTurn(1);
      UpdateMany(Sessions, user, from, to, start, done);
      UpdateMany(ExtensionTokens, user, from, to, start, done + {Sessions});
      UpdateMany(EntryHistories, user, from, to, start, done + {Sessions} + {ExtensionTokens});
      UpdateMany(VaultKeys, user, from, to, start, done + {Sessions} + {ExtensionTokens} + {EntryHistories});
      assert done + {Sessions} + {ExtensionTokens} + {EntryHistories} + {VaultKeys} == FirstGroups(2);
    }

    method MoveAuditAndShares(user: UserId, from: TenantId, to: TenantId, ghost start: Tables)
      requires (forall t: Table :: t in start) && tables == PartlyMoved(start, FirstGroups(2), user, from, to)
      modifies this`tables
      ensures tables == PartlyMoved(start, FirstGroups(3), user, from, to)
    {
      ghost var done := FirstGroups(2);
      GroupInTurn(2);
      UpdateMany(AuditLogs, user, from, to, start, done);
      UpdateMany(EmergencyGrants, user, from, to, start, done + {AuditLogs});
      UpdateMany(EmergencyKeyPairs, user, from, to, start, done + {AuditLogs} + {EmergencyGrants});
      UpdateMany(PasswordShares, user, from, to, start, done + {AuditLogs} + {EmergencyGrants} + {EmergencyKeyPairs});
      UpdateMany(ShareAccessLogs, user, from, to, start, done + {AuditLogs} + {EmergencyGrants} + {EmergencyKeyPairs} + {PasswordShares});
      assert done + {AuditLogs} + {EmergencyGrants} + {EmergencyKeyPairs} + {PasswordShares} + {ShareAccessLogs} == FirstGroups(3);
    }

    method MoveCredentials(user: UserId, from: TenantId, to: TenantId, ghost start: Tables)
      requires (forall t: Table :: t in start) && tables == PartlyMoved(start, FirstGroups(3), user, from, to)
      modifies this`tables
      ensures tables == PartlyMoved(start, FirstGroups(4), user, from, to)
    {
      ghost var done := FirstGroups(3);
      GroupInTurn(3);
      UpdateMany(Attachments, user, from, to, start, done);
      UpdateMany(Notifications, user, from, to, start, done + {Attachments});
      UpdateMany(ApiKeys, user, from, to, start, done + {Attachments} + {Notifications});
      UpdateMany(WebAuthnCredentials, user, from, to, start, done + {Attachments} + {Notifications} + {ApiKeys});
      assert done + {Attachments} + {Notifications} + {ApiKeys} + {WebAuthnCredentials} == FirstGroups(4);
    }

    /** The seventeen updates and the audit-log procedure, in order; returns the captured tokens. */
    method MoveTables(user: UserId, from: TenantId, to: TenantId) returns (tokens: set<Token>)
      requires forall t: Table :: t in tables
      modifies this`tables
      ensures tables == MoveEstate(old(tables), user, from, to)
      ensures tokens == MovedTokens(old(tables), user, from)
    {
      ghost var start := tables;
      NothingMovedYet(start, user, from, to);
      MoveVault(user, from, to, start);
      SessionsMoveLater(start, user, from, to);
      tokens := set k | k in tables[Sessions] && Selected(Sessions, tables[Sessions][k], user, from);
      MoveTokensAndKeys(user, from, to, start);
      MoveAuditAndShares(user, from, to, start);
      MoveCredentials(user, from, to, start);
      EverythingMoved(start, user, from, to);
    }

    method CreateTenant(p: Policy, raw: string, newId: TenantId, now: Time, createFails: bool) returns (r: Resolution)
      modifies this
      ensures (Contents().db, r) == FindOrCreate(p, old(Contents()).db, raw, newId, now, createFails)
      ensures cache == old(cache)
    {
      var claim := p.normalize(raw);
      if claim in registry.claims {
        var row := registry.claims[claim];
        return if row.revokedAt.None? then Resolved(row.tenant) else ClaimTaken(row.tenant);
      }
      if raw in externalIds {
        return Resolved(externalIds[raw]);
      }
      if p.refusal(claim).Some? {
        return ClaimInvalid(p.refusal(claim).value);
      }
      var folding := FoldingOnto(p, Contents().db, claim);
      if folding != {} {
        return ClaimCollision(Oldest(tenants, folding));
      }
      if createFails || newId in tenants {
        return CreateThrew;
      }
      tenants := tenants[newId := Tenant(false, now)];
      externalIds := externalIds[raw := newId];
      registry := R.RegisterAtSignIn(registry, claim, newId, now);
      r := Resolved(newId);
    }

    /** ensureTenantMembershipForSignIn. */
    method EnsureMembership(p: Policy, a: Attempt) returns (result: Result)
      requires Valid(Contents().db)
      modifies this
      ensures (Contents(), result) == Attempted(p, old(Contents()), a)
    {
      if !a.extraction.Claimed? {
        return WithoutClaim(Contents().db, a);
      }
      var raw := a.extraction.value;
      var lookup := ResolveByClaim(p, Contents().db, raw);
      var mine := ActiveTenants(members, a.user);
      if |mine| > 1 {
        return Threw;
      }
      if mine == {} {
        result := Join(p, a, raw, lookup);
        return;
      }
      var existing := TheOne(mine);
      if lookup == Found(existing) {
        assert existing in mine;
        members := Upsert(members, existing, a.user);
        return Allowed;
      }
      if existing !in tenants || !tenants[existing].bootstrap {
        return Denied(if lookup.Found? then TenantMismatch else LookupReason(lookup),
                      OrElse(LookupOwner(lookup), Some(existing)), Some(raw),
                      if lookup.Found? then None else LookupDiagnosis(lookup));
      }
      result := MoveIn(p, a, raw, lookup, existing);
    }

    method Target(p: Policy, a: Attempt, raw: string, lookup: ClaimLookup) returns (r: Resolution)
      modifies this
      ensures (Contents().db, r) == ResolveTarget(p, old(Contents()).db, lookup, raw, a.newId, a.now, a.createFails)
      ensures cache == old(cache)
    {
      match lookup
      case Found(id) => r := Resolved(id);
      case Unregistered => r := CreateTenant(p, raw, a.newId, a.now, a.createFails);
      case _ => r := RefusalFromLookup(lookup);
    }

    method Join(p: Policy, a: Attempt, raw: string, lookup: ClaimLookup) returns (result: Result)
      requires Valid(Contents().db) && ActiveTenants(members, a.user) == {}
      requires a.extraction == Claimed(raw) && lookup == ResolveByClaim(p, Contents().db, raw)
      modifies this
      ensures (Contents(), result) == Attempted(p, old(Contents()), a)
    {
      var before := Contents();
      var target := Target(p, a, raw, lookup);
      if !target.Resolved? {
        return Refuse(target, raw, None);
      }
      if a.user !in tables[Users] {
        Restore(before);
        return Threw;
      }
      members := Upsert(members, target.id, a.user);
      result := Allowed;
    }

    method MoveIn(p: Policy, a: Attempt, raw: string, lookup: ClaimLookup, existing: TenantId) returns (result: Result)
      requires Valid(Contents().db) && ActiveTenants(members, a.user) == {existing} && lookup != Found(existing)
      requires a.extraction == Claimed(raw) && lookup == ResolveByClaim(p, Contents().db, raw)
      requires existing in tenants && tenants[existing].bootstrap
      modifies this
      ensures (Contents(), result) == Attempted(p, old(Contents()), a)
    {
      var before := Contents();
      assert TheOne({existing}) == existing;
      var target := Target(p, a, raw, lookup);
      if !target.Resolved? {
        return Refuse(target, raw, Some(existing));
      }
      if |ActiveMembers(members, existing)| > 1 || a.user !in tables[Users] {
        Restore(before);
        return Threw;
      }
      var tokens := MoveTables(a.user, existing, target.id);
      members := Upsert(members, target.id, a.user);
      members := members - {(existing, a.user)};
      cache := cache - (tokens - a.lost);
      result := Allowed;
    }
  }

  // ----- one adjudicator ---------------------------------------------------------------------------------------

  /** The resolver and the creator answer every claim alike, and a refusal writes nothing. */
  lemma {:induction false} ResolverAndCreatorAgree(p: Policy, db: Db, raw: string, newId: TenantId, now: Time, createFails: bool)
    ensures var lookup := ResolveByClaim(p, db, raw);
            var (after, r) := FindOrCreate(p, db, raw, newId, now, createFails);
            && (lookup.Found? ==> after == db && r == Resolved(lookup.id))
            && (!lookup.Found? && !lookup.Unregistered? ==> after == db && r == RefusalFromLookup(lookup))
            && (lookup.Unregistered? ==> r == CreateThrew || (r == Resolved(newId) && newId !in db.tenants))
            && (!r.Resolved? ==> after == db)
            && (r.Resolved? && after != db ==> ResolveByClaim(p, after, raw) == Found(newId))
  {
  }

  /** What a sign-in with a refused claim is denied with, whichever path it takes. */
  lemma {:induction false} RefusedClaimIsDenied(p: Policy, st: State, a: Attempt, raw: string)
    requires a.extraction == Claimed(raw) && |ActiveTenants(st.db.members, a.user)| <= 1
    requires var lookup := ResolveByClaim(p, st.db, raw); !lookup.Found? && !lookup.Unregistered?
    ensures var lookup := ResolveByClaim(p, st.db, raw);
            Attempted(p, st, a).1 == Denied(LookupReason(lookup), OrElse(LookupOwner(lookup), MembershipOf(st.db, a.user)), Some(raw), LookupDiagnosis(lookup))
  {
  }

  /**
   One claim, one registry: the three denial paths (no membership, a non-bootstrap tenant, a
   bootstrap tenant) audit the same reason and diagnosis, and the same tenant whenever the lookup
   knows the claim's owner.
   */
  lemma {:induction false} DenialsAgree(p: Policy, st: State, other: State, a: Attempt, b: Attempt, raw: string)
    requires a.extraction == Claimed(raw) && b.extraction == Claimed(raw)
    requires st.db.registry == other.db.registry && st.db.tenants == other.db.tenants && st.db.externalIds == other.db.externalIds
    requires |ActiveTenants(st.db.members, a.user)| <= 1 && |ActiveTenants(other.db.members, b.user)| <= 1
    requires var lookup := ResolveByClaim(p, st.db, raw); !lookup.Found? && !lookup.Unregistered?
    ensures var ra, rb := Attempted(p, st, a).1, Attempted(p, other, b).1;
            var owner := LookupOwner(ResolveByClaim(p, st.db, raw));
            && ra.Denied? && rb.Denied?
            && ra.reason == rb.reason && ra.refusal == rb.refusal && ra.claim == rb.claim == Some(raw)
            && (owner.Some? ==> ra.tenant == rb.tenant == owner)
            && (owner.None? ==> ra.tenant == MembershipOf(st.db, a.user) && rb.tenant == MembershipOf(other.db, b.user))
  {
    SameRegistrySameLookup(p, st.db, other.db, raw);
    RefusedClaimIsDenied(p, st, a, raw);
    RefusedClaimIsDenied(p, other, b, raw);
  }

  lemma {:induction false} SameRegistrySameLookup(p: Policy, db: Db, other: Db, raw: string)
    requires db.registry == other.registry && db.tenants == other.tenants && db.externalIds == other.externalIds
    ensures ResolveByClaim(p, db, raw) == ResolveByClaim(p, other, raw)
  {
    assert FoldingOnto(p, db, p.normalize(raw)) == FoldingOnto(p, other, p.normalize(raw));
  }

  function MembershipOf(db: Db, user: UserId): Option<TenantId>
    requires |ActiveTenants(db.members, user)| <= 1
  {
    var tenants := ActiveTenants(db.members, user);
    if tenants == {} then None else Some(TheOne(tenants))
  }

  // ----- runs of sign-ins -----------------------------------------------------------------------------------------

  function Run(p: Policy, st: State, attempts: seq<Attempt>): State
    decreases |attempts|
  {
    if attempts == [] then st else Run(p, Attempted(p, st, attempts[0]).0, attempts[1..])
  }

  /** A denied or throwing sign-in leaves the database and the cache as they were. */
  lemma {:induction false} OnlyAllowedWrites(p: Policy, st: State, a: Attempt)
    ensures !Attempted(p, st, a).1.Allowed? ==> Attempted(p, st, a).0 == st
  {
  }

  lemma {:induction false} ActiveMeans(members: map<(TenantId, UserId), Member>, u: UserId, t: TenantId)
    ensures t in ActiveTenants(members, u) <==> (t, u) in members && members[(t, u)].active
    ensures u in ActiveMembers(members, t) <==> (t, u) in members && members[(t, u)].active
  {
  }

  lemma {:induction false} UpsertActive(members: map<(TenantId, UserId), Member>, tenant: TenantId, user: UserId)
    ensures var after := Upsert(members, tenant, user);
            && (forall u :: u != user ==> ActiveTenants(after, u) == ActiveTenants(members, u))
            && ActiveTenants(after, user) ==
                 if (tenant, user) in members then ActiveTenants(members, user) else ActiveTenants(members, user) + {tenant}
  {
    var after := Upsert(members, tenant, user);
    forall u, t
      ensures t in ActiveTenants(after, u) <==>
                t in ActiveTenants(members, u) || (u == user && t == tenant && (tenant, user) !in members)
    {
      ActiveMeans(after, u, t);
      ActiveMeans(members, u, t);
    }
  }

  lemma {:induction false} RemoveActive(members: map<(TenantId, UserId), Member>, tenant: TenantId, user: UserId)
    ensures var after := members - {(tenant, user)};
            && (forall u :: u != user ==> ActiveTenants(after, u) == ActiveTenants(members, u))
            && ActiveTenants(after, user) == ActiveTenants(members, user) - {tenant}
  {
    var after := members - {(tenant, user)};
    forall u, t
      ensures t in ActiveTenants(after, u) <==> t in ActiveTenants(members, u) && !(u == user && t == tenant)
    {
      ActiveMeans(after, u, t);
      ActiveMeans(members, u, t);
    }
  }

  /** What an allowed sign-in with a claim did: nothing, joined a tenant, or moved an estate. */
  datatype Effect = Unchanged | Joined(tenant: TenantId) | Moved(from: TenantId, to: TenantId)

  function EffectOf(p: Policy, st: State, a: Attempt): Effect {
    if !Attempted(p, st, a).1.Allowed? || !a.extraction.Claimed? then Unchanged
    else
      var raw := a.extraction.value;
      var lookup := ResolveByClaim(p, st.db, raw);
      var target := ResolveTarget(p, st.db, lookup, raw, a.newId, a.now, a.createFails).1;
      var tenants := ActiveTenants(st.db.members, a.user);
      if tenants == {} then Joined(target.id)
      else if lookup == Found(TheOne(tenants)) then Unchanged
      else Moved(TheOne(tenants), target.id)
  }

  ghost predicate HasJoined(st: State, after: State, user: UserId, t: TenantId)
    requires Valid(st.db)
  {
    && ActiveTenants(st.db.members, user) == {}
    && after.db.members == Upsert(st.db.members, t, user)
    && after.db.tables == st.db.tables && after.cache == st.cache
    && t in after.db.tenants && user in st.db.tables[Users]
  }

  ghost predicate HasMoved(st: State, after: State, user: UserId, from: TenantId, to: TenantId, lost: set<Token>) {
    && ActiveTenants(st.db.members, user) == {from} && to != from
    && from in st.db.tenants && st.db.tenants[from].bootstrap
    && |ActiveMembers(st.db.members, from)| <= 1
    && after.db.members == Upsert(st.db.members, to, user) - {(from, user)}
    && after.db.tables == MoveEstate(st.db.tables, user, from, to)
    && after.cache == st.cache - (MovedTokens(st.db.tables, user, from) - lost)
    && to in after.db.tenants
  }

  lemma {:induction false} JoinedIs(p: Policy, st: State, a: Attempt)
    requires Valid(st.db) && EffectOf(p, st, a).Joined?
    ensures HasJoined(st, Attempted(p, st, a).0, a.user, EffectOf(p, st, a).tenant)
  {
  }

  lemma {:induction false} MovedIs(p: Policy, st: State, a: Attempt)
    requires Valid(st.db) && EffectOf(p, st, a).Moved?
    ensures HasMoved(st, Attempted(p, st, a).0, a.user, EffectOf(p, st, a).from, EffectOf(p, st, a).to, a.lost)
  {
    assert EffectOf(p, st, a).from in ActiveTenants(st.db.members, a.user);
  }

  lemma {:induction false} UnchangedIs(p: Policy, st: State, a: Attempt)
    requires EffectOf(p, st, a).Unchanged?
    ensures Attempted(p, st, a).0 == st
  {
  }

  /** The state after a sign-in, by its effect. */
  lemma {:induction false} EffectIs(p: Policy, st: State, a: Attempt)
    requires Valid(st.db)
    ensures match EffectOf(p, st, a)
            case Unchanged => Attempted(p, st, a).0 == st
            case Joined(t) => HasJoined(st, Attempted(p, st, a).0, a.user, t)
            case Moved(from, to) => HasMoved(st, Attempted(p, st, a).0, a.user, from, to, a.lost)
  {
    match EffectOf(p, st, a)
    case Unchanged => UnchangedIs(p, st, a);
    case Joined(_) => JoinedIs(p, st, a);
    case Moved(_, _) => MovedIs(p, st, a);
  }

  ghost predicate AtMostOneTenant(db: Db) {
    forall u :: |ActiveTenants(db.members, u)| <= 1
  }

  /** Every sign-in leaves each user in at most one tenant. */
  lemma {:induction false} KeepsOneTenant(p: Policy, st: State, a: Attempt)
    requires Valid(st.db) && AtMostOneTenant(st.db)
    ensures AtMostOneTenant(Attempted(p, st, a).0.db)
  {
    EffectIs(p, st, a);
    var after := Attempted(p, st, a).0.db;
    match EffectOf(p, st, a)
    case Unchanged =>
    case Joined(t) =>
      UpsertActive(st.db.members, t, a.user);
      assert ActiveTenants(after.members, a.user) <= {t};
      SmallSet(ActiveTenants(after.members, a.user), t);
    case Moved(from, to) =>
      UpsertActive(st.db.members, to, a.user);
      RemoveActive(Upsert(st.db.members, to, a.user), from, a.user);
      SmallSet(ActiveTenants(after.members, a.user), to);
  }

  lemma {:induction false} SmallSet(s: set<nat>, x: nat)
    requires s <= {x}
    ensures |s| <= 1
  {
    assert s == {} || s == {x};
  }

  /** A user leaves a tenant only by moving out of a bootstrap tenant with no other active member. */
  lemma {:induction false} LeavesOnlyABootstrapTenant(p: Policy, st: State, a: Attempt, u: UserId, t: TenantId)
    requires Valid(st.db)
    requires t in ActiveTenants(st.db.members, u) && t !in ActiveTenants(Attempted(p, st, a).0.db.members, u)
    ensures u == a.user && t in st.db.tenants && st.db.tenants[t].bootstrap
    ensures ActiveMembers(st.db.members, t) == {u}
    ensures Attempted(p, st, a).1.Allowed?
  {
    EffectIs(p, st, a);
    match EffectOf(p, st, a)
    case Unchanged =>
    case Joined(to) => UpsertActive(st.db.members, to, a.user);
    case Moved(from, to) =>
      UpsertActive(st.db.members, to, a.user);
      RemoveActive(Upsert(st.db.members, to, a.user), from, a.user);
      ActiveMeans(st.db.members, u, t);
      assert |ActiveMembers(st.db.members, t) - {u}| == 0;
  }

  /**
   After an allowed sign-in the user is an active member of the tenant the claim now resolves to,
   unless a deactivated membership was already there: the upsert does not reactivate it.
   */
  lemma {:induction false} AllowedMeansMember(p: Policy, st: State, a: Attempt)
    requires Valid(st.db) && a.extraction.Claimed? && Attempted(p, st, a).1.Allowed?
    ensures var after := Attempted(p, st, a).0.db;
            var lookup := ResolveByClaim(p, after, a.extraction.value);
            && lookup.Found?
            && ActiveTenants(after.members, a.user) ==
                 if (lookup.id, a.user) in st.db.members && !st.db.members[(lookup.id, a.user)].active then {} else {lookup.id}
  {
    var raw := a.extraction.value;
    ResolverAndCreatorAgree(p, st.db, raw, a.newId, a.now, a.createFails);
    EffectIs(p, st, a);
    var after := Attempted(p, st, a).0.db;
    var effect := EffectOf(p, st, a);
    ResolvesToTarget(p, st, a);
    match effect
    case Unchanged =>
      var t := ResolveByClaim(p, st.db, raw).id;
      ActiveMeans(st.db.members, a.user, t);
    case Joined(t) =>
      UpsertActive(st.db.members, t, a.user);
      ActiveMeans(st.db.members, a.user, t);
    case Moved(from, to) =>
      UpsertActive(st.db.members, to, a.user);
      RemoveActive(Upsert(st.db.members, to, a.user), from, a.user);
      ActiveMeans(st.db.members, a.user, to);
  }

  lemma {:induction false} ResolvesToTarget(p: Policy, st: State, a: Attempt)
    requires Valid(st.db) && a.extraction.Claimed? && Attempted(p, st, a).1.Allowed?
    ensures var lookup := ResolveByClaim(p, Attempted(p, st, a).0.db, a.extraction.value);
            match EffectOf(p, st, a)
            case Unchanged => lookup.Found? && ActiveTenants(st.db.members, a.user) == {lookup.id}
            case Joined(t) => lookup == Found(t)
            case Moved(_, to) => lookup == Found(to)
  {
    var raw := a.extraction.value;
    var lookup := ResolveByClaim(p, st.db, raw);
    var (db1, target) := ResolveTarget(p, st.db, lookup, raw, a.newId, a.now, a.createFails);
    ResolverAndCreatorAgree(p, st.db, raw, a.newId, a.now, a.createFails);
    if !EffectOf(p, st, a).Unchanged? {
      SameRegistrySameLookup(p, db1, Attempted(p, st, a).0.db, raw);
    }
  }

  ghost predicate LogOk(rows: map<R.Claim, R.Row>, registry: R.Db) {
    R.TablesOk(registry) && R.LogTellsTheTables(rows, registry)
  }

  lemma {:induction false} RegisterKeepsLog(registry: R.Db, claim: R.Claim, newId: TenantId, now: Time, rows: map<R.Claim, R.Row>)
    requires LogOk(rows, registry)
    ensures LogOk(rows, R.RegisterAtSignIn(registry, claim, newId, now))
  {
    var registered := R.RegisterAtSignIn(registry, claim, newId, now);
    R.SignInWrites(registry, claim, newId, now);
    if registered != registry {
      R.OneEventKeepsLog(rows, registry, registered);
    }
  }

  lemma {:induction false} CreatedIsValid(db: Db, raw: string, claim: R.Claim, newId: TenantId, now: Time)
    requires Valid(db) && newId !in db.tenants && claim !in db.registry.claims
    ensures Valid(db.(tenants := db.tenants[newId := Tenant(false, now)], externalIds := db.externalIds[raw := newId],
                      registry := R.RegisterAtSignIn(db.registry, claim, newId, now)))
  {
  }

  /** `after` is `db`, or `db` with a new tenant that holds the claim. */
  ghost predicate CreatedOrSame(db: Db, after: Db, raw: string, claim: R.Claim, newId: TenantId, now: Time) {
    || after == db
    || (newId !in db.tenants && claim !in db.registry.claims
        && after == db.(tenants := db.tenants[newId := Tenant(false, now)], externalIds := db.externalIds[raw := newId],
                        registry := R.RegisterAtSignIn(db.registry, claim, newId, now)))
  }

  lemma {:induction false} CreateShape(p: Policy, db: Db, raw: string, newId: TenantId, now: Time, createFails: bool)
    ensures CreatedOrSame(db, FindOrCreate(p, db, raw, newId, now, createFails).0, raw, p.normalize(raw), newId, now)
  {
  }

  lemma {:induction false} CreateKeepsValid(db: Db, after: Db, raw: string, claim: R.Claim, newId: TenantId, now: Time, rows: map<R.Claim, R.Row>)
    requires Valid(db) && LogOk(rows, db.registry) && CreatedOrSame(db, after, raw, claim, newId, now)
    ensures Valid(after) && LogOk(rows, after.registry) && after.members == db.members && after.tables == db.tables
  {
    if after != db {
      RegisterKeepsLog(db.registry, claim, newId, now, rows);
      CreatedIsValid(db, raw, claim, newId, now);
    }
  }

  lemma {:induction false} TargetKeepsValid(p: Policy, db: Db, raw: string, newId: TenantId, now: Time, createFails: bool, rows: map<R.Claim, R.Row>)
    requires Valid(db) && LogOk(rows, db.registry)
    ensures var (db1, target) := ResolveTarget(p, db, ResolveByClaim(p, db, raw), raw, newId, now, createFails);
            && Valid(db1) && LogOk(rows, db1.registry) && db1.members == db.members && db1.tables == db.tables
            && (target.Resolved? ==> target.id in db1.tenants)
  {
    CreateShape(p, db, raw, newId, now, createFails);
    CreateKeepsValid(db, FindOrCreate(p, db, raw, newId, now, createFails).0, raw, p.normalize(raw), newId, now, rows);
  }

  lemma {:induction false} UpsertKeepsValid(db: Db, t: TenantId, user: UserId)
    requires Valid(db) && t in db.tenants && user in db.tables[Users]
    ensures Valid(db.(members := Upsert(db.members, t, user)))
  {
  }

  lemma {:induction false} MigrateKeepsValid(db: Db, user: UserId, from: TenantId, to: TenantId)
    requires Valid(db) && to in db.tenants && user in db.tables[Users]
    ensures Valid(Migrate(db, user, from, to))
  {
    UpsertKeepsValid(db, to, user);
    var after := Migrate(db, user, from, to);
    EstateIsConserved(db.tables, user, from, to, Users);
    assert after.tables[Users].Keys == db.tables[Users].Keys;
  }

  /** The database after a sign-in, from the one in which its target was resolved. */
  lemma {:induction false} DbByEffect(p: Policy, st: State, a: Attempt)
    requires a.extraction.Claimed?
    ensures var raw := a.extraction.value;
            var (db1, target) := ResolveTarget(p, st.db, ResolveByClaim(p, st.db, raw), raw, a.newId, a.now, a.createFails);
            var after := Attempted(p, st, a).0.db;
            match EffectOf(p, st, a)
            case Unchanged => after == st.db
            case Joined(t) => target == Resolved(t) && a.user in st.db.tables[Users] && after == db1.(members := Upsert(db1.members, t, a.user))
            case Moved(from, to) => target == Resolved(to) && a.user in st.db.tables[Users] && after == Migrate(db1, a.user, from, to)
  {
  }

  /** Sign-ins keep the foreign keys, and the claim log keeps replaying to the claim rows. */
  lemma {:induction false} KeepsValid(p: Policy, st: State, a: Attempt, rows: map<R.Claim, R.Row>)
    requires Valid(st.db) && LogOk(rows, st.db.registry)
    ensures Valid(Attempted(p, st, a).0.db) && LogOk(rows, Attempted(p, st, a).0.db.registry)
  {
    if a.extraction.Claimed? {
      var raw := a.extraction.value;
      DbByEffect(p, st, a);
      TargetKeepsValid(p, st.db, raw, a.newId, a.now, a.createFails, rows);
      var db1 := ResolveTarget(p, st.db, ResolveByClaim(p, st.db, raw), raw, a.newId, a.now, a.createFails).0;
      match EffectOf(p, st, a)
      case Unchanged =>
      case Joined(t) => UpsertKeepsValid(db1, t, a.user);
      case Moved(from, to) => MigrateKeepsValid(db1, a.user, from, to);
    }
  }

  lemma {:induction false} RunKeeps(p: Policy, st: State, attempts: seq<Attempt>, rows: map<R.Claim, R.Row>)
    requires Valid(st.db) && AtMostOneTenant(st.db) && LogOk(rows, st.db.registry)
    ensures var after := Run(p, st, attempts).db;
            Valid(after) && AtMostOneTenant(after) && LogOk(rows, after.registry)
    decreases |attempts|
  {
    if attempts != [] {
      KeepsOneTenant(p, st, attempts[0]);
      KeepsValid(p, st, attempts[0], rows);
      RunKeeps(p, Attempted(p, st, attempts[0]).0, attempts[1..], rows);
    }
  }

  // ----- the estate ------------------------------------------------------------------------------------------------

  /** No row appears, disappears or changes anything but its tenant; selected rows, and only they, move. */
  lemma {:induction false} EstateIsConserved(tables: Tables, user: UserId, from: TenantId, to: TenantId, t: Table)
    requires t in tables
    ensures var after := MoveEstate(tables, user, from, to);
            && t in after && after[t].Keys == tables[t].Keys
            && (forall k :: k in tables[t] ==>
                  && after[t][k].owner == tables[t][k].owner && after[t][k].rest == tables[t][k].rest
                  && after[t][k].tenant == if Selected(t, tables[t][k], user, from) then to else tables[t][k].tenant)
            && (!TenantOnly(t) ==> forall k :: k in tables[t] && tables[t][k].owner != user ==> after[t][k] == tables[t][k])
            && (from != to ==> forall k :: k in after[t] && after[t][k].owner == user ==> after[t][k].tenant != from)
  {
  }

  /** A row of somebody else's data that the migration would take along. */
  ghost predicate Stranger(tables: Tables, user: UserId, from: TenantId, t: Table, k: nat) {
    t in tables && TenantOnly(t) && k in tables[t] && tables[t][k].tenant == from && tables[t][k].owner != user
  }

  /**
   The migration leaves everybody else's rows alone exactly when the tables it filters by tenant
   alone hold, under the tenant being left, no row of another user.
   */
  lemma {:induction false} OthersAreUntouchedIff(tables: Tables, user: UserId, from: TenantId, to: TenantId)
    requires from != to
    ensures (forall t, k :: t in tables && k in tables[t] && tables[t][k].owner != user ==>
               MoveEstate(tables, user, from, to)[t][k] == tables[t][k])
            <==> (forall t, k :: !Stranger(tables, user, from, t, k))
  {
    var after := MoveEstate(tables, user, from, to);
    if forall t, k :: t in tables && k in tables[t] && tables[t][k].owner != user ==> after[t][k] == tables[t][k] {
      forall t, k
        ensures !Stranger(tables, user, from, t, k)
      {
        if t in tables && k in tables[t] && tables[t][k].owner != user {
          assert after[t][k] == tables[t][k];
        }
      }
    }
    if forall t, k :: !Stranger(tables, user, from, t, k) {
      forall t, k | t in tables && k in tables[t] && tables[t][k].owner != user
        ensures after[t][k] == tables[t][k]
      {
        assert !Stranger(tables, user, from, t, k);
      }
    }
  }

  // ----- the session cache -------------------------------------------------------------------------------------------

  /**
   Cached tokens that are served with a tenant other than the one their user is an active member of.
   That membership, and not the session row's own tenant column, is what a request caches.
   */
  function Stale(st: State): set<Token>
    requires Sessions in st.db.tables
  {
    set k | k in st.cache &&
            !(k in st.db.tables[Sessions] && ActiveTenants(st.db.members, st.db.tables[Sessions][k].owner) == {st.cache[k]})
  }

  function CachedSessionsOf(st: State, user: UserId): set<Token>
    requires Sessions in st.db.tables
  {
    set k | k in st.cache && k in st.db.tables[Sessions] && st.db.tables[Sessions][k].owner == user
  }

  /** The tokens captured before the update are exactly the sessions whose tenant it changes. */
  lemma {:induction false} CapturedTokensAreTheMovedSessions(tables: Tables, user: UserId, from: TenantId, to: TenantId, k: Token)
    requires Sessions in tables && from != to && k in tables[Sessions]
    ensures k in MovedTokens(tables, user, from) <==> MoveEstate(tables, user, from, to)[Sessions][k].tenant != tables[Sessions][k].tenant
  {
  }

  /** The members after a move: the user has left `from`, and nobody else's membership changed. */
  lemma {:induction false} MoveChangesOneMembership(members: map<(TenantId, UserId), Member>, user: UserId, from: TenantId, to: TenantId, u: UserId)
    requires from != to
    ensures var after := Upsert(members, to, user) - {(from, user)};
            && from !in ActiveTenants(after, user)
            && (u != user ==> ActiveTenants(after, u) == ActiveTenants(members, u))
  {
    UpsertActive(members, to, user);
    RemoveActive(Upsert(members, to, user), from, user);
  }

  lemma {:induction false} MoveStale(st: State, after: State, user: UserId, from: TenantId, to: TenantId, lost: set<Token>, k: Token)
    requires Valid(st.db) && Stale(st) == {} && HasMoved(st, after, user, from, to, lost)
    ensures Sessions in after.db.tables
    ensures k in Stale(after) <==> k in CachedSessionsOf(st, user) - (MovedTokens(st.db.tables, user, from) - lost)
  {
    EstateIsConserved(st.db.tables, user, from, to, Sessions);
    if k in st.cache {
      assert k !in Stale(st);
      var owner := st.db.tables[Sessions][k].owner;
      MoveChangesOneMembership(st.db.members, user, from, to, owner);
      if owner == user {
        assert st.cache[k] in ActiveTenants(st.db.members, user);
        assert from in {from} && ActiveTenants(after.db.members, user) != {from};
      }
    }
  }

  lemma {:induction false} JoinStale(st: State, after: State, user: UserId, t: TenantId, k: Token)
    requires Valid(st.db) && Stale(st) == {} && HasJoined(st, after, user, t)
    ensures k !in Stale(after)
  {
    if k in st.cache {
      assert k !in Stale(st);
      var owner := st.db.tables[Sessions][k].owner;
      assert st.cache[k] in ActiveTenants(st.db.members, owner);
      UpsertActive(st.db.members, t, user);
    }
  }

  /**
   Starting from a coherent cache, a move leaves stale the mover's cached sessions, other than those
   captured for removal whose removal was written; every other sign-in leaves nothing stale.
   */
  lemma {:induction false} StaleAfterSignIn(p: Policy, st: State, a: Attempt)
    requires Valid(st.db) && Stale(st) == {}
    ensures var after := Attempted(p, st, a).0;
            var effect := EffectOf(p, st, a);
            && Sessions in after.db.tables
            && Stale(after) ==
                 if effect.Moved? then CachedSessionsOf(st, a.user) - (MovedTokens(st.db.tables, a.user, effect.from) - a.lost) else {}
  {
    EffectIs(p, st, a);
    var after := Attempted(p, st, a).0;
    match EffectOf(p, st, a)
    case Unchanged =>
    case Joined(t) =>
      forall k
        ensures k !in Stale(after)
      {
        JoinStale(st, after, a.user, t, k);
      }
    case Moved(from, to) =>
      MoveStale(st, after, a.user, from, to, a.lost, 0);
      forall k
        ensures k in Stale(after) <==> k in CachedSessionsOf(st, a.user) - (MovedTokens(st.db.tables, a.user, from) - a.lost)
      {
        MoveStale(st, after, a.user, from, to, a.lost, k);
      }
  }

  /** Every cached session of the user is filed under the tenant being left, and its removal is written. */
  ghost predicate RemovesAllCached(st: State, a: Attempt, from: TenantId)
    requires Sessions in st.db.tables
  {
    forall k :: k in CachedSessionsOf(st, a.user) ==> st.db.tables[Sessions][k].tenant == from && k !in a.lost
  }

  /**
   A sign-in keeps the cache coherent exactly when it moves nobody, or every cached session of the
   mover is filed under the tenant being left and none of their removals is lost.
   */
  lemma {:induction false} CacheStaysCoherentIff(p: Policy, st: State, a: Attempt)
    requires Valid(st.db) && Stale(st) == {}
    ensures Sessions in Attempted(p, st, a).0.db.tables
    ensures Stale(Attempted(p, st, a).0) == {} <==>
              (EffectOf(p, st, a).Moved? ==> RemovesAllCached(st, a, EffectOf(p, st, a).from))
  {
    StaleAfterSignIn(p, st, a);
    if EffectOf(p, st, a).Moved? {
      NothingCachedIsLeftIff(st, a, EffectOf(p, st, a).from);
    }
  }

  lemma {:induction false} NothingCachedIsLeftIff(st: State, a: Attempt, from: TenantId)
    requires Sessions in st.db.tables
    ensures CachedSessionsOf(st, a.user) - (MovedTokens(st.db.tables, a.user, from) - a.lost) == {} <==> RemovesAllCached(st, a, from)
  {
    var cached, removed := CachedSessionsOf(st, a.user), MovedTokens(st.db.tables, a.user, from) - a.lost;
    assert forall k :: k in cached ==> (k in removed <==> st.db.tables[Sessions][k].tenant == from && k !in a.lost);
    assert cached - removed == {} <==> (forall k :: k in cached ==> k in removed) by {
      if cached - removed == {} {
        assert forall k :: k in cached && k !in removed ==> k in cached - removed;
      }
    }
  }

  // ----- what the single-member guard does not see --------------------------------------------------------------------

  /** A bootstrap tenant 1 with one active member, 10, and a former member, 11, whose history is still there. */
  function FormerMember(): State {
    State(Db(R.Db(map["acme.example" := R.Row(0, 2, None, 0, None)], [], {1, 2}, 1),
             map[1 := Tenant(true, 0), 2 := Tenant(false, 0)],
             map[],
             map[(1, 10) := Member(true), (1, 11) := Member(false)],
             map t: Table | true ::
               if t.Users? then map[10 := Rec(10, 1, "user"), 11 := Rec(11, 1, "user")]
               else if t.EntryHistories? then map[5 := Rec(11, 1, "an old password of user 11")]
               else map[]),
          map[])
  }

  /** The guard counts active members, so user 10's move takes user 11's history row along. */
  lemma {:induction false} FormerMembersRowsMoveToo()
    ensures var p := Policy(s => s, s => s, s => None);
            var (after, result) := Attempted(p, FormerMember(), Attempt(10, Claimed("acme.example"), 3, 0, false, {}));
            && Valid(FormerMember().db)
            && result.Allowed?
            && FormerMember().db.tables[EntryHistories][5].owner == 11
            && after.db.tables[EntryHistories][5].tenant == 2
  {
    FormerMemberships();
    FormerMemberIsValid();
    assert TheOne({1}) == 1;
    EstateIsConserved(FormerMember().db.tables, 10, 1, 2, EntryHistories);
  }

  lemma {:induction false} FormerMemberIsValid()
    ensures Valid(FormerMember().db)
  {
  }

  lemma {:induction false} FormerMemberships()
    ensures ActiveTenants(FormerMember().db.members, 10) == {1}
    ensures ActiveMembers(FormerMember().db.members, 1) == {10}
  {
    var members := FormerMember().db.members;
    forall t
      ensures t in ActiveTenants(members, 10) <==> t == 1
    {
      ActiveMeans(members, 10, t);
    }
    forall u
      ensures u in ActiveMembers(members, 1) <==> u == 10
    {
      ActiveMeans(members, u, 1);
    }
  }

  // ----- a deactivated membership, and a lost invalidation ------------------------------------------------------------

  /** User 10 belongs nowhere; the membership in the tenant that holds the claim was deactivated. */
  function DeactivatedMember(): State {
    State(Db(R.Db(map["acme.example" := R.Row(0, 2, None, 0, None)], [], {2}, 1),
             map[2 := Tenant(false, 0)],
             map[],
             map[(2, 10) := Member(false)],
             map t: Table | true :: if t.Users? then map[10 := Rec(10, 2, "user")] else map[]),
          map[])
  }

  /** The sign-in is allowed and leaves the user without an active membership. */
  lemma {:induction false} DeactivatedMemberIsLetIn()
    ensures var p := Policy(s => s, s => s, s => None);
            var (after, result) := Attempted(p, DeactivatedMember(), Attempt(10, Claimed("acme.example"), 3, 0, false, {}));
            && Valid(DeactivatedMember().db)
            && result.Allowed? && ActiveTenants(after.db.members, 10) == {}
  {
    var members := DeactivatedMember().db.members;
    forall t
      ensures t !in ActiveTenants(members, 10)
    {
      ActiveMeans(members, 10, t);
    }
    UpsertActive(members, 2, 10);
  }

  /** User 10 moves from bootstrap tenant 1 to tenant 2 while session 77 is cached. */
  function CachedMover(): State {
    State(Db(R.Db(map["acme.example" := R.Row(0, 2, None, 0, None)], [], {1, 2}, 1),
             map[1 := Tenant(true, 0), 2 := Tenant(false, 0)],
             map[],
             map[(1, 10) := Member(true)],
             map t: Table | true ::
               if t.Users? then map[10 := Rec(10, 1, "user")]
               else if t.Sessions? then map[77 := Rec(10, 1, "session")]
               else map[]),
          map[77 := 1])
  }

  lemma {:induction false} CachedMoverMemberships()
    ensures ActiveTenants(CachedMover().db.members, 10) == {1}
    ensures ActiveMembers(CachedMover().db.members, 1) == {10}
  {
    var members := CachedMover().db.members;
    forall t
      ensures t in ActiveTenants(members, 10) <==> t == 1
    {
      ActiveMeans(members, 10, t);
    }
    forall u
      ensures u in ActiveMembers(members, 1) <==> u == 10
    {
      ActiveMeans(members, u, 1);
    }
  }

  lemma {:induction false} CachedMoverIsCoherent()
    ensures Valid(CachedMover().db) && Stale(CachedMover()) == {}
    ensures MovedTokens(CachedMover().db.tables, 10, 1) == {77} && CachedSessionsOf(CachedMover(), 10) == {77}
  {
    CachedMoverMemberships();
  }

  /** If the write that should drop it is lost, the cached session still names the old tenant. */
  lemma {:induction false} LostInvalidationLeavesStale()
    ensures var p := Policy(s => s, s => s, s => None);
            var (after, result) := Attempted(p, CachedMover(), Attempt(10, Claimed("acme.example"), 3, 0, false, {77}));
            result.Allowed? && Sessions in after.db.tables && Stale(after) == {77}
  {
    var p := Policy(s => s, s => s, s => None);
    var a := Attempt(10, Claimed("acme.example"), 3, 0, false, {77});
    CachedMoverMemberships();
    CachedMoverIsCoherent();
    assert TheOne({1}) == 1;
    assert EffectOf(p, CachedMover(), a) == Moved(1, 2);
    StaleAfterSignIn(p, CachedMover(), a);
    assert {77} - ({77} - {77}) == {77};
  }

  // ----- a session filed under another tenant -----------------------------------------------------------------------------

  /**
   User 10 is a member of bootstrap tenant 2 and of no other; the user row and session 77 are still
   filed under tenant 1, as a join leaves them.  Tenant 3 holds the claim.
   */
  function FiledElsewhere(): State {
    State(Db(R.Db(map["acme.example" := R.Row(0, 3, None, 0, None)], [], {1, 2, 3}, 1),
             map[1 := Tenant(false, 0), 2 := Tenant(true, 0), 3 := Tenant(false, 0)],
             map[],
             map[(2, 10) := Member(true)],
             map t: Table | true ::
               if t.Users? then map[10 := Rec(10, 1, "user")]
               else if t.Sessions? then map[77 := Rec(10, 1, "session")]
               else map[]),
          map[77 := 2])
  }

  lemma {:induction false} FiledElsewhereMemberships()
    ensures ActiveTenants(FiledElsewhere().db.members, 10) == {2}
    ensures ActiveMembers(FiledElsewhere().db.members, 2) == {10}
  {
    var members := FiledElsewhere().db.members;
    forall t
      ensures t in ActiveTenants(members, 10) <==> t == 2
    {
      ActiveMeans(members, 10, t);
    }
    forall u
      ensures u in ActiveMembers(members, 2) <==> u == 10
    {
      ActiveMeans(members, u, 2);
    }
  }

  lemma {:induction false} FiledElsewhereIsCoherent()
    ensures Valid(FiledElsewhere().db) && Stale(FiledElsewhere()) == {}
    ensures MovedTokens(FiledElsewhere().db.tables, 10, 2) == {} && CachedSessionsOf(FiledElsewhere(), 10) == {77}
  {
    FiledElsewhereMemberships();
  }

  /** The move captures no token, so the cached session keeps naming tenant 2 with no removal lost. */
  lemma {:induction false} SessionFiledElsewhereGoesStale()
    ensures var p := Policy(s => s, s => s, s => None);
            var (after, result) := Attempted(p, FiledElsewhere(), Attempt(10, Claimed("acme.example"), 4, 0, false, {}));
            && Valid(FiledElsewhere().db) && Stale(FiledElsewhere()) == {}
            && result.Allowed? && after.cache == map[77 := 2]
            && Sessions in after.db.tables && Stale(after) == {77}
  {
    var p := Policy(s => s, s => s, s => None);
    var a := Attempt(10, Claimed("acme.example"), 4, 0, false, {});
    FiledElsewhereMemberships();
    FiledElsewhereIsCoherent();
    assert TheOne({2}) == 2;
    assert EffectOf(p, FiledElsewhere(), a) == Moved(2, 3);
    EffectIs(p, FiledElsewhere(), a);
    StaleAfterSignIn(p, FiledElsewhere(), a);
  }
}
