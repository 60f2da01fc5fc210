/**
 The one-shot migration that encrypts legacy OAuth tokens at rest: keyset pagination over the
 accounts table, in-place rewriting, five counters, and safe re-runs after a crash.
 */
module TokenMigration {
  import opened Prelude
  import opened Sorting

  type Id = nat

  datatype Aad = Aad(userId: string, provider: string, providerAccountId: string)

  /** A stored token: text as it came from the provider, or ciphertext over what was stored before. */
  datatype Stored = Raw(text: string) | Sealed(aad: Aad, inner: Stored)

  const SENTINEL := "psoenc1:"

  /** isEncryptedAccountToken looks at the prefix only; every ciphertext carries it. */
  predicate LooksEncrypted(s: Stored) {
    s.Sealed? || SENTINEL <= s.text
  }

  datatype Account = Account(aad: Aad, refresh: Option<Stored>, access: Option<Stored>, idToken: Option<Stored>)

  type Table = map<Id, Account>

  /** Rows whose encryption throws, and rows whose UPDATE throws. */
  datatype Faults = Faults(encrypt: set<Id>, update: set<Id>)

  const NO_FAULTS := Faults({}, {})

  datatype RowOutcome = NoTokens | AlreadyEncrypted | Rewritten | FailedRow

  predicate Done(t: Option<Stored>) {
    t.None? || LooksEncrypted(t.value)
  }

  function Seal(aad: Aad, t: Option<Stored>): Option<Stored> {
    if Done(t) then t else Some(Sealed(aad, t.value))
  }

  function SealRow(a: Account): Account {
    Account(a.aad, Seal(a.aad, a.refresh), Seal(a.aad, a.access), Seal(a.aad, a.idToken))
  }

  function OutcomeOf(a: Account, id: Id, dryRun: bool, faults: Faults): RowOutcome {
    if a.refresh.None? && a.access.None? && a.idToken.None? then NoTokens
    else if Done(a.refresh) && Done(a.access) && Done(a.idToken) then AlreadyEncrypted
    else if id in faults.encrypt then FailedRow
    else if !dryRun && id in faults.update then FailedRow
    else Rewritten
  }

  function RowAfter(a: Account, id: Id, dryRun: bool, faults: Faults): Account {
    if OutcomeOf(a, id, dryRun, faults).Rewritten? && !dryRun then SealRow(a) else a
  }

  // ----- reading in id order ---------------------------------------------------------------------------

  predicate Below(a: Id, b: Id) {
    a < b
  }

  function Min(s: set<Id>): (m: Id)
    requires s != {}
    ensures IsMin(s, m)
  {
    MinExists(s);
    var m :| IsMin(s, m);
    m
  }

  predicate IsMin(s: set<Id>, m: Id) {
    m in s && forall x :: x in s ==> m <= x
  }

  lemma {:induction false} MinExists(s: set<Id>)
    requires s != {}
    ensures exists m :: IsMin(s, m)
    decreases |s|
  {
    var y :| y in s;
    var rest := s - {y};
    if rest == {} {
      assert s == {y};
      assert IsMin(s, y);
    } else {
      MinExists(rest);
      var m :| IsMin(rest, m);
      var least := if y < m then y else m;
      forall x | x in s
        ensures least <= x
      {
        assert x == y || x in rest;
      }
      assert IsMin(s, least);
    }
  }

  /** ORDER BY id. */
  function InOrder(s: set<Id>): seq<Id>
    decreases |s|
  {
    if s == {} then [] else [Min(s)] + InOrder(s - {Min(s)})
  }

  /** WHERE id > cursor. */
  function Beyond(ids: set<Id>, cursor: Option<Id>): set<Id> {
    set x | x in ids && (cursor.Some? ==> x > cursor.value)
  }

  /** SELECT id ... WHERE id > cursor ORDER BY id LIMIT n. */
  function Batch(ids: set<Id>, cursor: Option<Id>, n: nat): seq<Id> {
    Take(InOrder(Beyond(ids, cursor)), n)
  }

  /** The cursor after the first k rows: the id of the last of them. */
  function CursorAt(order: seq<Id>, k: nat): Option<Id>
    requires k <= |order|
  {
    if k == 0 then None else Some(order[k - 1])
  }

  lemma {:induction false} InOrderIs(s: set<Id>)
    ensures Ascending(Below, InOrder(s)) && Elements(InOrder(s)) == s && |InOrder(s)| == |s|
    decreases |s|
  {
    if s != {} {
      var m := Min(s);
      var rest := s - {m};
      InOrderIs(rest);
      AscendingCons(Below, m, InOrder(rest));
      HeadAndTail(InOrder(s));
      assert InOrder(s)[1..] == InOrder(rest);
    }
  }

  lemma {:induction false} BelowOrders(s: set<Id>)
    ensures Orders(Below, s)
  {
  }

  lemma {:induction false} SuffixIsBeyond(order: seq<Id>, k: nat, x: Id)
    requires Ascending(Below, order) && k <= |order|
    ensures x in Elements(order[k..]) <==> x in Elements(order) && (k > 0 ==> x > order[k - 1])
  {
    if x in Elements(order) && (k > 0 ==> x > order[k - 1]) {
      var i :| 0 <= i < |order| && order[i] == x;
      assert forall j :: 0 <= j < k - 1 ==> Below(order[j], order[k - 1]);
      assert order[k..][i - k] == x;
    }
    if x in Elements(order[k..]) {
      var i :| 0 <= i < |order[k..]| && order[k..][i] == x;
      assert order[k + i] == x;
      assert k > 0 ==> Below(order[k - 1], order[k + i]);
    }
  }

  /** The page found by the key of the last row read is the next part of the order. */
  lemma {:induction false} KeysetContinues(ids: set<Id>, k: nat, n: nat)
    requires k <= |InOrder(ids)|
    ensures Batch(ids, CursorAt(InOrder(ids), k), n) == Take(InOrder(ids)[k..], n)
  {
    var order := InOrder(ids);
    InOrderIs(ids);
    var beyond := Beyond(ids, CursorAt(order, k));
    InOrderIs(beyond);
    assert Elements(order[k..]) == beyond by {
      forall x
        ensures x in Elements(order[k..]) <==> x in beyond
      {
        SuffixIsBeyond(order, k, x);
        assert x in Elements(order) <==> x in ids;
      }
    }
    BelowOrders(beyond);
    AscendingIsUnique(Below, order[k..], InOrder(beyond));
  }

  // ----- a run, row by row ---------------------------------------------------------------------------------

  /** The table after the first k rows of `order`; a crash leaves the table in one of these states. */
  function AfterRows(table: Table, order: seq<Id>, k: nat, dryRun: bool, faults: Faults): Table
    requires k <= |order| && forall i :: 0 <= i < |order| ==> order[i] in table
  {
    if k == 0 then table
    else
      var id := order[k - 1];
      AfterRows(table, order, k - 1, dryRun, faults)[id := RowAfter(table[id], id, dryRun, faults)]
  }

  datatype Counters = Counters(scanned: nat, rewritten: nat, alreadyEncrypted: nat, noTokens: nat, failed: nat)

  function Tally(c: Counters, o: RowOutcome): Counters {
    var c' := c.(scanned := c.scanned + 1);
    match o
    case NoTokens => c'.(noTokens := c.noTokens + 1)
    case AlreadyEncrypted => c'.(alreadyEncrypted := c.alreadyEncrypted + 1)
    case Rewritten => c'.(rewritten := c.rewritten + 1)
    case FailedRow => c'.(failed := c.failed + 1)
  }

  function CountRows(table: Table, order: seq<Id>, k: nat, dryRun: bool, faults: Faults): Counters
    requires k <= |order| && forall i :: 0 <= i < |order| ==> order[i] in table
  {
    if k == 0 then Counters(0, 0, 0, 0, 0)
    else
      var id := order[k - 1];
      Tally(CountRows(table, order, k - 1, dryRun, faults), OutcomeOf(table[id], id, dryRun, faults))
  }

  lemma {:induction false} PrefixGrows(order: seq<Id>, n: nat, batch: seq<Id>)
    requires n + |batch| <= |order| && batch == order[n..][..|batch|]
    ensures order[..n] + batch == order[..n + |batch|]
  {
  }

  /** The accounts table as the script rewrites it. */
  class Accounts {
    var table: Table

    constructor (t: Table)
      ensures table == t
    {
      table := t;
    }

    /** The first n rows in id order have been handled and counted. */
    ghost predicate Progress(start: Table, n: nat, c: Counters, dryRun: bool, faults: Faults)
      requires forall i :: 0 <= i < |InOrder(start.Keys)| ==> InOrder(start.Keys)[i] in start
      reads this
    {
      var order := InOrder(start.Keys);
      && n <= |order|
      && table.Keys == start.Keys
      && table == AfterRows(start, order, n, dryRun, faults)
      && c == CountRows(start, order, n, dryRun, faults)
    }

    /** One pass over the table in batches; returns the counters and the ids in the order visited. */
    method Migrate(batchSize: nat, dryRun: bool, faults: Faults) returns (c: Counters, visited: seq<Id>)
      requires batchSize > 0
      modifies this
      ensures visited == InOrder(old(table).Keys)
      ensures forall i :: 0 <= i < |visited| ==> visited[i] in old(table)
      ensures table == AfterRows(old(table), visited, |visited|, dryRun, faults)
      ensures c == CountRows(old(table), visited, |visited|, dryRun, faults)
    {
      ghost var start := table;
      ghost var order := InOrder(start.Keys);
      OrderListsTable(start);
      c, visited := Counters(0, 0, 0, 0, 0), [];
      var cursor: Option<Id> := None;
      while true
        invariant |visited| <= |order| && visited == order[..|visited|]
        invariant cursor == CursorAt(order, |visited|)
        invariant Progress(start, |visited|, c, dryRun, faults)
        decreases |order| - |visited|
      {
        KeysetContinues(start.Keys, |visited|, batchSize);
        var batch := Batch(table.Keys, cursor, batchSize);
        if batch == [] {
          break;
        }
        c := ProcessBatch(batch, dryRun, faults, c, start, |visited|);
        PrefixGrows(order, |visited|, batch);
        visited := visited + batch;
        cursor := Some(batch[|batch| - 1]);
      }
    }

    /** The inner loop: one batch, in order. */
    method ProcessBatch(batch: seq<Id>, dryRun: bool, faults: Faults, c0: Counters, ghost start: Table, ghost n: nat)
      returns (c: Counters)
      requires forall i :: 0 <= i < |InOrder(start.Keys)| ==> InOrder(start.Keys)[i] in start
      requires n + |batch| <= |InOrder(start.Keys)| && batch == InOrder(start.Keys)[n..][..|batch|]
      requires Progress(start, n, c0, dryRun, faults)
      modifies this
      ensures Progress(start, n + |batch|, c, dryRun, faults)
    {
      ghost var order := InOrder(start.Keys);
      c := c0;
      var i := 0;
      while i < |batch|
        invariant 0 <= i <= |batch|
        invariant Progress(start, n + i, c, dryRun, faults)
      {
        var id := batch[i];
        assert id == order[n + i];
        NotYetVisited(start, order, n + i, dryRun, faults);
        var outcome := OutcomeOf(table[id], id, dryRun, faults);
        if outcome.Rewritten? && !dryRun {
          table := table[id := SealRow(table[id])];
        }
        c := Tally(c, outcome);
        i := i + 1;
      }
    }
  }

  lemma {:induction false} OrderListsTable(table: Table)
    ensures forall i :: 0 <= i < |InOrder(table.Keys)| ==> InOrder(table.Keys)[i] in table
  {
    InOrderIs(table.Keys);
    var order := InOrder(table.Keys);
    forall i | 0 <= i < |order|
      ensures order[i] in table
    {
      assert order[i] in Elements(order);
    }
  }

  /** Rows not visited yet are as they were. */
  lemma {:induction false} NotYetVisited(table: Table, order: seq<Id>, k: nat, dryRun: bool, faults: Faults)
    requires k < |order| && forall i :: 0 <= i < |order| ==> order[i] in table
    requires order == InOrder(table.Keys)
    ensures AfterRows(table, order, k, dryRun, faults).Keys == table.Keys
    ensures AfterRows(table, order, k, dryRun, faults)[order[k]] == table[order[k]]
    ensures AfterRows(table, order, k + 1, dryRun, faults) ==
              AfterRows(table, order, k, dryRun, faults)[order[k] := RowAfter(table[order[k]], order[k], dryRun, faults)]
  {
    InOrderIs(table.Keys);
    AfterRowsAre(table, order, k, dryRun, faults, order[k]);
    assert order[k] !in order[..k] by {
      assert forall i :: 0 <= i < k ==> Below(order[i], order[k]);
    }
    AfterRowsKeys(table, order, k, dryRun, faults);
  }

  lemma {:induction false} AfterRowsKeys(table: Table, order: seq<Id>, k: nat, dryRun: bool, faults: Faults)
    requires k <= |order| && forall i :: 0 <= i < |order| ==> order[i] in table
    ensures AfterRows(table, order, k, dryRun, faults).Keys == table.Keys
  {
    if k > 0 {
      AfterRowsKeys(table, order, k - 1, dryRun, faults);
    }
  }

  /** The first k rows have been handled, each from its original contents; the others are untouched. */
  lemma {:induction false} AfterRowsAre(table: Table, order: seq<Id>, k: nat, dryRun: bool, faults: Faults, id: Id)
    requires k <= |order| && forall i :: 0 <= i < |order| ==> order[i] in table
    requires id in table
    ensures id in AfterRows(table, order, k, dryRun, faults)
    ensures AfterRows(table, order, k, dryRun, faults)[id] == if id in order[..k] then RowAfter(table[id], id, dryRun, faults) else table[id]
  {
    if k > 0 {
      AfterRowsAre(table, order, k - 1, dryRun, faults, id);
      assert order[..k] == order[..k - 1] + [order[k - 1]];
    }
  }

  // ----- the counters --------------------------------------------------------------------------------------

  /** Every scanned row is counted under exactly one heading, and a full pass scans every row once. */
  lemma {:induction false} CountersAddUp(table: Table, order: seq<Id>, k: nat, dryRun: bool, faults: Faults)
    requires k <= |order| && forall i :: 0 <= i < |order| ==> order[i] in table
    ensures var c := CountRows(table, order, k, dryRun, faults);
            c.scanned == k && c.scanned == c.rewritten + c.alreadyEncrypted + c.noTokens + c.failed
  {
    if k > 0 {
      CountersAddUp(table, order, k - 1, dryRun, faults);
    }
  }

  // ----- crashes and re-runs ---------------------------------------------------------------------------------

  /** A full pass. */
  function Pass(table: Table, dryRun: bool, faults: Faults): Table {
    OrderListsTable(table);
    AfterRows(table, InOrder(table.Keys), |InOrder(table.Keys)|, dryRun, faults)
  }

  /** A pass that stopped after some rows: a crash, or faults along the way. */
  datatype Attempt = Attempt(rows: nat, faults: Faults)

  function Partial(table: Table, a: Attempt): Table {
    OrderListsTable(table);
    var n := |InOrder(table.Keys)|;
    AfterRows(table, InOrder(table.Keys), if a.rows < n then a.rows else n, false, a.faults)
  }

  function Partials(table: Table, attempts: seq<Attempt>): Table
    decreases |attempts|
  {
    if attempts == [] then table else Partials(Partial(table, attempts[0]), attempts[1..])
  }

  /** Each row of `now` is as in `start`, or fully sealed. */
  ghost predicate Between(start: Table, now: Table) {
    && now.Keys == start.Keys
    && forall id :: id in start ==> now[id] == start[id] || now[id] == SealRow(start[id])
  }

  lemma {:induction false} SealRowTwice(a: Account)
    ensures SealRow(SealRow(a)) == SealRow(a)
    ensures OutcomeOf(SealRow(a), 0, false, NO_FAULTS) != Rewritten
  {
  }

  lemma {:induction false} PartialStaysBetween(start: Table, now: Table, a: Attempt)
    requires Between(start, now)
    ensures Between(start, Partial(now, a))
  {
    OrderListsTable(now);
    var order := InOrder(now.Keys);
    var k := if a.rows < |order| then a.rows else |order|;
    AfterRowsKeys(now, order, k, false, a.faults);
    forall id | id in start
      ensures Partial(now, a)[id] == start[id] || Partial(now, a)[id] == SealRow(start[id])
    {
      AfterRowsAre(now, order, k, false, a.faults, id);
      SealRowTwice(start[id]);
    }
  }

  lemma {:induction false} PartialsStayBetween(start: Table, now: Table, attempts: seq<Attempt>)
    requires Between(start, now)
    ensures Between(start, Partials(now, attempts))
    decreases |attempts|
  {
    if attempts != [] {
      PartialStaysBetween(start, now, attempts[0]);
      PartialsStayBetween(start, Partial(now, attempts[0]), attempts[1..]);
    }
  }

  lemma {:induction false} PassIs(table: Table, dryRun: bool, faults: Faults, id: Id)
    requires id in table
    ensures Pass(table, dryRun, faults).Keys == table.Keys
    ensures Pass(table, dryRun, faults)[id] == RowAfter(table[id], id, dryRun, faults)
  {
    OrderListsTable(table);
    InOrderIs(table.Keys);
    var order := InOrder(table.Keys);
    AfterRowsKeys(table, order, |order|, dryRun, faults);
    AfterRowsAre(table, order, |order|, dryRun, faults, id);
    assert order[..|order|] == order;
    assert id in Elements(order);
  }

  lemma {:induction false} CleanPassSealsRow(a: Account, id: Id)
    ensures RowAfter(a, id, false, NO_FAULTS) == SealRow(a)
  {
  }

  /**
   However many passes crashed or met faults, one clean pass leaves every row exactly as a single
   undisturbed pass would have: each legacy token sealed once, under its own row's context.
   */
  lemma {:induction false} CrashesThenCleanPass(table: Table, attempts: seq<Attempt>)
    ensures var final := Pass(Partials(table, attempts), false, NO_FAULTS);
            final.Keys == table.Keys && forall id :: id in table ==> final[id] == SealRow(table[id])
  {
    var mid := Partials(table, attempts);
    PartialsStayBetween(table, table, attempts);
    var final := Pass(mid, false, NO_FAULTS);
    assert final.Keys == table.Keys by {
      OrderListsTable(mid);
      AfterRowsKeys(mid, InOrder(mid.Keys), |InOrder(mid.Keys)|, false, NO_FAULTS);
    }
    forall id | id in table
      ensures final[id] == SealRow(table[id])
    {
      PassIs(mid, false, NO_FAULTS, id);
      CleanPassSealsRow(mid[id], id);
      SealRowTwice(table[id]);
    }
  }

  /** After a clean pass nothing is left to rewrite: a further run changes no row and counts none as rewritten. */
  lemma {:induction false} NothingLeftToRewrite(table: Table, order: seq<Id>, k: nat, dryRun: bool, faults: Faults)
    requires k <= |order| && forall i :: 0 <= i < |order| ==> order[i] in table
    requires forall id :: id in table ==> SealRow(table[id]) == table[id]
    ensures AfterRows(table, order, k, dryRun, faults) == table
    ensures CountRows(table, order, k, dryRun, faults).rewritten == 0 && CountRows(table, order, k, dryRun, faults).failed == 0
  {
    if k > 0 {
      NothingLeftToRewrite(table, order, k - 1, dryRun, faults);
      assert SealRow(table[order[k - 1]]) == table[order[k - 1]];
    }
  }

  // ----- what is encrypted afterwards --------------------------------------------------------------------------

  function Layers(s: Stored): nat {
    if s.Raw? then 0 else 1 + Layers(s.inner)
  }

  function Original(s: Stored): string {
    if s.Raw? then s.text else Original(s.inner)
  }

  /** A token as providers or earlier passes leave it: plain, or under one layer of encryption. */
  predicate AtMostOneLayer(t: Option<Stored>) {
    t.Some? ==> Layers(t.value) <= 1
  }

  /** A plaintext that merely looks like ciphertext. */
  predicate Impostor(t: Option<Stored>) {
    t.Some? && t.value.Raw? && SENTINEL <= t.value.text
  }

  /**
   A sealed token keeps its original value and ends under exactly one layer, except a plaintext that
   begins with the sentinel: that one, and only that one, stays in the clear.
   */
  lemma {:induction false} SealedOnce(aad: Aad, t: Option<Stored>)
    requires AtMostOneLayer(t) && t.Some?
    ensures var r := Seal(aad, t);
            && r.Some? && Original(r.value) == Original(t.value)
            && (Layers(r.value) == 1 <==> !Impostor(t))
            && (Impostor(t) ==> Layers(r.value) == 0)
            && (t.value.Raw? && !Impostor(t) ==> r.value == Sealed(aad, t.value))
  {
  }

  /** A provider token that begins like ciphertext goes through the migration unchanged. */
  lemma {:induction false} LookalikeStaysInTheClear(aad: Aad)
    ensures var token := Some(Raw(SENTINEL + "1:abc"));
            Impostor(token) && Seal(aad, token) == token && Layers(token.value) == 0
  {
    assert SENTINEL <= SENTINEL + "1:abc";
  }
}
