/**
 What the bootstrap migration does to the audit chains.  It files a user's audit rows under the new
 tenant and keeps their chain positions and hashes; neither tenant's anchor moves.
 */
module AuditMigration {
  import opened Prelude
  import opened AuditChain

  /** The rows that keep their tenant. */
  function Staying(rows: seq<Row>, user: nat): seq<Row> {
    if rows == [] then [] else (if rows[0].unhashed.user == user then [] else [rows[0]]) + Staying(rows[1..], user)
  }

  /** The rows that the migration files under the new tenant. */
  function Leaving(rows: seq<Row>, user: nat): seq<Row> {
    if rows == [] then [] else (if rows[0].unhashed.user == user then [rows[0]] else []) + Leaving(rows[1..], user)
  }

  /** A table read in chain order; rows with the same position may come in either order. */
  ghost predicate InChainOrder(table: seq<Row>) {
    forall i, j :: 0 <= i < j < |table| ==> table[i].chainSeq <= table[j].chainSeq
  }

  /** A chain from genesis: only its first row links to the genesis hash. */
  ghost predicate LinksToGenesisFirst(rows: seq<Row>) {
    forall i :: 0 <= i < |rows| && rows[i].prevHash == Some(Genesis) ==> rows[i].chainSeq == 1
  }

  // ----- a passing check counts its rows --------------------------------------------------------------

  lemma {:induction false} IntactRowsCountUp(h: HashFunction, rows: seq<Row>, i: nat)
    requires RowsIntact(h, Genesis, rows) && LinksToGenesisFirst(rows) && i < |rows|
    ensures rows[i].chainSeq == i + 1
  {
    assert RowIntact(h, Genesis, rows, i);
    if i > 0 {
      IntactRowsCountUp(h, rows, i - 1);
    }
  }

  lemma {:induction false} SliceRows(rows: seq<Row>, k: nat, rowCap: nat)
    ensures LinksToGenesisFirst(rows) ==> LinksToGenesisFirst(Slice(rows, k, rowCap))
    ensures forall r :: r in Slice(rows, k, rowCap) ==> r in rows && r.chainSeq <= k
  {
    BoundedRows(rows, k);
    var slice := Slice(rows, k, rowCap);
    forall i | 0 <= i < |slice|
      ensures slice[i] in rows && slice[i].chainSeq <= k
    {
      assert slice[i] in Bounded(rows, k);
    }
  }

  lemma {:induction false} BoundedRows(rows: seq<Row>, k: nat)
    ensures forall r :: r in Bounded(rows, k) <==> r in rows && r.chainSeq <= k
    ensures |Bounded(rows, k)| <= |rows|
  {
    if rows != [] {
      BoundedRows(rows[1..], k);
      assert rows == [rows[0]] + rows[1..];
    }
  }

  /**
   A check that passes has read exactly as many rows as the anchor counts, at the positions one to
   the anchor's, and as many rows fit under the cap.
   */
  lemma {:induction false} PassingSliceIsFull(h: HashFunction, table: seq<Row>, anchor: Anchor, rowCap: nat)
    requires LinksToGenesisFirst(table) && CheckTenant(h, table, anchor, rowCap).ok
    ensures var slice := Slice(table, anchor.chainSeq, rowCap);
            && 1 <= |slice| == anchor.chainSeq <= rowCap
            && RowsIntact(h, Genesis, slice)
            && forall i :: 0 <= i < |slice| ==> slice[i].chainSeq == i + 1
  {
    var slice := Slice(table, anchor.chainSeq, rowCap);
    CleanVerdictIff(h, Request(slice, Genesis, 1, anchor.chainSeq, Some(anchor.head), true, rowCap));
    SliceRows(table, anchor.chainSeq, rowCap);
    forall i | 0 <= i < |slice|
      ensures slice[i].chainSeq == i + 1
    {
      IntactRowsCountUp(h, slice, i);
    }
    assert slice[|slice| - 1] in slice;
  }

  lemma {:induction false} DeliveredLinks(h: HashFunction, entries: seq<Entry>)
    ensures LinksToGenesisFirst(DeliverAll(h, entries).rows)
  {
    DeliveredShape(h, entries);
    var rows := DeliverAll(h, entries).rows;
    forall i | 0 <= i < |rows|
      ensures rows[i].prevHash == Some(Genesis) ==> rows[i].chainSeq == 1
    {
      assert Written(h, rows, i, entries[i]);
      assert i > 0 ==> Written(h, rows, i - 1, entries[i - 1]);
    }
  }

  // ----- the tenant that is left ------------------------------------------------------------------------

  lemma {:induction false} RowsAreSplit(rows: seq<Row>, user: nat)
    ensures |Staying(rows, user)| + |Leaving(rows, user)| == |rows|
    ensures forall r :: r in Staying(rows, user) ==> r in rows
    ensures forall r :: r in Leaving(rows, user) ==> r in rows
    ensures Leaving(rows, user) == [] ==> Staying(rows, user) == rows
  {
    if rows != [] {
      RowsAreSplit(rows[1..], user);
      assert rows == [rows[0]] + rows[1..];
    }
  }

  ghost predicate NoneBy(entries: seq<Entry>, user: nat) {
    forall i :: 0 <= i < |entries| ==> entries[i].unhashed.user != user
  }

  lemma {:induction false} NobodyLeavesIff(rows: seq<Row>, user: nat)
    ensures Leaving(rows, user) == [] <==> (forall i :: 0 <= i < |rows| ==> rows[i].unhashed.user != user)
  {
    if rows != [] {
      NobodyLeavesIff(rows[1..], user);
      assert rows == [rows[0]] + rows[1..];
    }
  }

  lemma {:induction false} NothingLeavesIff(h: HashFunction, entries: seq<Entry>, user: nat)
    ensures Leaving(DeliverAll(h, entries).rows, user) == [] <==> NoneBy(entries, user)
  {
    DeliveredShape(h, entries);
    var rows := DeliverAll(h, entries).rows;
    NobodyLeavesIff(rows, user);
    forall i | 0 <= i < |entries|
      ensures rows[i].unhashed == entries[i].unhashed
    {
      assert Written(h, rows, i, entries[i]);
    }
  }

  lemma {:induction false} SubsetLinks(sub: seq<Row>, rows: seq<Row>)
    requires LinksToGenesisFirst(rows) && forall r :: r in sub ==> r in rows
    ensures LinksToGenesisFirst(sub)
  {
    forall i | 0 <= i < |sub| && sub[i].prevHash == Some(Genesis)
      ensures sub[i].chainSeq == 1
    {
      assert sub[i] in sub;
    }
  }

  /**
   After the migration the tenant that was left passes its check exactly if it would have passed
   before and none of its chained rows was the migrated user's.
   */
  lemma {:induction false} LeftTenantPassesIff(h: HashFunction, entries: seq<Entry>, user: nat, rowCap: nat)
    ensures var c := DeliverAll(h, entries);
            CheckTenant(h, Staying(c.rows, user), c.anchor, rowCap).ok
            <==> 1 <= |entries| <= rowCap && InTimeOrder(entries) && NoneBy(entries, user)
  {
    var c := DeliverAll(h, entries);
    var staying := Staying(c.rows, user);
    DeliveredShape(h, entries);
    RowsAreSplit(c.rows, user);
    NothingLeavesIff(h, entries, user);
    assert entries + [] == entries;
    HonestChainPassesIff(h, entries, [], rowCap);
    if CheckTenant(h, staying, c.anchor, rowCap).ok {
      DeliveredLinks(h, entries);
      SubsetLinks(staying, c.rows);
      PassingSliceIsFull(h, staying, c.anchor, rowCap);
      BoundedRows(staying, c.anchor.chainSeq);
    }
  }

  // ----- the tenant that is joined -----------------------------------------------------------------------

  /** `table` lists the rows of `own` and of `foreign`, and nothing else, in chain order. */
  ghost predicate Merges(table: seq<Row>, own: seq<Row>, foreign: seq<Row>) {
    InChainOrder(table) && multiset(table) == multiset(own) + multiset(foreign)
  }

  lemma {:induction false} BoundedOccurrences(rows: seq<Row>, k: nat, r: Row)
    ensures multiset(Bounded(rows, k))[r] == if r.chainSeq <= k then multiset(rows)[r] else 0
  {
    if rows != [] {
      BoundedOccurrences(rows[1..], k, r);
      assert rows == [rows[0]] + rows[1..];
    }
  }

  lemma {:induction false} BoundedMerges(table: seq<Row>, own: seq<Row>, foreign: seq<Row>, k: nat)
    requires multiset(table) == multiset(own) + multiset(foreign)
    ensures multiset(Bounded(table, k)) == multiset(Bounded(own, k)) + multiset(Bounded(foreign, k))
    ensures |Bounded(table, k)| == |Bounded(own, k)| + |Bounded(foreign, k)|
  {
    forall r: Row
      ensures multiset(Bounded(table, k))[r] == (multiset(Bounded(own, k)) + multiset(Bounded(foreign, k)))[r]
    {
      BoundedOccurrences(table, k, r);
      BoundedOccurrences(own, k, r);
      BoundedOccurrences(foreign, k, r);
    }
    assert multiset(Bounded(table, k)) == multiset(Bounded(own, k)) + multiset(Bounded(foreign, k));
    assert |multiset(Bounded(table, k))| == |multiset(Bounded(own, k))| + |multiset(Bounded(foreign, k))|;
  }

  /** In chain order, the rows up to a position are a prefix. */
  lemma {:induction false} BoundedOfOrdered(table: seq<Row>, k: nat)
    requires InChainOrder(table)
    ensures |Bounded(table, k)| <= |table| && Bounded(table, k) == table[..|Bounded(table, k)|]
    decreases |table|
  {
    if table != [] {
      if table[0].chainSeq <= k {
        BoundedOfOrdered(table[1..], k);
      } else {
        BoundedIsPrefix(table, 0, k);
      }
    }
  }

  ghost predicate CountsUp(rows: seq<Row>) {
    forall i :: 0 <= i < |rows| ==> rows[i].chainSeq == i + 1
  }

  lemma {:induction false} BoundedCountsUp(rows: seq<Row>, k: nat)
    requires CountsUp(rows) && k <= |rows|
    ensures Bounded(rows, k) == rows[..k]
  {
    BoundedIsPrefix(rows, k, k);
  }

  lemma {:induction false} PrefixOfMerge(table: seq<Row>, own: seq<Row>, foreign: seq<Row>, k: nat)
    requires Merges(table, own, foreign) && CountsUp(own) && k <= |own| && Bounded(foreign, k) == []
    ensures k <= |table| && Bounded(table, k) == table[..k] && multiset(table[..k]) == multiset(own[..k])
  {
    BoundedMerges(table, own, foreign, k);
    BoundedCountsUp(own, k);
    BoundedOfOrdered(table, k);
    assert |multiset(table)| == |multiset(own)| + |multiset(foreign)|;
  }

  lemma {:induction false} NoneEarlier(rows: seq<Row>, j: nat, k: nat)
    requires j <= k && Bounded(rows, k) == []
    ensures Bounded(rows, j) == []
  {
    if rows != [] {
      NoneEarlier(rows[1..], j, k);
    }
  }

  /** While no foreign row has one of the first k positions, the first k rows read are the tenant's own. */
  lemma {:induction false} OwnRowsComeFirst(table: seq<Row>, own: seq<Row>, foreign: seq<Row>, k: nat)
    requires Merges(table, own, foreign) && CountsUp(own) && k <= |own| && Bounded(foreign, k) == []
    ensures k <= |table| && table[..k] == own[..k]
    decreases k
  {
    PrefixOfMerge(table, own, foreign, k);
    if k > 0 {
      NoneEarlier(foreign, k - 1, k);
      OwnRowsComeFirst(table, own, foreign, k - 1);
      assert table[..k] == table[..k - 1] + [table[k - 1]] && own[..k] == own[..k - 1] + [own[k - 1]];
      assert multiset(table[..k]) == multiset(own[..k - 1]) + multiset{table[k - 1]};
      assert multiset(own[..k]) == multiset(own[..k - 1]) + multiset{own[k - 1]};
      SameLast(multiset(own[..k - 1]), table[k - 1], own[k - 1]);
    }
  }

  lemma {:induction false} SameLast(m: multiset<Row>, a: Row, b: Row)
    requires m + multiset{a} == m + multiset{b}
    ensures a == b
  {
    assert (m + multiset{a})[a] == m[a] + 1;
  }

  /** A foreign row has the position of the last row under a cap that the tenant's own rows fill. */
  ghost predicate TiesAtTheCap(foreign: seq<Row>, n: nat, rowCap: nat) {
    n == rowCap && exists f :: f in foreign && f.chainSeq == n
  }

  lemma {:induction false} FirstPositions(table: seq<Row>, n: nat)
    requires InChainOrder(table) && 1 <= n <= |table|
    requires forall i :: 0 <= i < n ==> table[i].chainSeq == i + 1
    ensures |Bounded(table, n - 1)| == n - 1
  {
    forall i | 0 <= i < |table|
      ensures i < n - 1 <==> table[i].chainSeq <= n - 1
    {
      if i >= n {
        assert table[n - 1].chainSeq <= table[i].chainSeq;
      }
    }
    BoundedIsPrefix(table, n - 1, n - 1);
  }

  lemma {:induction false} NoForeignRowBelow(table: seq<Row>, own: seq<Row>, foreign: seq<Row>, n: nat)
    requires Merges(table, own, foreign) && CountsUp(own) && 1 <= n <= |own| && n <= |table|
    requires forall i :: 0 <= i < n ==> table[i].chainSeq == i + 1
    ensures Bounded(foreign, n - 1) == []
  {
    FirstPositions(table, n);
    BoundedMerges(table, own, foreign, n - 1);
    BoundedCountsUp(own, n - 1);
  }

  lemma {:induction false} BeyondIf(rows: seq<Row>, k: nat, r: Row)
    requires Bounded(rows, k) == [] && r in rows
    ensures r.chainSeq > k
  {
    BoundedRows(rows, k);
    assert r !in Bounded(rows, k);
  }

  lemma {:induction false} PassingMeansNoForeignRow(h: HashFunction, table: seq<Row>, own: seq<Row>, foreign: seq<Row>, anchor: Anchor, rowCap: nat)
    requires Merges(table, own, foreign) && CountsUp(own) && anchor.chainSeq <= |own|
    requires LinksToGenesisFirst(table) && CheckTenant(h, table, anchor, rowCap).ok
    requires !TiesAtTheCap(foreign, anchor.chainSeq, rowCap)
    ensures anchor.chainSeq <= rowCap && Bounded(foreign, anchor.chainSeq) == []
  {
    var n := anchor.chainSeq;
    PassingSliceIsFull(h, table, anchor, rowCap);
    BoundedMerges(table, own, foreign, n);
    BoundedCountsUp(own, n);
    if Bounded(foreign, n) != [] {
      BoundedRows(foreign, n);
      BoundedOfOrdered(table, n);
      var f := Bounded(foreign, n)[0];
      assert f in Bounded(foreign, n);
      forall i | 0 <= i < n
        ensures table[i].chainSeq == i + 1
      {
        assert table[i] == Slice(table, n, rowCap)[i];
      }
      NoForeignRowBelow(table, own, foreign, n);
      BeyondIf(foreign, n - 1, f);
    }
  }

  lemma {:induction false} MergedLinks(table: seq<Row>, own: seq<Row>, foreign: seq<Row>)
    requires Merges(table, own, foreign) && LinksToGenesisFirst(own) && LinksToGenesisFirst(foreign)
    ensures LinksToGenesisFirst(table)
  {
    forall i | 0 <= i < |table| && table[i].prevHash == Some(Genesis)
      ensures table[i].chainSeq == 1
    {
      assert table[i] in multiset(table);
      assert table[i] in own || table[i] in foreign;
    }
  }

  lemma {:induction false} DeliveredCountsUp(h: HashFunction, entries: seq<Entry>)
    ensures CountsUp(DeliverAll(h, entries).rows)
  {
    DeliveredShape(h, entries);
    var rows := DeliverAll(h, entries).rows;
    forall i | 0 <= i < |rows|
      ensures rows[i].chainSeq == i + 1
    {
      assert Written(h, rows, i, entries[i]);
    }
  }

  /**
   After rows of another chain were filed under a tenant, its check passes exactly if it would have
   passed before and every foreign row lies beyond the anchor.  Only where the tenant's own rows fill
   the row cap and a foreign row has the last position does the answer hang on the order of the tie.
   */
  lemma {:induction false} JoinedTenantPassesIff(
    h: HashFunction, entries: seq<Entry>, later: seq<Entry>, foreign: seq<Row>, table: seq<Row>, rowCap: nat)
    requires LinksToGenesisFirst(foreign) && Merges(table, DeliverAll(h, entries + later).rows, foreign)
    requires !TiesAtTheCap(foreign, |entries|, rowCap)
    ensures CheckTenant(h, table, DeliverAll(h, entries).anchor, rowCap).ok
            <==> 1 <= |entries| <= rowCap && InTimeOrder(entries) && forall f :: f in foreign ==> f.chainSeq > |entries|
  {
    var own, anchor := DeliverAll(h, entries + later).rows, DeliverAll(h, entries).anchor;
    DeliveredShape(h, entries);
    DeliveredShape(h, entries + later);
    DeliveredCountsUp(h, entries + later);
    DeliveredLinks(h, entries + later);
    MergedLinks(table, own, foreign);
    BoundedRows(foreign, |entries|);
    var passes := CheckTenant(h, table, anchor, rowCap).ok;
    if passes {
      PassingMeansNoForeignRow(h, table, own, foreign, anchor, rowCap);
    }
    if forall f :: f in foreign ==> f.chainSeq > |entries| {
      NoneBounded(foreign, |entries|);
    }
    if Bounded(foreign, |entries|) == [] {
      OwnRowsComeFirst(table, own, foreign, |entries|);
      PrefixOfMerge(table, own, foreign, |entries|);
      SliceIsWhatTheAnchorCovers(h, entries, later);
      BoundedCountsUp(own, |entries|);
      assert Slice(table, |entries|, rowCap) == Slice(own, |entries|, rowCap);
      HonestChainPassesIff(h, entries, later, rowCap);
      assert forall f :: f in foreign ==> f !in Bounded(foreign, |entries|);
    }
  }

  lemma {:induction false} NoneBounded(rows: seq<Row>, k: nat)
    requires forall r :: r in rows ==> r.chainSeq > k
    ensures Bounded(rows, k) == []
  {
    if rows != [] {
      assert rows[0] in rows;
      NoneBounded(rows[1..], k);
    }
  }

  // ----- both tenants ----------------------------------------------------------------------------------------

  /**
   Both tenants pass their checks after the migration exactly if both passed before it and it moved
   no chained row at all.
   */
  lemma {:induction false} BothTenantsPassIff(
    h: HashFunction, left: seq<Entry>, joined: seq<Entry>, user: nat, table: seq<Row>, rowCap: nat)
    requires Merges(table, DeliverAll(h, joined).rows, Leaving(DeliverAll(h, left).rows, user))
    ensures var from, to := DeliverAll(h, left), DeliverAll(h, joined);
            CheckTenant(h, Staying(from.rows, user), from.anchor, rowCap).ok && CheckTenant(h, table, to.anchor, rowCap).ok
            <==> && CheckTenant(h, from.rows, from.anchor, rowCap).ok && CheckTenant(h, to.rows, to.anchor, rowCap).ok
                 && NoneBy(left, user)
  {
    assert left + [] == left && joined + [] == joined;
    LeftTenantPassesIff(h, left, user, rowCap);
    HonestChainPassesIff(h, left, [], rowCap);
    HonestChainPassesIff(h, joined, [], rowCap);
    if NoneBy(left, user) {
      NothingLeavesIff(h, left, user);
      JoinedTenantPassesIff(h, joined, [], [], table, rowCap);
    }
  }

  /** A foreign row at a position the anchor covers fails the check, wherever it is read. */
  lemma {:induction false} ForeignRowFailsTheCheck(h: HashFunction, joined: seq<Entry>, left: seq<Entry>, table: seq<Row>, rowCap: nat)
    requires 1 == |left| == |joined| < rowCap && Merges(table, DeliverAll(h, joined).rows, DeliverAll(h, left).rows)
    ensures !CheckTenant(h, table, DeliverAll(h, joined).anchor, rowCap).ok
  {
    assert joined + [] == joined;
    OneRowOf(h, left);
    DeliveredLinks(h, left);
    assert DeliverAll(h, left).rows[0] in DeliverAll(h, left).rows;
    JoinedTenantPassesIff(h, joined, [], DeliverAll(h, left).rows, table, rowCap);
  }

  lemma {:induction false} MovedRowFailsTheLeftCheck(h: HashFunction, entries: seq<Entry>, rowCap: nat)
    requires |entries| == 1 <= rowCap
    ensures var c := DeliverAll(h, entries);
            && CheckTenant(h, c.rows, c.anchor, rowCap).ok
            && Leaving(c.rows, entries[0].unhashed.user) == c.rows
            && !CheckTenant(h, Staying(c.rows, entries[0].unhashed.user), c.anchor, rowCap).ok
  {
    assert entries + [] == entries;
    HonestChainPassesIff(h, entries, [], rowCap);
    LeftTenantPassesIff(h, entries, entries[0].unhashed.user, rowCap);
    OneRowOf(h, entries);
    assert DeliverAll(h, entries).rows[1..] == [];
  }

  /** Two chains of one event each, both passing; moving the one row fails both checks, however the tie is read. */
  lemma {:induction false} OneMovedRowFailsBothChecks(h: HashFunction, left: seq<Entry>, joined: seq<Entry>, rowCap: nat)
    requires 1 == |left| == |joined| < rowCap
    ensures var from, to, user := DeliverAll(h, left), DeliverAll(h, joined), left[0].unhashed.user;
            && CheckTenant(h, from.rows, from.anchor, rowCap).ok && CheckTenant(h, to.rows, to.anchor, rowCap).ok
            && Leaving(from.rows, user) == from.rows
            && !CheckTenant(h, Staying(from.rows, user), from.anchor, rowCap).ok
            && !CheckTenant(h, to.rows + from.rows, to.anchor, rowCap).ok
            && !CheckTenant(h, from.rows + to.rows, to.anchor, rowCap).ok
  {
    var from, to := DeliverAll(h, left), DeliverAll(h, joined);
    MovedRowFailsTheLeftCheck(h, left, rowCap);
    MovedRowFailsTheLeftCheck(h, joined, rowCap);
    OneRowOf(h, left);
    OneRowOf(h, joined);
    PairMerges(to.rows, from.rows);
    PairMerges(from.rows, to.rows);
    ForeignRowFailsTheCheck(h, joined, left, to.rows + from.rows, rowCap);
    ForeignRowFailsTheCheck(h, joined, left, from.rows + to.rows, rowCap);
  }

  lemma {:induction false} PairMerges(a: seq<Row>, b: seq<Row>)
    requires 1 == |a| == |b| && a[0].chainSeq == b[0].chainSeq
    ensures Merges(a + b, a, b) && Merges(a + b, b, a)
  {
  }

  lemma {:induction false} OneRowOf(h: HashFunction, entries: seq<Entry>)
    requires |entries| == 1
    ensures var rows := DeliverAll(h, entries).rows;
            |rows| == 1 && rows[0].chainSeq == 1 && rows[0].unhashed == entries[0].unhashed
  {
    DeliveredShape(h, entries);
    assert Written(h, DeliverAll(h, entries).rows, 0, entries[0]);
  }
}
