/**
 The audit log's hash chain: how the outbox worker extends it, how the verifier walks it, and what
 a clean verdict proves.
 */
module AuditChain {
  import opened Prelude

  type Time = int

  /** A stored hash: the one-byte genesis seed, or a 32-byte digest. */
  datatype Hash = Genesis | Digest(value: nat)

  datatype Metadata = Null | Scalar(text: string) | Array(items: seq<string>) | Object(fields: map<string, string>)

  /** What of the metadata is hashed: an object or an array as it is, anything else as an empty object. */
  datatype Payload = Fields(fields: map<string, string>) | Items(items: seq<string>)

  /** Everything that is hashed into a row, the previous hash included. */
  datatype ChainInput = ChainInput(id: string, createdAt: Time, chainSeq: int, prevHash: Hash, payload: Payload)

  /** The columns no hash covers: the acting user, and scope, action, actor, team, target, address and agent. */
  datatype Unhashed = Unhashed(user: nat, others: string)

  datatype Row = Row(
    id: string, createdAt: Time, chainSeq: int, eventHash: Hash, prevHash: Option<Hash>, metadata: Metadata, unhashed: Unhashed)

  /** The digest of a chain input: canonicalisation followed by SHA-256. */
  type HashFunction = ChainInput -> nat

  function PayloadOf(m: Metadata): Payload {
    match m
    case Object(fields) => Fields(fields)
    case Array(items) => Items(items)
    case _ => Fields(map[])
  }

  function InputOf(row: Row, prev: Hash): ChainInput {
    ChainInput(row.id, row.createdAt, row.chainSeq, prev, PayloadOf(row.metadata))
  }

  // ----- the walk --------------------------------------------------------------------------------------

  /** The verifier's loop variables. */
  datatype Walk = Walk(
    prevHash: Hash,
    prevSeq: Option<int>,
    prevCreatedAt: Option<Time>,
    verified: nat,
    tampered: Option<int>,
    gapAfter: Option<int>,
    timestamp: Option<int>,
    brokenLink: Option<int>)

  function Start(seed: Hash): Walk {
    Walk(seed, None, None, 0, None, None, None, None)
  }

  function Once(first: Option<int>, found: bool, value: int): Option<int> {
    if first.None? && found then Some(value) else first
  }

  /** One iteration; after a tampered row the loop has ended. */
  function Visit(h: HashFunction, w: Walk, row: Row): Walk {
    if w.tampered.Some? then w
    else
      var gap := Once(w.gapAfter, w.prevSeq.Some? && row.chainSeq != w.prevSeq.value + 1, if w.prevSeq.Some? then w.prevSeq.value else 0);
      var late := Once(w.timestamp, w.prevCreatedAt.Some? && row.createdAt < w.prevCreatedAt.value, row.chainSeq);
      var broken := Once(w.brokenLink, row.prevHash != Some(w.prevHash), row.chainSeq);
      if row.eventHash != Digest(h(InputOf(row, w.prevHash))) then
        w.(gapAfter := gap, timestamp := late, brokenLink := broken, tampered := Some(row.chainSeq))
      else
        Walk(row.eventHash, Some(row.chainSeq), Some(row.createdAt), w.verified + 1, None, gap, late, broken)
  }

  function WalkRows(h: HashFunction, seed: Hash, rows: seq<Row>): Walk {
    if rows == [] then Start(seed) else Visit(h, WalkRows(h, seed, rows[..|rows| - 1]), rows[|rows| - 1])
  }

  // ----- the verdict ------------------------------------------------------------------------------------

  datatype Reason =
    TamperDetected | GapDetected | TimestampViolation | AnchorHashMismatch | AnchorMissing | Truncated | RangeIncomplete

  datatype Request = Request(
    rows: seq<Row>, seed: Hash, fromSeq: int, toSeq: int, anchor: Option<Hash>, anchorComparable: bool, rowCap: nat)

  datatype Outcome = Outcome(
    ok: bool, reason: Option<Reason>, verified: nat, truncated: bool, incomplete: bool, anchorChecked: bool,
    tampered: Option<int>, gapAfter: Option<int>, timestamp: Option<int>, brokenLink: Option<int>)

  function Verdict(w: Walk, q: Request): Outcome {
    var covered := if w.prevSeq.Some? then w.prevSeq.value else q.fromSeq - 1;
    var incomplete := q.fromSeq > q.toSeq || covered < q.toSeq;
    var truncated := |q.rows| >= q.rowCap && incomplete;
    var anchorChecked := q.anchorComparable && q.anchor.Some? && !incomplete;
    var anchorMismatch := anchorChecked && q.anchor != Some(w.prevHash);
    var integrityOk := w.tampered.None? && w.gapAfter.None? && w.timestamp.None? && w.brokenLink.None? && !anchorMismatch;
    var ok := integrityOk && !incomplete;
    var reason :=
      if ok then None
      else if w.tampered.Some? then Some(TamperDetected)
      else if anchorMismatch then Some(AnchorHashMismatch)
      else if w.brokenLink.Some? then Some(TamperDetected)
      else if w.gapAfter.Some? then Some(GapDetected)
      else if w.timestamp.Some? then Some(TimestampViolation)
      else if truncated then Some(Truncated)
      else Some(RangeIncomplete);
    Outcome(ok, reason, w.verified, truncated, incomplete, anchorChecked, w.tampered, w.gapAfter, w.timestamp, w.brokenLink)
  }

  /** verifyChainRows: the loop, with its early exit at the first tampered row. */
  method VerifyChainRows(h: HashFunction, q: Request) returns (o: Outcome)
    ensures o == Verdict(WalkRows(h, q.seed, q.rows), q)
  {
    var prevHash, verified := q.seed, 0;
    var prevSeq: Option<int> := None;
    var prevCreatedAt: Option<Time> := None;
    var tampered: Option<int>, gapAfter: Option<int>, timestamp: Option<int>, brokenLink: Option<int> := None, None, None, None;
    var i := 0;
    while i < |q.rows| && tampered.None?
      invariant 0 <= i <= |q.rows|
      invariant WalkRows(h, q.seed, q.rows[..i]) == Walk(prevHash, prevSeq, prevCreatedAt, verified, tampered, gapAfter, timestamp, brokenLink)
    {
      var row := q.rows[i];
      assert q.rows[..i + 1][..i] == q.rows[..i];
      if prevSeq.Some? && gapAfter.None? && row.chainSeq != prevSeq.value + 1 {
        gapAfter := prevSeq;
      }
      if prevCreatedAt.Some? && row.createdAt < prevCreatedAt.value && timestamp.None? {
        timestamp := Some(row.chainSeq);
      }
      if brokenLink.None? && (row.prevHash.None? || row.prevHash.value != prevHash) {
        brokenLink := Some(row.chainSeq);
      }
      var computed := h(InputOf(row, prevHash));
      if row.eventHash != Digest(computed) {
        tampered := Some(row.chainSeq);
      } else {
        prevHash := row.eventHash;
        prevSeq, prevCreatedAt := Some(row.chainSeq), Some(row.createdAt);
        verified := verified + 1;
      }
      i := i + 1;
    }
    var w := Walk(prevHash, prevSeq, prevCreatedAt, verified, tampered, gapAfter, timestamp, brokenLink);
    assert WalkRows(h, q.seed, q.rows) == w by {
      TamperedWalkStops(h, q.seed, q.rows, i);
      assert q.rows[..|q.rows|] == q.rows;
    }
    o := Verdict(w, q);
  }

  lemma {:induction false} TamperedWalkStops(h: HashFunction, seed: Hash, rows: seq<Row>, i: nat)
    requires i <= |rows| && (i == |rows| || WalkRows(h, seed, rows[..i]).tampered.Some?)
    ensures WalkRows(h, seed, rows) == WalkRows(h, seed, rows[..i])
    decreases |rows| - i
  {
    if i == |rows| {
      assert rows[..i] == rows;
    } else {
      assert rows[..i + 1][..i] == rows[..i];
      TamperedWalkStops(h, seed, rows, i + 1);
    }
  }

  // ----- what a clean verdict means -----------------------------------------------------------------------

  /** The hash row i must chain from. */
  function PrevOf(seed: Hash, rows: seq<Row>, i: nat): Hash
    requires i <= |rows|
  {
    if i == 0 then seed else rows[i - 1].eventHash
  }

  /** Row i is hashed and linked correctly and follows its predecessor in number and time. */
  ghost predicate RowIntact(h: HashFunction, seed: Hash, rows: seq<Row>, i: nat)
    requires i < |rows|
  {
    var prev := PrevOf(seed, rows, i);
    && rows[i].eventHash == Digest(h(InputOf(rows[i], prev)))
    && rows[i].prevHash == Some(prev)
    && (i > 0 ==> rows[i].chainSeq == rows[i - 1].chainSeq + 1 && rows[i - 1].createdAt <= rows[i].createdAt)
  }

  ghost predicate RowsIntact(h: HashFunction, seed: Hash, rows: seq<Row>) {
    forall i :: 0 <= i < |rows| ==> RowIntact(h, seed, rows, i)
  }

  lemma {:induction false} CleanWalk(h: HashFunction, seed: Hash, rows: seq<Row>)
    ensures var w := WalkRows(h, seed, rows);
            && (w.tampered.None? && w.gapAfter.None? && w.timestamp.None? && w.brokenLink.None? <==> RowsIntact(h, seed, rows))
            && (w.tampered.None? ==>
                  && w.prevHash == PrevOf(seed, rows, |rows|)
                  && w.verified == |rows|
                  && w.prevSeq == (if rows == [] then None else Some(rows[|rows| - 1].chainSeq))
                  && w.prevCreatedAt == (if rows == [] then None else Some(rows[|rows| - 1].createdAt)))
    decreases |rows|
  {
    if rows != [] {
      var n := |rows| - 1;
      var init := rows[..n];
      CleanWalk(h, seed, init);
      assert RowsIntact(h, seed, rows) <==> RowsIntact(h, seed, init) && RowIntact(h, seed, rows, n) by {
        forall i | 0 <= i < n
          ensures RowIntact(h, seed, rows, i) <==> RowIntact(h, seed, init, i)
        {
          assert rows[i] == init[i];
        }
        if RowsIntact(h, seed, rows) {
          assert RowIntact(h, seed, rows, n);
          forall i | 0 <= i < |init|
            ensures RowIntact(h, seed, init, i)
          {
            assert RowIntact(h, seed, rows, i);
          }
        }
      }
    }
  }

  /**
   The verdict is clean exactly when the rows are intact, reach the end of the requested range, and
   end in the anchor's head where the two are comparable.
   */
  lemma {:induction false} CleanVerdictIff(h: HashFunction, q: Request)
    ensures Verdict(WalkRows(h, q.seed, q.rows), q).ok <==>
              && RowsIntact(h, q.seed, q.rows)
              && q.rows != [] && q.fromSeq <= q.toSeq <= q.rows[|q.rows| - 1].chainSeq
              && (q.anchorComparable && q.anchor.Some? ==> q.anchor == Some(q.rows[|q.rows| - 1].eventHash))
    ensures Verdict(WalkRows(h, q.seed, q.rows), q).ok <==> Verdict(WalkRows(h, q.seed, q.rows), q).reason.None?
  {
    CleanWalk(h, q.seed, q.rows);
  }

  // ----- tamper evidence ------------------------------------------------------------------------------------

  /** Two rows agree on the chain columns and on what is hashed; the other columns may differ. */
  predicate SameHashed(a: Row, b: Row) {
    && a.id == b.id && a.createdAt == b.createdAt && a.chainSeq == b.chainSeq
    && a.eventHash == b.eventHash && a.prevHash == b.prevHash
    && PayloadOf(a.metadata) == PayloadOf(b.metadata)
  }

  ghost predicate SameHashedColumns(a: seq<Row>, b: seq<Row>) {
    |a| == |b| && forall i :: 0 <= i < |a| ==> SameHashed(a[i], b[i])
  }

  /** The walk sees only the hashed columns. */
  lemma {:induction false} SameHashedSameWalk(h: HashFunction, seed: Hash, a: seq<Row>, b: seq<Row>)
    requires SameHashedColumns(a, b)
    ensures WalkRows(h, seed, a) == WalkRows(h, seed, b)
    decreases |a|
  {
    if a != [] {
      var n := |a| - 1;
      SameHashedSameWalk(h, seed, a[..n], b[..n]);
      assert SameHashed(a[n], b[n]);
    }
  }

  /** What is hashed for row i of a chain from genesis. */
  ghost function InputAt(rows: seq<Row>, i: nat): ChainInput
    requires i < |rows|
  {
    InputOf(rows[i], PrevOf(Genesis, rows, i))
  }

  /** Row i of one chain and row j of the other are two different inputs with one hash. */
  ghost predicate CollideAt(h: HashFunction, a: seq<Row>, b: seq<Row>, i: nat, j: nat)
    requires i < |a| && j < |b|
  {
    InputAt(a, i) != InputAt(b, j) && h(InputAt(a, i)) == h(InputAt(b, j))
  }

  /** Two chains hold, between them, a colliding pair of hashed inputs. */
  ghost predicate ExhibitCollision(h: HashFunction, a: seq<Row>, b: seq<Row>) {
    exists i, j :: 0 <= i < |a| && 0 <= j < |b| && CollideAt(h, a, b, i, j)
  }

  lemma {:induction false} OnlyEmptyEndsAtGenesis(h: HashFunction, rows: seq<Row>)
    requires RowsIntact(h, Genesis, rows)
    ensures PrevOf(Genesis, rows, |rows|) == Genesis <==> rows == []
  {
    if rows != [] {
      assert RowIntact(h, Genesis, rows, |rows| - 1);
    }
  }

  /**
   Two intact chains from genesis that end in the same hash agree on every hashed column, or two of
   the inputs they hash collide.
   */
  lemma {:induction false} SameHeadSameChain(h: HashFunction, a: seq<Row>, b: seq<Row>)
    requires RowsIntact(h, Genesis, a) && RowsIntact(h, Genesis, b)
    requires PrevOf(Genesis, a, |a|) == PrevOf(Genesis, b, |b|)
    ensures SameHashedColumns(a, b) || ExhibitCollision(h, a, b)
    decreases |a|
  {
    if a == [] || b == [] {
      OnlyEmptyEndsAtGenesis(h, a);
      OnlyEmptyEndsAtGenesis(h, b);
    } else {
      var m, n := |a| - 1, |b| - 1;
      assert RowIntact(h, Genesis, a, m) && RowIntact(h, Genesis, b, n);
      assert h(InputAt(a, m)) == h(InputAt(b, n));
      if InputAt(a, m) == InputAt(b, n) {
        InitIntact(h, a);
        InitIntact(h, b);
        SameHeadSameChain(h, a[..m], b[..n]);
        if ExhibitCollision(h, a[..m], b[..n]) {
          CollisionIsKept(h, a, b, m, n);
        } else {
          assert forall i :: 0 <= i < m ==> a[i] == a[..m][i] && b[i] == b[..n][i];
        }
      } else {
        assert CollideAt(h, a, b, m, n);
      }
    }
  }

  lemma {:induction false} CollisionIsKept(h: HashFunction, a: seq<Row>, b: seq<Row>, m: nat, n: nat)
    requires m <= |a| && n <= |b| && ExhibitCollision(h, a[..m], b[..n])
    ensures ExhibitCollision(h, a, b)
  {
    var i, j :| 0 <= i < m && 0 <= j < n && CollideAt(h, a[..m], b[..n], i, j);
    assert InputAt(a[..m], i) == InputAt(a, i) && InputAt(b[..n], j) == InputAt(b, j);
    assert CollideAt(h, a, b, i, j);
  }

  lemma {:induction false} InitIntact(h: HashFunction, rows: seq<Row>)
    requires RowsIntact(h, Genesis, rows) && rows != []
    ensures RowsIntact(h, Genesis, rows[..|rows| - 1])
  {
    var init := rows[..|rows| - 1];
    forall i | 0 <= i < |init|
      ensures RowIntact(h, Genesis, init, i)
    {
      assert RowIntact(h, Genesis, rows, i);
    }
  }

  /**
   Tamper evidence.  If what is in the table now and what was once written both verify against the
   same anchor, then they agree on the hashed columns, or an input hashed now collides with one that
   was hashed when writing.
   */
  lemma {:induction false} CleanVerdictIsUnforgeable(h: HashFunction, written: Request, found: Request)
    requires written.seed == Genesis && found.seed == Genesis
    requires written.anchorComparable && found.anchorComparable && written.anchor.Some? && written.anchor == found.anchor
    requires Verdict(WalkRows(h, Genesis, written.rows), written).ok
    requires Verdict(WalkRows(h, Genesis, found.rows), found).ok
    ensures SameHashedColumns(written.rows, found.rows) || ExhibitCollision(h, written.rows, found.rows)
  {
    CleanVerdictIff(h, written);
    CleanVerdictIff(h, found);
    SameHeadSameChain(h, written.rows, found.rows);
  }

  /**
   Short of a collision, the edits, deletions and insertions that a clean table survives are exactly
   those that leave the hashed columns of every row as they were.
   */
  lemma {:induction false} EditGoesUnseenIff(h: HashFunction, written: Request, rows: seq<Row>)
    requires written.seed == Genesis && written.anchorComparable && written.anchor.Some?
    requires Verdict(WalkRows(h, Genesis, written.rows), written).ok
    requires !ExhibitCollision(h, written.rows, rows)
    ensures Verdict(WalkRows(h, Genesis, rows), written.(rows := rows)).ok <==> SameHashedColumns(written.rows, rows)
  {
    var found := written.(rows := rows);
    if Verdict(WalkRows(h, Genesis, rows), found).ok {
      CleanVerdictIsUnforgeable(h, written, found);
    }
    if SameHashedColumns(written.rows, rows) {
      SameHashedSameWalk(h, Genesis, written.rows, rows);
    }
  }

  // ----- the writer and the worker's check ---------------------------------------------------------------------

  /** What is delivered: the new row's id, the business time of the event, its metadata and its other columns. */
  datatype Entry = Entry(id: string, createdAt: Time, metadata: Metadata, unhashed: Unhashed)

  /** The outbox payload parser keeps objects and arrays and turns every other metadata into null. */
  function Parsed(m: Metadata): Metadata {
    if m.Object? || m.Array? then m else Null
  }

  /** A tenant's anchor row: the last chain position and its hash. */
  datatype Anchor = Anchor(chainSeq: nat, head: Hash)

  datatype Chain = Chain(rows: seq<Row>, anchor: Anchor)

  /** deliverRowWithChain: hash the event onto the anchor's head, insert it, advance the anchor. */
  function Deliver(h: HashFunction, c: Chain, e: Entry): Chain {
    var chainSeq := c.anchor.chainSeq + 1;
    var hash := Digest(h(ChainInput(e.id, e.createdAt, chainSeq, c.anchor.head, PayloadOf(Parsed(e.metadata)))));
    Chain(c.rows + [Row(e.id, e.createdAt, chainSeq, hash, Some(c.anchor.head), Parsed(e.metadata), e.unhashed)], Anchor(chainSeq, hash))
  }

  function DeliverAll(h: HashFunction, entries: seq<Entry>): Chain {
    if entries == [] then Chain([], Anchor(0, Genesis))
    else Deliver(h, DeliverAll(h, entries[..|entries| - 1]), entries[|entries| - 1])
  }

  /** Rows up to the anchor, in chain order, at most rowCap of them. */
  function Slice(rows: seq<Row>, anchorSeq: nat, rowCap: nat): seq<Row> {
    var bounded := Bounded(rows, anchorSeq);
    if |bounded| <= rowCap then bounded else bounded[..rowCap]
  }

  function Bounded(rows: seq<Row>, anchorSeq: nat): seq<Row> {
    if rows == [] then [] else (if rows[0].chainSeq <= anchorSeq then [rows[0]] else []) + Bounded(rows[1..], anchorSeq)
  }

  /** verifyTenantChain, for a tenant that has an anchor. */
  function CheckTenant(h: HashFunction, table: seq<Row>, anchor: Anchor, rowCap: nat): Outcome {
    var q := Request(Slice(table, anchor.chainSeq, rowCap), Genesis, 1, anchor.chainSeq, Some(anchor.head), true, rowCap);
    Verdict(WalkRows(h, Genesis, q.rows), q)
  }

  /** Row i is what delivering `e` at that position writes. */
  ghost predicate Written(h: HashFunction, rows: seq<Row>, i: nat, e: Entry)
    requires i < |rows|
  {
    var prev := PrevOf(Genesis, rows, i);
    && rows[i].chainSeq == i + 1 && rows[i].createdAt == e.createdAt
    && rows[i].id == e.id && rows[i].metadata == Parsed(e.metadata) && rows[i].unhashed == e.unhashed
    && rows[i].prevHash == Some(prev)
    && rows[i].eventHash == Digest(h(InputOf(rows[i], prev)))
  }

  ghost predicate Shape(h: HashFunction, c: Chain, entries: seq<Entry>) {
    && |c.rows| == |entries| && c.anchor.chainSeq == |entries|
    && c.anchor.head == PrevOf(Genesis, c.rows, |c.rows|)
    && forall i :: 0 <= i < |entries| ==> Written(h, c.rows, i, entries[i])
  }

  lemma {:induction false} DeliverKeepsShape(h: HashFunction, c: Chain, entries: seq<Entry>, e: Entry)
    requires Shape(h, c, entries)
    ensures Shape(h, Deliver(h, c, e), entries + [e])
  {
    var rows := Deliver(h, c, e).rows;
    forall i | 0 <= i < |entries|
      ensures Written(h, rows, i, (entries + [e])[i])
    {
      assert Written(h, c.rows, i, entries[i]);
      assert rows[i] == c.rows[i] && PrevOf(Genesis, rows, i) == PrevOf(Genesis, c.rows, i);
    }
    assert PrevOf(Genesis, rows, |entries|) == PrevOf(Genesis, c.rows, |entries|);
    assert Written(h, rows, |entries|, e);
  }

  lemma {:induction false} DeliveredShape(h: HashFunction, entries: seq<Entry>)
    ensures Shape(h, DeliverAll(h, entries), entries)
    decreases |entries|
  {
    if entries != [] {
      var n := |entries| - 1;
      DeliveredShape(h, entries[..n]);
      DeliverKeepsShape(h, DeliverAll(h, entries[..n]), entries[..n], entries[n]);
      assert entries == entries[..n] + [entries[n]];
    }
  }

  lemma {:induction false} DeliveredPrefix(h: HashFunction, entries: seq<Entry>, more: seq<Entry>)
    ensures DeliverAll(h, entries).rows <= DeliverAll(h, entries + more).rows
    decreases |more|
  {
    if more == [] {
      assert entries + more == entries;
    } else {
      var n := |more| - 1;
      assert (entries + more)[..|entries + more| - 1] == entries + more[..n];
      DeliveredPrefix(h, entries, more[..n]);
    }
  }

  lemma {:induction false} BoundedIsPrefix(rows: seq<Row>, p: nat, k: nat)
    requires p <= |rows|
    requires forall i :: 0 <= i < |rows| ==> (i < p <==> rows[i].chainSeq <= k)
    ensures Bounded(rows, k) == rows[..p]
    decreases |rows|
  {
    if rows != [] {
      BoundedIsPrefix(rows[1..], if p == 0 then 0 else p - 1, k);
    }
  }

  ghost predicate InTimeOrder(entries: seq<Entry>) {
    forall i :: 0 < i < |entries| ==> entries[i - 1].createdAt <= entries[i].createdAt
  }

  /**
   The worker's check of a chain that only the writer touched, read against an anchor that was
   already outrun by later deliveries: it passes exactly if the anchor covers at least one row, the
   rows up to it fit under the row cap, and their events were delivered in time order.
   */
  lemma {:induction false} HonestChainPassesIff(h: HashFunction, entries: seq<Entry>, later: seq<Entry>, rowCap: nat)
    ensures CheckTenant(h, DeliverAll(h, entries + later).rows, DeliverAll(h, entries).anchor, rowCap).ok
            <==> 1 <= |entries| <= rowCap && InTimeOrder(entries)
  {
    var c := DeliverAll(h, entries);
    var all := DeliverAll(h, entries + later).rows;
    DeliveredShape(h, entries);
    SliceIsWhatTheAnchorCovers(h, entries, later);
    var rows := Slice(all, |entries|, rowCap);
    var q := Request(rows, Genesis, 1, |entries|, Some(c.anchor.head), true, rowCap);
    CleanVerdictIff(h, q);
    if |entries| <= rowCap {
      IntactIffInOrder(h, entries);
      assert entries != [] ==> Written(h, c.rows, |entries| - 1, entries[|entries| - 1]);
    } else if rowCap > 0 {
      assert Written(h, c.rows, rowCap - 1, entries[rowCap - 1]);
    }
  }

  /** Rows appended after the anchor was read do not reach the walk. */
  lemma {:induction false} SliceIsWhatTheAnchorCovers(h: HashFunction, entries: seq<Entry>, later: seq<Entry>)
    ensures Bounded(DeliverAll(h, entries + later).rows, |entries|) == DeliverAll(h, entries).rows
  {
    var all := DeliverAll(h, entries + later).rows;
    DeliveredShape(h, entries);
    DeliveredShape(h, entries + later);
    DeliveredPrefix(h, entries, later);
    forall i | 0 <= i < |all|
      ensures i < |entries| <==> all[i].chainSeq <= |entries|
    {
      assert Written(h, all, i, (entries + later)[i]);
    }
    BoundedIsPrefix(all, |entries|, |entries|);
  }

  lemma {:induction false} RowIntactIff(h: HashFunction, entries: seq<Entry>, i: nat)
    requires i < |entries| && Shape(h, DeliverAll(h, entries), entries)
    ensures RowIntact(h, Genesis, DeliverAll(h, entries).rows, i) <==> (i > 0 ==> entries[i - 1].createdAt <= entries[i].createdAt)
  {
    var rows := DeliverAll(h, entries).rows;
    assert Written(h, rows, i, entries[i]);
    assert i > 0 ==> Written(h, rows, i - 1, entries[i - 1]);
  }

  lemma {:induction false} IntactIffInOrder(h: HashFunction, entries: seq<Entry>)
    ensures RowsIntact(h, Genesis, DeliverAll(h, entries).rows) <==> InTimeOrder(entries)
  {
    DeliveredShape(h, entries);
    var rows := DeliverAll(h, entries).rows;
    if RowsIntact(h, Genesis, rows) {
      forall i | 0 < i < |entries|
        ensures entries[i - 1].createdAt <= entries[i].createdAt
      {
        RowIntactIff(h, entries, i);
        assert RowIntact(h, Genesis, rows, i);
      }
    }
    if InTimeOrder(entries) {
      forall i | 0 <= i < |rows|
        ensures RowIntact(h, Genesis, rows, i)
      {
        RowIntactIff(h, entries, i);
      }
    }
  }

  /** Two events delivered in the wrong order: the chain is honest and does not pass. */
  lemma {:induction false} LateEventFailsTheCheck(h: HashFunction)
    ensures var entries := [Entry("a", 20, Null, Unhashed(7, "login")), Entry("b", 10, Null, Unhashed(7, "login"))];
            !CheckTenant(h, DeliverAll(h, entries).rows, DeliverAll(h, entries).anchor, 1000).ok
  {
    var entries := [Entry("a", 20, Null, Unhashed(7, "login")), Entry("b", 10, Null, Unhashed(7, "login"))];
    assert entries + [] == entries;
    assert entries[0].createdAt > entries[1].createdAt;
    HonestChainPassesIff(h, entries, [], 1000);
  }

  /** Editing only unhashed columns never changes what the worker's check reports. */
  lemma {:induction false} UnhashedEditsGoUnseen(h: HashFunction, a: seq<Row>, b: seq<Row>, anchor: Anchor, rowCap: nat)
    requires SameHashedColumns(a, b)
    ensures CheckTenant(h, a, anchor, rowCap) == CheckTenant(h, b, anchor, rowCap)
  {
    SameHashedSameBounded(a, b, anchor.chainSeq);
    SameHashedSameWalk(h, Genesis, Slice(a, anchor.chainSeq, rowCap), Slice(b, anchor.chainSeq, rowCap));
  }

  lemma {:induction false} SameHashedSameBounded(a: seq<Row>, b: seq<Row>, k: nat)
    requires SameHashedColumns(a, b)
    ensures SameHashedColumns(Bounded(a, k), Bounded(b, k))
    decreases |a|
  {
    if a != [] {
      SameHashedSameBounded(a[1..], b[1..], k);
      assert SameHashed(a[0], b[0]);
    }
  }

  /** A row that is made to name another user and another action still verifies, whatever the hash. */
  lemma {:induction false} RelabelledRowPasses(h: HashFunction)
    ensures var c := DeliverAll(h, [Entry("a", 20, Null, Unhashed(7, "login"))]);
            && |c.rows| == 1
            && var edited := [c.rows[0].(unhashed := Unhashed(8, "logout"))];
               edited != c.rows && CheckTenant(h, edited, c.anchor, 1000).ok
  {
    var entries := [Entry("a", 20, Null, Unhashed(7, "login"))];
    var c := DeliverAll(h, entries);
    DeliveredShape(h, entries);
    assert Written(h, c.rows, 0, entries[0]);
    var edited := [c.rows[0].(unhashed := Unhashed(8, "logout"))];
    assert edited[0] != c.rows[0];
    assert entries + [] == entries;
    HonestChainPassesIff(h, entries, [], 1000);
    UnhashedEditsGoUnseen(h, c.rows, edited, c.anchor, 1000);
  }
}
