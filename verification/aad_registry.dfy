/**
 The registry of encryption contexts.  Each builder names a scope and turns its arguments into
 fields; no two contexts, of one builder or of two, share their authenticated data.
 */
module AadRegistry {
  import opened Prelude
  import opened Utf8
  import opened Aad

  datatype VaultType = Blob | Overview
  datatype WebhookTable = TenantWebhook | TeamWebhook

  datatype Context =
    | Personal(userId: Text, entryId: Text, vaultType: VaultType)
    | Team(teamId: Text, entryId: Text, vaultType: VaultType, itemKeyVersion: nat)
    | ItemKey(teamId: Text, entryId: Text, teamKeyVersion: nat)
    | Attachment(entryId: Text, attachmentId: Text)
    | AttachmentWrap(entryId: Text, attachmentId: Text, cekKeyVersion: nat, cekWrapAadVersion: nat)
    | TeamKey(teamId: Text, toUserId: Text, keyVersion: nat, wrapVersion: nat)
    | AdminReset(tenantId: Text, resetId: Text, email: Text)
    | Emergency(grantId: Text, ownerId: Text, granteeId: Text, keyVersion: nat, wrapVersion: nat)
    | Webhook(table: WebhookTable, version: int, webhookId: Text, tenantId: Text, webhookTeam: Option<Text>)
    | AccountToken(userId: Text, provider: Text, providerAccountId: Text)

  // ----- the fields ----------------------------------------------------------------------------------------

  /** String(n) of a whole number. */
  function Decimal(n: nat): Text {
    if n < 10 then [0x30 + n] else Decimal(n / 10) + [0x30 + n % 10]
  }

  function VaultTypeText(v: VaultType): Text {
    match v
    case Blob => [0x62, 0x6C, 0x6F, 0x62]
    case Overview => [0x6F, 0x76, 0x65, 0x72, 0x76, 0x69, 0x65, 0x77]
  }

  function TableText(t: WebhookTable): Text {
    match t
    case TenantWebhook => [0x54, 0x65, 0x6E, 0x61, 0x6E, 0x74, 0x57, 0x65, 0x62, 0x68, 0x6F, 0x6F, 0x6B]
    case TeamWebhook => [0x54, 0x65, 0x61, 0x6D, 0x57, 0x65, 0x62, 0x68, 0x6F, 0x6F, 0x6B]
  }

  /** Two ASCII letters per builder. */
  function ScopeOf(c: Context): (s: Text)
    ensures IsScope(s)
  {
    match c
    case Personal(_, _, _) => [0x50, 0x56]
    case Team(_, _, _, _) => [0x4F, 0x56]
    case Attachment(_, _) => [0x41, 0x54]
    case ItemKey(_, _, _) => [0x49, 0x4B]
    case AttachmentWrap(_, _, _, _) => [0x41, 0x57]
    case TeamKey(_, _, _, _) => [0x4F, 0x4B]
    case AdminReset(_, _, _) => [0x41, 0x52]
    case Emergency(_, _, _, _, _) => [0x45, 0x4D]
    case Webhook(_, _, _, _, _) => [0x57, 0x48]
    case AccountToken(_, _, _) => [0x41, 0x43]
  }

  /** An empty team id counts as absent. */
  predicate HasTeam(team: Option<Text>) {
    team.Some? && team.value != []
  }

  /** The webhook builder's guards; every other builder takes all arguments. */
  predicate Accepts(c: Context) {
    c.Webhook? ==> c.version >= 1 && (c.table.TeamWebhook? <==> HasTeam(c.webhookTeam))
  }

  function FieldsOf(c: Context): seq<Text>
    requires Accepts(c)
  {
    match c
    case Personal(userId, entryId, vaultType) => [userId, entryId, VaultTypeText(vaultType)]
    case Team(teamId, entryId, vaultType, version) => [teamId, entryId, VaultTypeText(vaultType), Decimal(version)]
    case ItemKey(teamId, entryId, version) => [teamId, entryId, Decimal(version)]
    case Attachment(entryId, attachmentId) => [entryId, attachmentId]
    case AttachmentWrap(entryId, attachmentId, key, wrap) => [entryId, attachmentId, Decimal(key), Decimal(wrap)]
    case TeamKey(teamId, toUserId, key, wrap) => [teamId, toUserId, Decimal(key), Decimal(wrap)]
    case AdminReset(tenantId, resetId, email) => [tenantId, resetId, email]
    case Emergency(grantId, ownerId, granteeId, key, wrap) => [grantId, ownerId, granteeId, Decimal(key), Decimal(wrap)]
    case Webhook(table, version, webhookId, tenantId, team) =>
      [TableText(table), [0x76] + Decimal(version), webhookId, tenantId] + (if HasTeam(team) then [team.value] else [])
    case AccountToken(userId, provider, accountId) => [userId, provider, accountId]
  }

  /** The field count each builder announces. */
  function CountOf(c: Context): nat
    requires Accepts(c)
  {
    match c
    case Attachment(_, _) => 2
    case Personal(_, _, _) => 3
    case ItemKey(_, _, _) => 3
    case AdminReset(_, _, _) => 3
    case AccountToken(_, _, _) => 3
    case Team(_, _, _, _) => 4
    case AttachmentWrap(_, _, _, _) => 4
    case TeamKey(_, _, _, _) => 4
    case Emergency(_, _, _, _, _) => 5
    case Webhook(_, _, _, _, _) => |FieldsOf(c)|
  }

  /** The authenticated data of a context; None where the builder throws. */
  ghost function AadOf(c: Context): Option<seq<Byte>> {
    if !Accepts(c) then None
    else
      match Build(ScopeOf(c), CountOf(c), FieldsOf(c))
      case Refused(_) => None
      case Built(bytes) => Some(bytes)
  }

  /** A builder refuses its arguments only by the webhook guards or for a field over 65535 bytes. */
  lemma {:induction false} BuildsIff(c: Context)
    ensures AadOf(c).Some? <==> Accepts(c) && AllShort(EncodeAll(FieldsOf(c)))
    ensures AadOf(c).Some? ==> AadOf(c).value == Bytes(ScopeOf(c), FieldsOf(c))
  {
    if Accepts(c) {
      assert |FieldsOf(c)| == CountOf(c);
    }
  }

  // ----- no two contexts share their data -------------------------------------------------------------------------

  ghost function ValueOf(s: Text): int {
    if s == [] then 0 else ValueOf(s[..|s| - 1]) * 10 + Digit(s[|s| - 1])
  }

  ghost function Digit(u: int): int {
    u - 0x30
  }

  lemma {:induction false} DecimalValue(n: nat)
    ensures ValueOf(Decimal(n)) == n
  {
    var s := Decimal(n);
    if n < 10 {
      assert s[..0] == [];
    } else {
      DecimalValue(n / 10);
      assert s[..|s| - 1] == Decimal(n / 10);
    }
  }

  ghost predicate IsAscii(s: Text) {
    forall i :: 0 <= i < |s| ==> s[i] < 0x80
  }

  lemma {:induction false} DecimalIsAscii(n: nat)
    ensures IsAscii(Decimal(n))
  {
    if n >= 10 {
      DecimalIsAscii(n / 10);
    }
  }

  lemma {:induction false} AsciiIsUnchanged(s: Text)
    requires IsAscii(s)
    ensures Repaired(s) == s
  {
    forall i | 0 <= i < |s|
      ensures Partnered(s, i)
    {
    }
    WellFormedIsUnchanged(s);
  }

  lemma {:induction false} DecimalsDiffer(m: nat, n: nat)
    requires Decimal(m) == Decimal(n)
    ensures m == n
  {
    DecimalValue(m);
    DecimalValue(n);
  }

  ghost predicate AllWellFormed(fields: seq<Text>) {
    forall i :: 0 <= i < |fields| ==> WellFormed(fields[i])
  }

  lemma {:induction false} WellFormedFields(fields: seq<Text>)
    requires AllWellFormed(fields)
    ensures RepairedAll(fields) == fields
  {
    RepairedAllIs(fields);
    forall i | 0 <= i < |fields|
      ensures RepairedAll(fields)[i] == fields[i]
    {
      WellFormedIsUnchanged(fields[i]);
    }
  }

  /** A context with an empty webhook team id written as an absent one. */
  function Normal(c: Context): Context {
    if c.Webhook? && !HasTeam(c.webhookTeam) then c.(webhookTeam := None) else c
  }

  lemma {:induction false} SameAt(a: seq<Text>, b: seq<Text>, i: nat)
    requires a == b && i < |a|
    ensures a[i] == b[i]
  {
  }

  lemma {:induction false} VersionsDiffer(m: nat, n: nat)
    requires [0x76 as Unit] + Decimal(m) == [0x76] + Decimal(n)
    ensures m == n
  {
    assert ([0x76] + Decimal(m))[1..] == Decimal(m);
    assert ([0x76] + Decimal(n))[1..] == Decimal(n);
    DecimalsDiffer(m, n);
  }

  lemma {:induction false} VaultTypesDiffer(v: VaultType, w: VaultType)
    requires VaultTypeText(v) == VaultTypeText(w)
    ensures v == w
  {
    assert |VaultTypeText(v)| == |VaultTypeText(w)|;
  }

  lemma {:induction false} WebhookFieldsDiffer(a: Context, b: Context)
    requires a.Webhook? && b.Webhook? && Accepts(a) && Accepts(b) && FieldsOf(a) == FieldsOf(b)
    ensures Normal(a) == Normal(b)
  {
    SameAt(FieldsOf(a), FieldsOf(b), 0);
    SameAt(FieldsOf(a), FieldsOf(b), 1);
    SameAt(FieldsOf(a), FieldsOf(b), 2);
    SameAt(FieldsOf(a), FieldsOf(b), 3);
    assert |TableText(a.table)| == |TableText(b.table)|;
    VersionsDiffer(a.version, b.version);
    if HasTeam(a.webhookTeam) {
      SameAt(FieldsOf(a), FieldsOf(b), 4);
    }
  }

  lemma {:induction false} NumberedFieldsDiffer(a: Context, b: Context)
    requires (a.Team? && b.Team?) || (a.ItemKey? && b.ItemKey?) || (a.AttachmentWrap? && b.AttachmentWrap?)
          || (a.TeamKey? && b.TeamKey?) || (a.Emergency? && b.Emergency?)
    requires FieldsOf(a) == FieldsOf(b)
    ensures a == b
  {
    SameAt(FieldsOf(a), FieldsOf(b), 0);
    SameAt(FieldsOf(a), FieldsOf(b), 1);
    SameAt(FieldsOf(a), FieldsOf(b), 2);
    match a
    case Team(_, _, v, n) =>
      VaultTypesDiffer(v, b.vaultType);
      DecimalsDiffer(n, b.itemKeyVersion);
    case ItemKey(_, _, n) => DecimalsDiffer(n, b.teamKeyVersion);
    case AttachmentWrap(_, _, m, n) =>
      DecimalsDiffer(m, b.cekKeyVersion);
      DecimalsDiffer(n, b.cekWrapAadVersion);
    case TeamKey(_, _, m, n) =>
      DecimalsDiffer(m, b.keyVersion);
      DecimalsDiffer(n, b.wrapVersion);
    case Emergency(_, _, _, m, n) =>
      DecimalsDiffer(m, b.keyVersion);
      DecimalsDiffer(n, b.wrapVersion);
  }

  lemma {:induction false} PlainFieldsDiffer(a: Context, b: Context)
    requires (a.Personal? && b.Personal?) || (a.Attachment? && b.Attachment?) || (a.AdminReset? && b.AdminReset?)
          || (a.AccountToken? && b.AccountToken?)
    requires FieldsOf(a) == FieldsOf(b)
    ensures a == b
  {
    SameAt(FieldsOf(a), FieldsOf(b), 0);
    SameAt(FieldsOf(a), FieldsOf(b), 1);
    if a.Personal? {
      VaultTypesDiffer(a.vaultType, b.vaultType);
    }
  }

  lemma {:induction false} ContextsDiffer(a: Context, b: Context)
    requires Accepts(a) && Accepts(b) && ScopeOf(a) == ScopeOf(b) && FieldsOf(a) == FieldsOf(b)
    ensures Normal(a) == Normal(b)
  {
    assert ScopeOf(a)[0] == ScopeOf(b)[0] && ScopeOf(a)[1] == ScopeOf(b)[1];
    match a
    case Webhook(_, _, _, _, _) => WebhookFieldsDiffer(a, b);
    case Personal(_, _, _) => PlainFieldsDiffer(a, b);
    case Attachment(_, _) => PlainFieldsDiffer(a, b);
    case AdminReset(_, _, _) => PlainFieldsDiffer(a, b);
    case AccountToken(_, _, _) => PlainFieldsDiffer(a, b);
    case _ => NumberedFieldsDiffer(a, b);
  }

  lemma {:induction false} NormalBuildsAlike(c: Context)
    requires Accepts(c)
    ensures Accepts(Normal(c)) && ScopeOf(Normal(c)) == ScopeOf(c) && FieldsOf(Normal(c)) == FieldsOf(c)
  {
  }

  /** A context with every lone surrogate in its strings replaced. */
  ghost function RepairedContext(c: Context): Context {
    match c
    case Personal(userId, entryId, v) => Personal(Repaired(userId), Repaired(entryId), v)
    case Team(teamId, entryId, v, n) => Team(Repaired(teamId), Repaired(entryId), v, n)
    case ItemKey(teamId, entryId, n) => ItemKey(Repaired(teamId), Repaired(entryId), n)
    case Attachment(entryId, attachmentId) => Attachment(Repaired(entryId), Repaired(attachmentId))
    case AttachmentWrap(entryId, attachmentId, m, n) => AttachmentWrap(Repaired(entryId), Repaired(attachmentId), m, n)
    case TeamKey(teamId, toUserId, m, n) => TeamKey(Repaired(teamId), Repaired(toUserId), m, n)
    case AdminReset(tenantId, resetId, email) => AdminReset(Repaired(tenantId), Repaired(resetId), Repaired(email))
    case Emergency(grantId, ownerId, granteeId, m, n) => Emergency(Repaired(grantId), Repaired(ownerId), Repaired(granteeId), m, n)
    case Webhook(table, version, webhookId, tenantId, team) =>
      Webhook(table, version, Repaired(webhookId), Repaired(tenantId), if team.None? then None else Some(Repaired(team.value)))
    case AccountToken(userId, provider, accountId) => AccountToken(Repaired(userId), Repaired(provider), Repaired(accountId))
  }

  lemma {:induction false} VaultTypeIsUnchanged(v: VaultType)
    ensures Repaired(VaultTypeText(v)) == VaultTypeText(v)
  {
    AsciiIsUnchanged(VaultTypeText(v));
  }

  lemma {:induction false} TableIsUnchanged(t: WebhookTable)
    ensures Repaired(TableText(t)) == TableText(t)
  {
    AsciiIsUnchanged(TableText(t));
  }

  lemma {:induction false} NumberIsUnchanged(n: nat)
    ensures Repaired(Decimal(n)) == Decimal(n)
  {
    DecimalIsAscii(n);
    AsciiIsUnchanged(Decimal(n));
  }

  lemma {:induction false} VersionIsUnchanged(n: nat)
    ensures Repaired([0x76] + Decimal(n)) == [0x76] + Decimal(n)
  {
    DecimalIsAscii(n);
    AsciiIsUnchanged([0x76] + Decimal(n));
  }

  /** Field by field, a context's fields repaired are those of the repaired context. */
  ghost predicate FieldsRepaired(fields: seq<Text>, repaired: seq<Text>) {
    |fields| == |repaired| && forall i :: 0 <= i < |fields| ==> repaired[i] == Repaired(fields[i])
  }

  lemma {:induction false} FieldsRepairedIs(fields: seq<Text>, repaired: seq<Text>)
    requires FieldsRepaired(fields, repaired)
    ensures repaired == RepairedAll(fields)
  {
    RepairedAllIs(fields);
  }

  lemma {:induction false} RepairedWebhook(c: Context)
    requires c.Webhook? && Accepts(c)
    ensures Accepts(RepairedContext(c)) && FieldsRepaired(FieldsOf(c), FieldsOf(RepairedContext(c)))
  {
    TableIsUnchanged(c.table);
    VersionIsUnchanged(c.version);
  }

  lemma {:induction false} RepairedNumbered(c: Context)
    requires c.Team? || c.ItemKey? || c.AttachmentWrap? || c.TeamKey? || c.Emergency?
    ensures FieldsRepaired(FieldsOf(c), FieldsOf(RepairedContext(c)))
  {
    match c
    case Team(_, _, v, n) =>
      VaultTypeIsUnchanged(v);
      NumberIsUnchanged(n);
    case ItemKey(_, _, n) => NumberIsUnchanged(n);
    case AttachmentWrap(_, _, m, n) =>
      NumberIsUnchanged(m);
      NumberIsUnchanged(n);
    case TeamKey(_, _, m, n) =>
      NumberIsUnchanged(m);
      NumberIsUnchanged(n);
    case Emergency(_, _, _, m, n) =>
      NumberIsUnchanged(m);
      NumberIsUnchanged(n);
  }

  lemma {:induction false} RepairedPlain(c: Context)
    requires c.Personal? || c.Attachment? || c.AdminReset? || c.AccountToken?
    ensures FieldsRepaired(FieldsOf(c), FieldsOf(RepairedContext(c)))
  {
    if c.Personal? {
      VaultTypeIsUnchanged(c.vaultType);
    }
  }

  lemma {:induction false} RepairedBuildsAlike(c: Context)
    requires Accepts(c)
    ensures Accepts(RepairedContext(c)) && ScopeOf(RepairedContext(c)) == ScopeOf(c)
    ensures FieldsOf(RepairedContext(c)) == RepairedAll(FieldsOf(c))
  {
    match c {
      case Webhook(_, _, _, _, _) => RepairedWebhook(c);
      case Personal(_, _, _) => RepairedPlain(c);
      case Attachment(_, _) => RepairedPlain(c);
      case AdminReset(_, _, _) => RepairedPlain(c);
      case AccountToken(_, _, _) => RepairedPlain(c);
      case _ => RepairedNumbered(c);
    }
    FieldsRepairedIs(FieldsOf(c), FieldsOf(RepairedContext(c)));
  }

  lemma {:induction false} SameDataIff(a: Context, b: Context)
    requires AadOf(a).Some? && AadOf(b).Some?
    ensures AadOf(a) == AadOf(b) <==> ScopeOf(a) == ScopeOf(b) && RepairedAll(FieldsOf(a)) == RepairedAll(FieldsOf(b))
  {
    BuildsIff(a);
    BuildsIff(b);
    SameAadIff(ScopeOf(a), FieldsOf(a), ScopeOf(b), FieldsOf(b));
  }

  /** Two contexts, of one builder or of two, share their data exactly when they agree once lone surrogates are replaced. */
  lemma {:induction false} NoTwoContextsShare(a: Context, b: Context)
    requires AadOf(a).Some? && AadOf(b).Some?
    ensures AadOf(a) == AadOf(b) <==> Normal(RepairedContext(a)) == Normal(RepairedContext(b))
  {
    SameDataIff(a, b);
    RepairedBuildsAlike(a);
    RepairedBuildsAlike(b);
    NormalBuildsAlike(RepairedContext(a));
    NormalBuildsAlike(RepairedContext(b));
    if AadOf(a) == AadOf(b) {
      ContextsDiffer(RepairedContext(a), RepairedContext(b));
    }
  }

  /** Contexts of well-formed strings share their data exactly when they are the same context. */
  lemma {:induction false} WellFormedContextsDiffer(a: Context, b: Context)
    requires AadOf(a).Some? && AadOf(b).Some?
    requires AllWellFormed(FieldsOf(a)) && AllWellFormed(FieldsOf(b))
    ensures AadOf(a) == AadOf(b) <==> Normal(a) == Normal(b)
  {
    SameDataIff(a, b);
    WellFormedFields(FieldsOf(a));
    WellFormedFields(FieldsOf(b));
    NormalBuildsAlike(a);
    NormalBuildsAlike(b);
    if AadOf(a) == AadOf(b) {
      ContextsDiffer(a, b);
    }
  }

  const LONE: Text := [0xD800]
  const REPLACEMENT: Text := [0xFFFD]

  lemma {:induction false} LoneIsRepaired()
    ensures Repaired(LONE) == REPLACEMENT && Repaired(REPLACEMENT) == REPLACEMENT
  {
    assert LONE[1..] == [] && REPLACEMENT[1..] == [];
    assert Repaired(LONE) == [0xFFFD] + Repaired(LONE[1..]);
    assert Repaired(REPLACEMENT) == [0xFFFD] + Repaired(REPLACEMENT[1..]);
  }

  lemma {:induction false} ShortBytes()
    ensures |Encode(REPLACEMENT)| == 3 && Encode(LONE) == Encode(REPLACEMENT) && Encode([]) == []
  {
    LoneIsRepaired();
    SameBytesIff(LONE, REPLACEMENT);
    assert REPLACEMENT[1..] == [];
    assert Scalars(REPLACEMENT) == [0xFFFD] + Scalars(REPLACEMENT[1..]);
    var cs: seq<Scalar> := [0xFFFD];
    assert cs[1..] == [];
    assert EncodeScalars(cs) == EncodeScalar(cs[0]) + EncodeScalars(cs[1..]);
  }

  lemma {:induction false} ShortAccountBuilds(userId: Text)
    requires |Encode(userId)| <= 3 && Encode([]) == []
    ensures AadOf(AccountToken(userId, [], [])).Some?
  {
    var c := AccountToken(userId, [], []);
    assert FieldsOf(c) == [userId, [], []];
    assert forall i :: 0 <= i < 3 ==> |EncodeAll(FieldsOf(c))[i]| <= 3;
    BuildsIff(c);
  }

  /** Two different accounts with the same data: a lone surrogate and the replacement character. */
  lemma {:induction false} SurrogatesShareData()
    ensures var a, b := AccountToken(LONE, [], []), AccountToken(REPLACEMENT, [], []);
            AadOf(a).Some? && AadOf(a) == AadOf(b) && Normal(a) != Normal(b)
  {
    ShortBytes();
    ShortAccountBuilds(LONE);
    ShortAccountBuilds(REPLACEMENT);
    SameOnceRepaired();
    NoTwoContextsShare(AccountToken(LONE, [], []), AccountToken(REPLACEMENT, [], []));
  }

  lemma {:induction false} SameOnceRepaired()
    ensures LONE != REPLACEMENT
    ensures RepairedContext(AccountToken(LONE, [], [])) == RepairedContext(AccountToken(REPLACEMENT, [], []))
  {
    LoneIsRepaired();
    assert LONE[0] != REPLACEMENT[0];
  }

  const U: Text := [0x75]
  const E: Text := [0x65]

  lemma {:induction false} GoldenFields(v: VaultType)
    ensures var kind := VaultTypeText(v); EncodeAll([U, E, kind]) == [U, E, kind] && AllShort([U, E, kind])
  {
    AsciiBytes(U);
    AsciiBytes(E);
    AsciiBytes(VaultTypeText(v));
  }

  lemma {:induction false} GoldenBody(kind: seq<Byte>)
    ensures Body([U, E, kind]) == [0x00, 0x01, 0x75] + ([0x00, 0x01, 0x65] + Framed(kind))
  {
    assert [U, E, kind][1..] == [E, kind] && [E, kind][1..] == [kind] && [kind][1..] == [];
    assert Framed(kind) + [] == Framed(kind);
    assert Body([kind]) == Framed(kind) + Body([kind][1..]);
    assert Body([E, kind]) == Framed(E) + Body([kind]);
    assert Body([U, E, kind]) == Framed(U) + Body([E, kind]);
  }

  lemma {:induction false} GoldenFrames()
    ensures Framed(VaultTypeText(Blob)) == [0x00, 0x04, 0x62, 0x6C, 0x6F, 0x62]
    ensures Framed(VaultTypeText(Overview)) == [0x00, 0x08, 0x6F, 0x76, 0x65, 0x72, 0x76, 0x69, 0x65, 0x77]
  {
  }

  lemma {:induction false} PersonalParts(v: VaultType)
    ensures AadOf(Personal(U, E, v)) == Some(Header([0x50, 0x56], 3) + Body([U, E, VaultTypeText(v)]))
  {
    GoldenFields(v);
    BuildsIff(Personal(U, E, v));
  }

  lemma {:induction false} GoldenHeader()
    ensures Header([0x50, 0x56], 3) == [0x50, 0x56, 0x01, 0x03]
  {
  }

  lemma {:induction false} PersonalBytes(v: VaultType)
    ensures AadOf(Personal(U, E, v))
         == Some([0x50, 0x56, 0x01, 0x03] + ([0x00, 0x01, 0x75] + ([0x00, 0x01, 0x65] + Framed(VaultTypeText(v)))))
  {
    PersonalParts(v);
    GoldenHeader();
    GoldenBody(VaultTypeText(v));
  }

  /** The bytes the iOS client expects for the blob and the overview of personal entry "e" of user "u". */
  lemma {:induction false} PersonalGoldenBytes()
    ensures AadOf(Personal(U, E, Blob))
         == Some([0x50, 0x56, 0x01, 0x03]
                 + ([0x00, 0x01, 0x75] + ([0x00, 0x01, 0x65] + [0x00, 0x04, 0x62, 0x6C, 0x6F, 0x62])))
    ensures AadOf(Personal(U, E, Overview))
         == Some([0x50, 0x56, 0x01, 0x03]
                 + ([0x00, 0x01, 0x75] + ([0x00, 0x01, 0x65] + [0x00, 0x08, 0x6F, 0x76, 0x65, 0x72, 0x76, 0x69, 0x65, 0x77])))
  {
    GoldenFrames();
    PersonalBytes(Blob);
    PersonalBytes(Overview);
  }

  /** ASCII text is its own encoding. */
  lemma {:induction false} AsciiBytes(s: Text)
    requires IsAscii(s)
    ensures Encode(s) == s
  {
    if s != [] {
      AsciiBytes(s[1..]);
      assert Scalars(s) == [s[0]] + Scalars(s[1..]);
      assert EncodeScalars(Scalars(s)) == EncodeScalar(s[0]) + EncodeScalars(Scalars(s)[1..]);
    }
  }
}
