/**
 The drift checks between the schema and `.env.example` (missing keys, unknown keys, repeated
 keys), when the generator's own output passes them, and why that output is deterministic.
 */
module EnvDrift {
  import opened Prelude
  import opened Text
  import opened Sorting
  import opened LineReading
  import opened EnvExample
  import WordWrap

  // ----- the checks ----------------------------------------------------------------------------------------

  /** The keys a text documents, in the order of its lines. */
  function KeysIn(text: string): seq<string> {
    KeysOf(ReadText(Read, text))
  }

  method CountKeys(allKeys: seq<string>) returns (seen: map<string, nat>)
    ensures forall k :: k in seen <==> k in allKeys
    ensures forall k :: k in seen ==> seen[k] == multiset(allKeys)[k]
  {
    seen := map[];
    for i := 0 to |allKeys|
      invariant forall k :: k in seen <==> k in allKeys[..i]
      invariant forall k :: k in seen ==> seen[k] == multiset(allKeys[..i])[k]
    {
      var key := allKeys[i];
      assert allKeys[..i + 1] == allKeys[..i] + [key];
      seen := seen[key := (if key in seen then seen[key] else 0) + 1];
    }
    assert allKeys[..|allKeys|] == allKeys;
  }

  method Repeated(allKeys: seq<string>) returns (repeated: set<string>)
    ensures repeated == set k | k in allKeys && multiset(allKeys)[k] > 1
  {
    var seen := CountKeys(allKeys);
    repeated := set k | k in seen && seen[k] > 1;
  }

  method Unknown(exampleKeys: set<string>, zodKeys: set<string>, allowed: string -> bool) returns (unknown: set<string>)
    ensures unknown == set k | k in exampleKeys && k !in zodKeys && !allowed(k)
  {
    unknown := {};
    var todo := exampleKeys;
    while todo != {}
      invariant todo <= exampleKeys
      invariant unknown == set k | k in exampleKeys && k !in todo && k !in zodKeys && !allowed(k)
      decreases |todo|
    {
      var key :| key in todo;
      if key !in zodKeys && !allowed(key) {
        unknown := unknown + {key};
      }
      todo := todo - {key};
    }
  }

  lemma {:induction false} KeysMembers(found: seq<Found>, k: string)
    ensures k in KeysOf(found) <==> Active(k) in found || CommentedOut(k) in found
  {
    if found != [] {
      KeysMembers(found[1..], k);
      assert found == [found[0]] + found[1..];
    }
  }

  /** Checks 1, 2 and 7 on a text. */
  method CheckExample(text: string, zodKeys: set<string>, allowed: string -> bool)
    returns (missing: set<string>, unknown: set<string>, repeated: set<string>)
    ensures missing == set k | k in zodKeys && k !in KeysIn(text)
    ensures unknown == set k | k in KeysIn(text) && k !in zodKeys && !allowed(k)
    ensures repeated == set k | k in KeysIn(text) && multiset(KeysIn(text))[k] > 1
  {
    var activeKeys, commentedKeys, allKeys := ParseEnvExample(text);
    var exampleKeys := activeKeys + commentedKeys;
    forall k
      ensures k in exampleKeys <==> k in KeysIn(text)
    {
      KeysMembers(ReadText(Read, text), k);
    }
    missing := set k | k in zodKeys && k !in exampleKeys;
    unknown := Unknown(exampleKeys, zodKeys, allowed);
    repeated := Repeated(allKeys);
  }

  ghost predicate Passes(keys: seq<string>, zodKeys: set<string>, allowed: string -> bool) {
    && (forall k :: k in zodKeys ==> k in keys)
    && (forall k :: k in keys ==> k in zodKeys || allowed(k))
    && NoRepeats(keys)
  }

  lemma {:induction false} DistinctCons(keys: seq<string>)
    requires keys != []
    ensures Distinct(keys) <==> keys[0] !in keys[1..] && Distinct(keys[1..])
  {
    var rest := keys[1..];
    assert forall i :: 0 <= i < |rest| ==> rest[i] == keys[i + 1];
    if keys[0] !in rest && Distinct(rest) {
      forall i, j | 0 <= i < j < |keys|
        ensures keys[i] != keys[j]
      {
        assert keys[j] == rest[j - 1];
        assert i > 0 ==> keys[i] == rest[i - 1];
      }
    }
  }

  ghost predicate NoRepeats(keys: seq<string>) {
    forall k :: k in keys ==> multiset(keys)[k] <= 1
  }

  lemma {:induction false} NoRepeatsCons(keys: seq<string>)
    requires keys != []
    ensures NoRepeats(keys) <==> keys[0] !in keys[1..] && NoRepeats(keys[1..])
  {
    var rest := keys[1..];
    assert keys == [keys[0]] + rest;
    assert multiset(keys) == multiset{keys[0]} + multiset(rest);
    assert keys[0] in keys;
    assert forall k :: k in rest ==> k in keys && multiset(keys)[k] >= multiset(rest)[k] > 0;
  }

  lemma {:induction false} NoRepeatsIff(keys: seq<string>)
    ensures NoRepeats(keys) <==> Distinct(keys)
  {
    if keys != [] {
      NoRepeatsIff(keys[1..]);
      NoRepeatsCons(keys);
      DistinctCons(keys);
    }
  }

  // ----- the keys of the generated file ----------------------------------------------------------------------

  /** Keys that only seem to be documented: spelled by a description or a multi-line example. */
  ghost function StraysOf(job: Job, e: Item): seq<Found> {
    DescriptionKeys(e, job.cols) + ExampleKeys(e, job.wording.placeholder)
  }

  ghost function StrayKeys(job: Job): Item -> seq<string> {
    (e: Item) => KeysOf(StraysOf(job, e))
  }

  function Names(items: seq<Item>): seq<string> {
    if items == [] then [] else [items[0].key] + Names(items[1..])
  }

  ghost function Spread(stray: Item -> seq<string>, items: seq<Item>): seq<string> {
    if items == [] then [] else stray(items[0]) + Spread(stray, items[1..])
  }

  /** The keys of a job: those of its items, and those its descriptions and examples spell besides. */
  ghost function OwnKeys(job: Job): seq<string> {
    Names(job.items + job.externals)
  }

  ghost function Strays(job: Job): seq<string> {
    Spread(StrayKeys(job), job.items + job.externals)
  }

  /** How often each key is spelled by a list of items. */
  ghost function Total(stray: Item -> seq<string>, items: seq<Item>): multiset<string> {
    if items == [] then multiset{} else multiset{items[0].key} + multiset(stray(items[0])) + Total(stray, items[1..])
  }

  lemma {:induction false} TotalIs(stray: Item -> seq<string>, items: seq<Item>)
    ensures Total(stray, items) == multiset(Names(items) + Spread(stray, items))
  {
    if items != [] {
      TotalIs(stray, items[1..]);
    }
  }

  lemma {:induction false} TotalConcat(stray: Item -> seq<string>, a: seq<Item>, b: seq<Item>)
    ensures Total(stray, a + b) == Total(stray, a) + Total(stray, b)
  {
    if a == [] {
      assert a + b == b;
    } else {
      assert (a + b)[1..] == a[1..] + b;
      TotalConcat(stray, a[1..], b);
    }
  }

  lemma {:induction false} TotalOne(stray: Item -> seq<string>, e: Item)
    ensures Total(stray, [e]) == multiset{e.key} + multiset(stray(e))
  {
    assert [e][1..] == [];
  }

  lemma {:induction false} InsertKeepsTotal(stray: Item -> seq<string>, x: Item, s: seq<Item>)
    ensures Total(stray, Insert(Before, x, s)) == Total(stray, [x]) + Total(stray, s)
  {
    if s != [] && Before(s[0], x) {
      InsertKeepsTotal(stray, x, s[1..]);
      assert ([s[0]] + Insert(Before, x, s[1..]))[1..] == Insert(Before, x, s[1..]);
    } else {
      TotalConcat(stray, [x], s);
    }
  }

  lemma {:induction false} SortKeepsTotal(stray: Item -> seq<string>, s: seq<Item>)
    ensures Total(stray, Sort(Before, s)) == Total(stray, s)
  {
    if s != [] {
      SortKeepsTotal(stray, s[1..]);
      InsertKeepsTotal(stray, s[0], Sort(Before, s[1..]));
      TotalOne(stray, s[0]);
    }
  }

  lemma {:induction false} CountConcat(a: seq<Found>, b: seq<Found>)
    ensures multiset(KeysOf(a + b)) == multiset(KeysOf(a)) + multiset(KeysOf(b))
  {
    KeysConcat(a, b);
  }

  /** A key in the middle counts once, wherever it stands. */
  lemma {:induction false} CountMiddle(front: seq<Found>, own: Found, back: seq<Found>)
    ensures multiset(KeysOf(front + [own] + back)) == multiset{own.key} + multiset(KeysOf(front + back))
  {
    CountConcat(front, [own]);
    CountConcat(front + [own], back);
    CountConcat(front, back);
    assert [own][1..] == [] && KeysOf([own]) == [own.key] + KeysOf([own][1..]);
  }

  ghost function Sum(counts: seq<multiset<string>>, n: nat): multiset<string>
    requires n <= |counts|
  {
    if n == 0 then multiset{} else Sum(counts, n - 1) + counts[n - 1]
  }

  lemma {:induction false} CountNext(front: seq<Found>, last: seq<Found>, a: multiset<string>, b: multiset<string>)
    requires multiset(KeysOf(front)) == a && multiset(KeysOf(last)) == b
    ensures multiset(KeysOf(front + last)) == a + b
  {
    CountConcat(front, last);
  }

  lemma {:induction false} ConcatCounts(parts: seq<seq<Found>>, counts: seq<multiset<string>>, n: nat)
    requires n <= |parts| == |counts|
    requires forall i :: 0 <= i < |parts| ==> multiset(KeysOf(parts[i])) == counts[i]
    ensures multiset(KeysOf(Concat(parts, n))) == Sum(counts, n)
  {
    if n > 0 {
      ConcatCounts(parts, counts, n - 1);
      CountNext(Concat(parts, n - 1), parts[n - 1], Sum(counts, n - 1), counts[n - 1]);
    }
  }

  ghost function Counts(stray: Item -> seq<string>, items: seq<Item>): (counts: seq<multiset<string>>)
    ensures |counts| == |items|
    ensures forall i {:trigger counts[i]} :: 0 <= i < |items| ==> counts[i] == multiset{items[i].key} + multiset(stray(items[i]))
  {
    seq(|items|, i requires 0 <= i < |items| => multiset{items[i].key} + multiset(stray(items[i])))
  }

  lemma {:induction false} SumIsTotal(stray: Item -> seq<string>, items: seq<Item>, n: nat)
    requires n <= |items|
    ensures Sum(Counts(stray, items), n) == Total(stray, items[..n])
  {
    if n > 0 {
      SumIsTotal(stray, items, n - 1);
      assert items[..n] == items[..n - 1] + [items[n - 1]];
      TotalConcat(stray, items[..n - 1], [items[n - 1]]);
      TotalOne(stray, items[n - 1]);
    }
  }

  lemma {:induction false} ItemTotal(job: Job, e: Item)
    ensures multiset(KeysOf(ItemKeys(e, job.cols, job.wording.placeholder))) == multiset{e.key} + multiset(StrayKeys(job)(e))
  {
    var placeholder := job.wording.placeholder;
    CountMiddle(DescriptionKeys(e, job.cols), OwnKey(e, placeholder), ExampleKeys(e, placeholder));
  }

  lemma {:induction false} ListTotal(job: Job, items: seq<Item>)
    ensures multiset(KeysOf(AllItemKeys(items, job.cols, job.wording.placeholder))) == Total(StrayKeys(job), items)
  {
    var parts, counts := KeyParts(items, job.cols, job.wording.placeholder), Counts(StrayKeys(job), items);
    forall i | 0 <= i < |items|
      ensures multiset(KeysOf(parts[i])) == counts[i]
    {
      ItemTotal(job, items[i]);
    }
    ConcatCounts(parts, counts, |items|);
    SumIsTotal(StrayKeys(job), items, |items|);
    assert items[..|items|] == items;
  }

  /** The generated file documents every item's key and every stray, each as often as it is listed. */
  lemma {:induction false} DocumentedKeysAre(job: Job)
    ensures multiset(KeysOf(Documented(job))) == multiset(OwnKeys(job) + Strays(job))
  {
    var sorted, stray := Sort(Before, job.items), StrayKeys(job);
    KeysConcat(AllItemKeys(sorted, job.cols, job.wording.placeholder),
               AllItemKeys(job.externals, job.cols, job.wording.placeholder));
    ListTotal(job, sorted);
    ListTotal(job, job.externals);
    SortKeepsTotal(stray, job.items);
    TotalConcat(stray, job.items, job.externals);
    TotalIs(stray, job.items + job.externals);
  }

  lemma {:induction false} DistinctByCount(a: seq<string>, b: seq<string>)
    requires multiset(a) == multiset(b)
    ensures Distinct(a) <==> Distinct(b)
    ensures forall k :: k in a <==> k in b
  {
    NoRepeatsIff(a);
    NoRepeatsIff(b);
    assert forall k :: (k in a <==> k in multiset(a)) && (k in b <==> k in multiset(b));
  }

  lemma {:induction false} DistinctParts(a: seq<string>, b: seq<string>)
    ensures Distinct(a + b) <==> Distinct(a) && Distinct(b) && forall k :: k in b ==> k !in a
  {
    if a == [] {
      assert a + b == b;
    } else {
      assert (a + b)[0] == a[0] && (a + b)[1..] == a[1..] + b;
      assert a == [a[0]] + a[1..];
      DistinctParts(a[1..], b);
      DistinctCons(a + b);
      DistinctCons(a);
    }
  }

  lemma {:induction false} OwnKeysAre(items: seq<Item>, k: string)
    ensures k in Names(items) <==> exists e :: e in items && e.key == k
  {
    if items != [] {
      OwnKeysAre(items[1..], k);
      assert items == [items[0]] + items[1..];
    }
  }

  /** The descriptions are in step with the schema, and the external keys are on the allowlist. */
  ghost predicate InStep(job: Job, zodKeys: set<string>, allowed: string -> bool) {
    && (forall k :: k in zodKeys <==> exists e :: e in job.items && e.key == k)
    && (forall e :: e in job.externals ==> allowed(e.key))
  }

  lemma {:induction false} OwnKeysAreKnown(job: Job, zodKeys: set<string>, allowed: string -> bool)
    requires InStep(job, zodKeys, allowed)
    ensures forall k :: k in zodKeys ==> k in OwnKeys(job)
    ensures forall k :: k in OwnKeys(job) ==> k in zodKeys || allowed(k)
  {
    forall k
      ensures k in zodKeys ==> k in OwnKeys(job)
      ensures k in OwnKeys(job) ==> k in zodKeys || allowed(k)
    {
      OwnKeysAre(job.items + job.externals, k);
      OwnKeysAre(job.items, k);
    }
  }

  /** What a job must look like for its file to pass: told from the items and what their texts spell. */
  ghost predicate Tidy(job: Job, allowed: string -> bool) {
    && Distinct(OwnKeys(job)) && Distinct(Strays(job))
    && (forall k :: k in Strays(job) ==> k !in OwnKeys(job) && allowed(k))
  }

  /**
   The generated file passes the checks exactly when no key is listed twice, no two texts spell the
   same key, and every key that a text spells is on the allowlist and not documented anyway.
   */
  lemma {:induction false} GeneratedFilePassesIff(job: Job, zodKeys: set<string>, allowed: string -> bool)
    requires InStep(job, zodKeys, allowed)
    ensures Passes(KeysOf(Documented(job)), zodKeys, allowed) <==> Tidy(job, allowed)
  {
    var keys, own, strays := KeysOf(Documented(job)), OwnKeys(job), Strays(job);
    DocumentedKeysAre(job);
    DistinctByCount(keys, own + strays);
    DistinctParts(own, strays);
    NoRepeatsIff(keys);
    OwnKeysAreKnown(job, zodKeys, allowed);
  }

  /** Generating the file and checking it: nothing is ever missing, and nothing is reported exactly for a tidy job. */
  method GenerateThenCheck(job: Job, zodKeys: set<string>, allowed: string -> bool)
    returns (text: Option<string>, missing: set<string>, unknown: set<string>, repeated: set<string>)
    requires job.Valid() && InStep(job, zodKeys, allowed)
    ensures text.None? <==> !Clean(job.items, |job.items|) || !Clean(job.externals, |job.externals|)
    ensures text.Some? ==> missing == {}
    ensures text.Some? ==> (unknown == {} && repeated == {} <==> Tidy(job, allowed))
  {
    text := GenerateEnvExample(job);
    missing, unknown, repeated := {}, {}, {};
    if text.Some? {
      missing, unknown, repeated := CheckExample(text.value, zodKeys, allowed);
      GeneratedFilePassesIff(job, zodKeys, allowed);
      NothingIsMissing(job, zodKeys, allowed);
      ReportIsPasses(KeysIn(text.value), zodKeys, allowed, missing, unknown, repeated);
    }
  }

  lemma {:induction false} NothingIsMissing(job: Job, zodKeys: set<string>, allowed: string -> bool)
    requires InStep(job, zodKeys, allowed)
    ensures forall k :: k in zodKeys ==> k in KeysOf(Documented(job))
  {
    DocumentedKeysAre(job);
    DistinctByCount(KeysOf(Documented(job)), OwnKeys(job) + Strays(job));
    OwnKeysAreKnown(job, zodKeys, allowed);
  }

  /** The three reports are empty exactly when the keys pass. */
  lemma {:induction false} ReportIsPasses(keys: seq<string>, zodKeys: set<string>, allowed: string -> bool,
                                          missing: set<string>, unknown: set<string>, repeated: set<string>)
    requires missing == set k | k in zodKeys && k !in keys
    requires unknown == set k | k in keys && k !in zodKeys && !allowed(k)
    requires repeated == set k | k in keys && multiset(keys)[k] > 1
    ensures missing == {} && unknown == {} && repeated == {} <==> Passes(keys, zodKeys, allowed)
    ensures missing == {} <==> forall k :: k in zodKeys ==> k in keys
  {
    assert forall k :: k in zodKeys && k !in keys ==> k in missing;
    assert forall k :: k in keys && k !in zodKeys && !allowed(k) ==> k in unknown;
    assert forall k :: k in keys && multiset(keys)[k] > 1 ==> k in repeated;
  }

  /** A description that reads like a setting: the file names a key nobody knows. */
  function SpellingJob(): Job {
    Job(Wording("#", []), ["G"], 80, [Item("A", 0, 0, 0, "B=1", None, false, true)], [])
  }

  lemma {:induction false} SpellingJobIsValid()
    ensures SpellingJob().Valid()
  {
    var job := SpellingJob();
    assert "#"[1..] == "";
    assert job.wording.Valid();
    assert AllFree(job.groups, '\n');
  }

  lemma {:induction false} DescriptionCanSpellAKey(allowed: string -> bool)
    requires !allowed("B")
    ensures SpellingJob().Valid() && InStep(SpellingJob(), {"A"}, allowed) && Strays(SpellingJob()) == ["B"]
    ensures !Passes(KeysOf(Documented(SpellingJob())), {"A"}, allowed)
  {
    var job := SpellingJob();
    var e := job.items[0];
    SpellingJobIsValid();
    SpelledDescription(e, job.cols);
    assert job.items + job.externals == [e] && [e][1..] == [];
    assert ExampleKeys(e, job.wording.placeholder) == [];
    var found := [CommentedOut("B")];
    assert found + [] == found && found[1..] == [];
    assert KeysOf(found) == ["B"] + KeysOf(found[1..]);
    assert StrayKeys(job)(e) == ["B"];
    assert Spread(StrayKeys(job), [e]) == StrayKeys(job)(e) + Spread(StrayKeys(job), [e][1..]);
    assert ["B"] + [] == ["B"];
    assert "B" in Strays(job);
    GeneratedFilePassesIff(job, {"A"}, allowed);
  }

  lemma {:induction false} SpelledDescription(e: Item, cols: nat)
    requires e.description == "B=1" && cols == 80
    ensures DescriptionKeys(e, cols) == [CommentedOut("B")]
  {
    SplitFree("B=1", '\n');
    assert ["B=1"][1..] == [] && ["# B=1"][1..] == [];
    assert WordWrap.WrapLines(["B=1"], cols) == WordWrap.WrapLine("B=1", cols) + WordWrap.WrapLines(["B=1"][1..], cols);
    assert WordWrap.Wrapped("B=1", cols) == ["B=1"];
    assert "# " + "B=1" == "# B=1";
    assert Commented(["B=1"]) == ["# B=1"] + Commented(["B=1"][1..]);
    SettingLine("B", "1", false);
    assert Setting("B", "1", false) == "# B=1";
    ReadOne(Read, "# B=1");
  }

  // ----- files without stray keys -----------------------------------------------------------------------------

  /** Each item's own key, active or commented out as decided. */
  function Owns(items: seq<Item>, placeholder: string): seq<Found> {
    if items == [] then [] else [OwnKey(items[0], placeholder)] + Owns(items[1..], placeholder)
  }

  ghost predicate NoStrays(job: Job, items: seq<Item>) {
    forall i :: 0 <= i < |items| ==> StraysOf(job, items[i]) == []
  }

  lemma {:induction false} OwnsSnoc(items: seq<Item>, e: Item, placeholder: string)
    ensures Owns(items + [e], placeholder) == Owns(items, placeholder) + [OwnKey(e, placeholder)]
  {
    if items == [] {
      assert items + [e] == [e] && [e][1..] == [];
    } else {
      assert (items + [e])[1..] == items[1..] + [e];
      OwnsSnoc(items[1..], e, placeholder);
    }
  }

  lemma {:induction false} ConcatOwns(parts: seq<seq<Found>>, items: seq<Item>, n: nat, placeholder: string)
    requires n <= |parts| == |items|
    requires forall i :: 0 <= i < |items| ==> parts[i] == [OwnKey(items[i], placeholder)]
    ensures Concat(parts, n) == Owns(items[..n], placeholder)
  {
    if n > 0 {
      ConcatOwns(parts, items, n - 1, placeholder);
      assert items[..n] == items[..n - 1] + [items[n - 1]];
      OwnsSnoc(items[..n - 1], items[n - 1], placeholder);
    }
  }

  lemma {:induction false} PlainItem(job: Job, e: Item)
    requires StraysOf(job, e) == []
    ensures ItemKeys(e, job.cols, job.wording.placeholder) == [OwnKey(e, job.wording.placeholder)]
  {
  }

  lemma {:induction false} PlainKeys(job: Job, items: seq<Item>)
    requires NoStrays(job, items)
    ensures AllItemKeys(items, job.cols, job.wording.placeholder) == Owns(items, job.wording.placeholder)
  {
    var parts := KeyParts(items, job.cols, job.wording.placeholder);
    forall i | 0 <= i < |items|
      ensures parts[i] == [OwnKey(items[i], job.wording.placeholder)]
    {
      PlainItem(job, items[i]);
    }
    ConcatOwns(parts, items, |items|, job.wording.placeholder);
    assert items[..|items|] == items;
  }

  /** Without strays the file reads as each item's own key, once, in order, active or commented out as decided. */
  lemma {:induction false} PlainFileListsTheKeys(job: Job)
    requires NoStrays(job, job.items) && NoStrays(job, job.externals)
    ensures Documented(job) == Owns(Sort(Before, job.items), job.wording.placeholder) + Owns(job.externals, job.wording.placeholder)
  {
    var sorted := Sort(Before, job.items);
    forall i | 0 <= i < |sorted|
      ensures StraysOf(job, sorted[i]) == []
    {
      SortMembers(Before, job.items, sorted[i]);
    }
    PlainKeys(job, sorted);
    PlainKeys(job, job.externals);
  }

  /** An item whose `active` was decided from the schema and the compose requirement. */
  ghost predicate DecidedBySchema(e: Item, schemas: map<string, Schema>, compose: set<string>) {
    e.active == EmitUncommented(if e.key in schemas then Some(schemas[e.key]) else None, e.key in compose)
  }

  /**
   A key is commented out exactly when the app starts without it (optional, no default, not
   required by compose) or its example gave way to the placeholder.
   */
  lemma {:induction false} CommentedOutIff(e: Item, schemas: map<string, Schema>, compose: set<string>, placeholder: string)
    requires DecidedBySchema(e, schemas, compose)
    ensures OwnKey(e, placeholder).CommentedOut?
       <==> Guarded(e, placeholder) == Some(placeholder)
            || (e.key in schemas && schemas[e.key].IsOptional() && !schemas[e.key].HasDefault() && e.key !in compose)
  {
  }

  lemma {:induction false} NamesConcat(a: seq<Item>, b: seq<Item>)
    ensures Names(a + b) == Names(a) + Names(b)
  {
    if a == [] {
      assert a + b == b;
    } else {
      assert (a + b)[1..] == a[1..] + b;
      NamesConcat(a[1..], b);
    }
  }

  lemma {:induction false} NothingSpread(stray: Item -> seq<string>, items: seq<Item>)
    requires forall i :: 0 <= i < |items| ==> stray(items[i]) == []
    ensures Spread(stray, items) == []
  {
    if items != [] {
      NothingSpread(stray, items[1..]);
    }
  }

  /** With no stray key, the file passes the checks exactly when no key was listed twice. */
  lemma {:induction false} PlainFilePassesIff(job: Job, zodKeys: set<string>, allowed: string -> bool)
    requires NoStrays(job, job.items) && NoStrays(job, job.externals) && InStep(job, zodKeys, allowed)
    ensures Passes(KeysOf(Documented(job)), zodKeys, allowed) <==> Distinct(Names(job.items) + Names(job.externals))
  {
    var all := job.items + job.externals;
    forall i | 0 <= i < |all|
      ensures StrayKeys(job)(all[i]) == []
    {
      assert StraysOf(job, all[i]) == [];
    }
    NothingSpread(StrayKeys(job), all);
    NamesConcat(job.items, job.externals);
    GeneratedFilePassesIff(job, zodKeys, allowed);
  }

  // ----- determinism ---------------------------------------------------------------------------------------------

  ghost predicate Tied(a: Item, b: Item) {
    a.groupIndex == b.groupIndex && a.order == b.order && a.rank == b.rank
  }

  /** The sort order is total exactly where no two items tie. */
  lemma {:induction false} TotalIffNoTies(s: set<Item>)
    ensures Orders(Before, s) <==> forall x, y :: x in s && y in s && Tied(x, y) ==> x == y
  {
    if Orders(Before, s) {
      forall x, y | x in s && y in s && Tied(x, y)
        ensures x == y
      {
        assert !Before(x, y) && !Before(y, x);
      }
    }
  }

  /** However the descriptions are listed, the file is the same. */
  lemma {:induction false} InputOrderDoesNotMatter(a: seq<Item>, b: seq<Item>)
    requires Distinct(a) && Distinct(b) && Elements(a) == Elements(b)
    requires forall x, y :: x in a && y in a && Tied(x, y) ==> x == y
    ensures Sort(Before, a) == Sort(Before, b)
  {
    assert forall x :: x in Elements(a) <==> x in a;
    TotalIffNoTies(Elements(a));
    SortAscends(Before, a);
    SortAscends(Before, b);
    SortElements(Before, a);
    SortElements(Before, b);
    AscendingIsUnique(Before, Sort(Before, a), Sort(Before, b));
  }

  /** Equal but for the place that a locale gives the key. */
  ghost predicate SameButRank(a: Item, b: Item) {
    a.(rank := 0) == b.(rank := 0)
  }

  ghost predicate AllSameButRank(a: seq<Item>, b: seq<Item>) {
    |a| == |b| && forall i :: 0 <= i < |a| ==> SameButRank(a[i], b[i])
  }

  /** The collator is not consulted between `x` and anything in `s`. */
  ghost predicate Settled(x: Item, s: seq<Item>) {
    forall y :: y in s ==> x.groupIndex != y.groupIndex || x.order != y.order
  }

  lemma {:induction false} InsertIgnoresRank(x: Item, s: seq<Item>, y: Item, t: seq<Item>)
    requires SameButRank(x, y) && AllSameButRank(s, t) && Settled(x, s)
    ensures AllSameButRank(Insert(Before, x, s), Insert(Before, y, t))
  {
    if s != [] {
      assert SameButRank(s[0], t[0]) && s[0] in s;
      assert Before(s[0], x) <==> Before(t[0], y);
      if Before(s[0], x) {
        assert forall i :: 0 <= i < |s[1..]| ==> s[1..][i] == s[i + 1] && t[1..][i] == t[i + 1];
        InsertIgnoresRank(x, s[1..], y, t[1..]);
      }
    }
  }

  ghost predicate AllSettled(s: seq<Item>) {
    s == [] || (Settled(s[0], s[1..]) && AllSettled(s[1..]))
  }

  /** When no two items share group and order, every locale sorts them alike. */
  lemma {:induction false} LocaleDoesNotMatter(a: seq<Item>, b: seq<Item>)
    requires AllSameButRank(a, b) && AllSettled(a)
    ensures AllSameButRank(Sort(Before, a), Sort(Before, b))
  {
    if a != [] {
      var rest := a[1..];
      assert forall i :: 0 <= i < |rest| ==> rest[i] == a[i + 1] && b[1..][i] == b[i + 1];
      LocaleDoesNotMatter(rest, b[1..]);
      assert SameButRank(a[0], b[0]);
      forall y | y in Sort(Before, rest)
        ensures a[0].groupIndex != y.groupIndex || a[0].order != y.order
      {
        SortMembers(Before, rest, y);
      }
      InsertIgnoresRank(a[0], Sort(Before, rest), b[0], Sort(Before, b[1..]));
    }
  }

  lemma {:induction false} PartIgnoresRank(job: Job, a: seq<Item>, b: seq<Item>, n: nat)
    requires InGroups(job, a) && InGroups(job, b) && AllSameButRank(a, b) && n < |a|
    ensures BodyParts(job, a)[n] == BodyParts(job, b)[n]
  {
    assert SameButRank(a[n], b[n]);
    assert a[n].groupIndex == b[n].groupIndex;
    ItemIgnoresRank(a[n], b[n], job.cols, job.wording.placeholder);
    if n > 0 {
      assert SameButRank(a[n - 1], b[n - 1]);
      assert a[n - 1].groupIndex == b[n - 1].groupIndex;
    }
  }

  /** Nothing that is written depends on the rank, so neither does the file. */
  lemma {:induction false} FileIgnoresRank(job: Job, a: seq<Item>, b: seq<Item>)
    requires InGroups(job, a) && InGroups(job, b) && AllSameButRank(a, b)
    ensures FileLines(job, a) == FileLines(job, b)
  {
    forall i | 0 <= i < |a|
      ensures BodyParts(job, a)[i] == BodyParts(job, b)[i]
    {
      PartIgnoresRank(job, a, b, i);
    }
    assert BodyParts(job, a) == BodyParts(job, b);
  }

  lemma {:induction false} ItemIgnoresRank(a: Item, b: Item, cols: nat, placeholder: string)
    requires SameButRank(a, b)
    ensures ItemLines(a, cols, placeholder) == ItemLines(b, cols, placeholder)
  {
    assert a.key == b.key && a.description == b.description && a.example == b.example;
    assert a.secret == b.secret && a.active == b.active;
  }
}
