/**
 `.env.example`: the generator that writes it from the descriptions and the schema, and the parser
 that reads the documented keys back.
 */
module EnvExample {
  import opened Prelude
  import opened Text
  import opened Sorting
  import opened LineReading
  import EnvFile
  import WordWrap

  // ----- reading keys back ----------------------------------------------------------------------------------

  predicate IdentStart(c: char) {
    'A' <= c <= 'Z' || 'a' <= c <= 'z' || c == '_'
  }

  /** [A-Za-z_][A-Za-z0-9_]* */
  predicate IsIdent(s: string) {
    s != [] && IdentStart(s[0]) && forall i :: 0 <= i < |s| ==> IdentStart(s[i]) || '0' <= s[i] <= '9'
  }

  datatype Found = Active(key: string) | CommentedOut(key: string)

  /** The identifier right before the first equals sign, if that is how the text starts. */
  function IdentBefore(s: string): Option<string> {
    var eq := IndexOf(s, '=');
    if eq < |s| && IsIdent(s[..eq]) then Some(s[..eq]) else None
  }

  /** The key a line sets, or sets behind a number sign. */
  function Read(line: string): (found: seq<Found>)
    ensures |found| <= 1
  {
    match IdentBefore(line)
    case Some(key) => [Active(key)]
    case None =>
      if line == [] || line[0] != '#' then []
      else
        match IdentBefore(TrimStart(line[1..]))
        case Some(key) => [CommentedOut(key)]
        case None => []
  }

  function KeysOf(found: seq<Found>): seq<string> {
    if found == [] then [] else [found[0].key] + KeysOf(found[1..])
  }

  lemma {:induction false} KeysConcat(a: seq<Found>, b: seq<Found>)
    ensures KeysOf(a + b) == KeysOf(a) + KeysOf(b)
  {
    if a == [] {
      assert a + b == b;
    } else {
      assert (a + b)[1..] == a[1..] + b;
      KeysConcat(a[1..], b);
    }
  }

  /** The three results of parsing, told from the keys found. */
  ghost predicate Tells(found: seq<Found>, activeKeys: set<string>, commentedKeys: set<string>, allKeys: seq<string>) {
    && (forall k :: k in activeKeys <==> Active(k) in found)
    && (forall k :: k in commentedKeys <==> CommentedOut(k) in found)
    && allKeys == KeysOf(found)
  }

  lemma {:induction false} TellsMore(found: seq<Found>, activeKeys: set<string>, commentedKeys: set<string>,
                                     allKeys: seq<string>, f: Found)
    requires Tells(found, activeKeys, commentedKeys, allKeys)
    ensures f.Active? ==> Tells(found + [f], activeKeys + {f.key}, commentedKeys, allKeys + [f.key])
    ensures f.CommentedOut? ==> Tells(found + [f], activeKeys, commentedKeys + {f.key}, allKeys + [f.key])
  {
    KeysConcat(found, [f]);
    assert [f][1..] == [];
    assert KeysOf([f]) == [f.key] + KeysOf([f][1..]);
  }

  /** One line of the parse loop. */
  method Note(line: string, active: set<string>, commented: set<string>, all: seq<string>, ghost found: seq<Found>)
    returns (activeKeys: set<string>, commentedKeys: set<string>, allKeys: seq<string>)
    requires Tells(found, active, commented, all)
    ensures Tells(found + Read(line), activeKeys, commentedKeys, allKeys)
  {
    activeKeys, commentedKeys, allKeys := active, commented, all;
    var here := Read(line);
    if |here| == 1 {
      TellsMore(found, active, commented, all, here[0]);
      assert here == [here[0]];
      if here[0].Active? {
        activeKeys := activeKeys + {here[0].key};
      } else {
        commentedKeys := commentedKeys + {here[0].key};
      }
      allKeys := allKeys + [here[0].key];
    } else {
      assert found + here == found;
    }
  }

  method ParseEnvExample(text: string) returns (activeKeys: set<string>, commentedKeys: set<string>, allKeys: seq<string>)
    ensures Tells(ReadText(Read, text), activeKeys, commentedKeys, allKeys)
  {
    var lines := Split(text, '\n');
    activeKeys, commentedKeys, allKeys := {}, {}, [];
    ghost var found: seq<Found> := [];
    for i := 0 to |lines|
      invariant Tells(found, activeKeys, commentedKeys, allKeys)
      invariant found + ReadLines(Read, lines[i..]) == ReadLines(Read, lines)
    {
      ReadNext(lines, i, found);
      activeKeys, commentedKeys, allKeys := Note(lines[i], activeKeys, commentedKeys, allKeys, found);
      found := found + Read(lines[i]);
    }
    assert lines[|lines|..] == [];
    assert found + [] == found;
  }

  lemma {:induction false} ReadNext(lines: seq<string>, i: nat, found: seq<Found>)
    requires i < |lines|
    ensures found + ReadLines(Read, lines[i..]) == (found + Read(lines[i])) + ReadLines(Read, lines[i + 1..])
  {
    assert lines[i..][1..] == lines[i + 1..];
  }

  // ----- blanks at the end of a line change nothing ------------------------------------------------------------

  lemma {:induction false} IdentIgnoresTail(s: string, c: char)
    requires c != '='
    ensures IdentBefore(s + [c]) == IdentBefore(s)
  {
    var eq := IndexOf(s, '=');
    var later := IndexOf(s + [c], '=');
    if eq < |s| {
      assert (s + [c])[eq] == '=';
      assert forall k :: 0 <= k < eq ==> (s + [c])[k] != '=';
      assert later == eq;
      assert (s + [c])[..eq] == s[..eq];
    } else {
      assert forall k :: 0 <= k < |s + [c]| ==> (s + [c])[k] != '=';
    }
  }

  lemma {:induction false} TrimStartTail(s: string, c: char)
    requires IsSpace(c)
    ensures TrimStart(s + [c]) == if TrimStart(s) == [] then [] else TrimStart(s) + [c]
  {
    if s == [] {
      assert s + [c] == [c];
      assert [c][1..] == [];
    } else {
      assert (s + [c])[0] == s[0] && (s + [c])[1..] == s[1..] + [c];
      if IsSpace(s[0]) {
        TrimStartTail(s[1..], c);
      }
    }
  }

  lemma {:induction false} LineIgnoresTail(line: string, c: char)
    requires IsSpace(c)
    ensures Read(line + [c]) == Read(line)
  {
    IdentIgnoresTail(line, c);
    if line != [] {
      assert (line + [c])[0] == line[0] && (line + [c])[1..] == line[1..] + [c];
      TrimStartTail(line[1..], c);
      if TrimStart(line[1..]) != [] {
        IdentIgnoresTail(TrimStart(line[1..]), c);
      }
    }
  }

  lemma {:induction false} ReadIgnoresTail()
    ensures IgnoresTail(Read)
  {
    forall line: string, c: char | IsSpace(c)
      ensures Read(line + [c]) == Read(line)
    {
      LineIgnoresTail(line, c);
    }
  }

  // ----- the generator's input -------------------------------------------------------------------------------

  /** A schema node, as far as the generator looks at it. */
  datatype Schema = Default | Pipe(input: Schema) | OptionalOf(inner: Schema) | Plain {
    predicate HasDefault() {
      match this
      case Default => true
      case Pipe(input) => input.HasDefault()
      case OptionalOf(inner) => inner.HasDefault()
      case Plain => false
    }

    predicate IsOptional() {
      match this
      case OptionalOf(_) => true
      case Pipe(input) => input.IsOptional()
      case _ => false
    }
  }

  /** Whether a key of the schema is written uncommented. */
  predicate EmitUncommented(schema: Option<Schema>, requiredForCompose: bool) {
    var hasDefault := schema.Some? && schema.value.HasDefault();
    var optional := schema.Some? && schema.value.IsOptional();
    hasDefault || (!hasDefault && !optional) || requiredForCompose
  }

  /** One key to document.  `rank` is its place in the locale's collation order. */
  datatype Item = Item(key: string, groupIndex: nat, order: int, rank: int, description: string, example: Option<string>,
                       secret: bool, active: bool)

  predicate Before(a: Item, b: Item) {
    if a.groupIndex != b.groupIndex then a.groupIndex < b.groupIndex
    else if a.order != b.order then a.order < b.order
    else a.rank < b.rank
  }

  /** The fixed wording: the placeholder for secrets and the heading of the external section. */
  datatype Wording = Wording(placeholder: string, heading: seq<string>) {
    ghost predicate Valid() {
      && Free(placeholder, '\n') && Read(placeholder) == []
      && AllFree(heading, '\n') && ReadLines(Read, heading) == []
    }
  }

  datatype Job = Job(wording: Wording, groups: seq<string>, cols: nat, items: seq<Item>, externals: seq<Item>) {
    /** Keys are identifiers, groups exist, and group names are one line. */
    ghost predicate Valid() {
      && wording.Valid() && AllFree(groups, '\n')
      && (forall e :: e in items ==> IsIdent(e.key) && e.groupIndex < |groups|)
      && (forall e :: e in externals ==> IsIdent(e.key))
    }
  }

  predicate Exposed(e: Item) {
    e.example.Some? && EnvFile.LooksLikeKey(e.example.value) && !e.secret
  }

  ghost predicate Clean(items: seq<Item>, n: nat)
    requires n <= |items|
  {
    forall i {:trigger Exposed(items[i])} :: 0 <= i < n ==> !Exposed(items[i])
  }

  /** The example after the guard: a secret-looking one gives way to the placeholder. */
  function Guarded(e: Item, placeholder: string): Option<string> {
    if e.example.Some? && EnvFile.LooksLikeKey(e.example.value) then Some(placeholder) else e.example
  }

  // ----- the lines of the file ---------------------------------------------------------------------------------

  function Commented(lines: seq<string>): seq<string> {
    if lines == [] then [] else ["# " + lines[0]] + Commented(lines[1..])
  }

  /** `KEY=value`, or the same behind a number sign. */
  function Setting(key: string, value: string, active: bool): string {
    (if active then "" else "# ") + (key + ['='] + value)
  }

  function DescriptionLines(e: Item, cols: nat): seq<string> {
    Commented(WordWrap.Wrapped(e.description, cols))
  }

  function SettingLines(e: Item, placeholder: string): seq<string> {
    var guarded := Guarded(e, placeholder);
    if guarded == Some(placeholder) then [Setting(e.key, "", false), placeholder]
    else [Setting(e.key, if guarded.Some? then guarded.value else "", e.active)]
  }

  function ItemLines(e: Item, cols: nat, placeholder: string): seq<string> {
    DescriptionLines(e, cols) + SettingLines(e, placeholder) + [""]
  }

  function GroupLines(group: string, first: bool): seq<string> {
    (if first then [] else [""]) + ["# --- " + group + " ---", ""]
  }

  ghost predicate InGroups(job: Job, sorted: seq<Item>) {
    forall i :: 0 <= i < |sorted| ==> sorted[i].groupIndex < |job.groups|
  }

  ghost predicate Named(items: seq<Item>) {
    forall i :: 0 <= i < |items| ==> IsIdent(items[i].key)
  }

  /** The heading before item `n`, if its group is new. */
  function HeadingAt(job: Job, sorted: seq<Item>, n: nat): seq<string>
    requires n < |sorted| && sorted[n].groupIndex < |job.groups|
  {
    if n == 0 || sorted[n].groupIndex != sorted[n - 1].groupIndex
    then GroupLines(job.groups[sorted[n].groupIndex], n == 0) else []
  }

  /** Item by item, with a heading where the group changes. */
  function BodyParts(job: Job, sorted: seq<Item>): (parts: seq<seq<string>>)
    requires InGroups(job, sorted)
    ensures |parts| == |sorted|
    ensures forall i {:trigger parts[i]} :: 0 <= i < |sorted| ==>
      parts[i] == HeadingAt(job, sorted, i) + ItemLines(sorted[i], job.cols, job.wording.placeholder)
  {
    seq(|sorted|, i requires 0 <= i < |sorted| =>
          HeadingAt(job, sorted, i) + ItemLines(sorted[i], job.cols, job.wording.placeholder))
  }

  function ExternalParts(job: Job): (parts: seq<seq<string>>)
    ensures |parts| == |job.externals|
    ensures forall i {:trigger parts[i]} :: 0 <= i < |parts| ==> parts[i] == ItemLines(job.externals[i], job.cols, job.wording.placeholder)
  {
    seq(|job.externals|, i requires 0 <= i < |job.externals| =>
          ItemLines(job.externals[i], job.cols, job.wording.placeholder))
  }

  function ExternalHeading(job: Job): seq<string> {
    if job.externals == [] then [] else job.wording.heading
  }

  function FileLines(job: Job, sorted: seq<Item>): seq<string>
    requires InGroups(job, sorted)
  {
    Concat(BodyParts(job, sorted), |sorted|) + ExternalHeading(job) + Concat(ExternalParts(job), |job.externals|)
  }

  // ----- the generator ------------------------------------------------------------------------------------------

  method PushDescription(lines: seq<string>, e: Item, cols: nat) returns (out: seq<string>)
    ensures out == lines + DescriptionLines(e, cols)
  {
    out := lines;
    var descLines := WordWrap.WrapDescriptionLines(e.description, cols);
    for i := 0 to |descLines|
      invariant out + Commented(descLines[i..]) == lines + Commented(descLines)
    {
      assert descLines[i..][1..] == descLines[i + 1..];
      out := out + ["# " + descLines[i]];
    }
    assert descLines[|descLines|..] == [];
  }

  method PushItem(lines: seq<string>, e: Item, cols: nat, placeholder: string) returns (out: Option<seq<string>>)
    ensures out.None? <==> Exposed(e)
    ensures out.Some? ==> out.value == lines + ItemLines(e, cols, placeholder)
  {
    var body := PushDescription(lines, e, cols);
    if Exposed(e) {
      return None;
    }
    var guarded := Guarded(e, placeholder);
    if guarded == Some(placeholder) {
      body := body + [Setting(e.key, "", false)];
      body := body + [placeholder];
    } else {
      body := body + [Setting(e.key, if guarded.Some? then guarded.value else "", e.active)];
    }
    assert body == lines + DescriptionLines(e, cols) + SettingLines(e, placeholder);
    return Some(body + [""]);
  }

  method PushGroup(lines: seq<string>, group: string) returns (out: seq<string>)
    ensures out == lines + GroupLines(group, |lines| == 0)
  {
    out := lines;
    if |out| > 0 {
      out := out + [""];
    }
    out := out + ["# --- " + group + " ---"];
    out := out + [""];
  }

  /** `parts` are the lines of the items with their headings, `flags` tells which items are refused. */
  ghost predicate BodyRenders(job: Job, sorted: seq<Item>, parts: seq<seq<string>>, flags: seq<bool>)
    requires InGroups(job, sorted)
  {
    && |parts| == |flags| == |sorted|
    && (forall i {:trigger HeadingAt(job, sorted, i)} :: 0 <= i < |sorted| ==>
          parts[i] == HeadingAt(job, sorted, i) + ItemLines(sorted[i], job.cols, job.wording.placeholder))
    && (forall i {:trigger Exposed(sorted[i])} :: 0 <= i < |sorted| ==> flags[i] == Exposed(sorted[i]))
  }

  ghost predicate ExternalsRender(job: Job, parts: seq<seq<string>>, flags: seq<bool>) {
    && |parts| == |flags| == |job.externals|
    && (forall i {:trigger ItemLines(job.externals[i], job.cols, job.wording.placeholder)} :: 0 <= i < |job.externals| ==>
          parts[i] == ItemLines(job.externals[i], job.cols, job.wording.placeholder))
    && (forall i {:trigger Exposed(job.externals[i])} :: 0 <= i < |job.externals| ==> flags[i] == Exposed(job.externals[i]))
  }

  ghost predicate NoneSet(flags: seq<bool>, n: nat)
    requires n <= |flags|
  {
    forall i :: 0 <= i < n ==> !flags[i]
  }

  function Flags(items: seq<Item>): (flags: seq<bool>)
    ensures |flags| == |items| && forall i {:trigger flags[i]} :: 0 <= i < |items| ==> flags[i] == Exposed(items[i])
  {
    seq(|items|, i requires 0 <= i < |items| => Exposed(items[i]))
  }

  lemma {:induction false} CleanIsNoneSet(items: seq<Item>)
    ensures Clean(items, |items|) <==> NoneSet(Flags(items), |items|)
  {
    var flags := Flags(items);
    assert forall i {:trigger Exposed(items[i])} :: 0 <= i < |items| ==> flags[i] == Exposed(items[i]);
  }

  /** One turn of the item loop: a heading if the group changes, then the item. */
  method PushWithHeading(job: Job, sorted: seq<Item>, i: nat, currentGroup: int, lines: seq<string>,
                         ghost parts: seq<seq<string>>, ghost flags: seq<bool>)
    returns (out: Option<seq<string>>)
    requires InGroups(job, sorted) && BodyRenders(job, sorted, parts, flags) && i < |sorted| && (|lines| == 0 <==> i == 0)
    requires currentGroup == if i == 0 then -1 else sorted[i - 1].groupIndex
    ensures out.None? <==> flags[i]
    ensures out.Some? ==> |out.value| > 0 && out.value == lines + parts[i]
  {
    var headed := lines;
    if sorted[i].groupIndex != currentGroup {
      headed := PushGroup(lines, job.groups[sorted[i].groupIndex]);
    }
    ghost var heading, own := HeadingAt(job, sorted, i), ItemLines(sorted[i], job.cols, job.wording.placeholder);
    assert headed == lines + heading by {
      Regroup(lines, [], []);
    }
    out := PushItem(headed, sorted[i], job.cols, job.wording.placeholder);
    Regroup(lines, heading, own);
  }

  method PushItemLoop(job: Job, sorted: seq<Item>, ghost parts: seq<seq<string>>, ghost flags: seq<bool>)
    returns (out: Option<seq<string>>)
    requires InGroups(job, sorted) && BodyRenders(job, sorted, parts, flags)
    ensures out.None? <==> !NoneSet(flags, |flags|)
    ensures out.Some? ==> out.value == Concat(parts, |parts|)
  {
    var lines: seq<string> := [];
    var currentGroup: int := -1;
    for i := 0 to |sorted|
      invariant NoneSet(flags, i)
      invariant lines == Concat(parts, i)
      invariant |lines| == 0 <==> i == 0
      invariant currentGroup == if i == 0 then -1 else sorted[i - 1].groupIndex
    {
      var next := PushWithHeading(job, sorted, i, currentGroup, lines, parts, flags);
      if next.None? {
        return None;
      }
      currentGroup := sorted[i].groupIndex;
      lines := next.value;
    }
    return Some(lines);
  }

  method PushItems(job: Job, sorted: seq<Item>) returns (out: Option<seq<string>>)
    requires InGroups(job, sorted)
    ensures out.None? <==> !Clean(sorted, |sorted|)
    ensures out.Some? ==> out.value == Concat(BodyParts(job, sorted), |sorted|)
  {
    CleanIsNoneSet(sorted);
    BodyPartsRender(job, sorted);
    out := PushItemLoop(job, sorted, BodyParts(job, sorted), Flags(sorted));
  }

  lemma {:induction false} BodyPartsRender(job: Job, sorted: seq<Item>)
    requires InGroups(job, sorted)
    ensures BodyRenders(job, sorted, BodyParts(job, sorted), Flags(sorted))
  {
  }

  /** One turn of the external loop. */
  method PushExternal(job: Job, i: nat, lines: seq<string>, ghost parts: seq<seq<string>>, ghost flags: seq<bool>)
    returns (out: Option<seq<string>>)
    requires ExternalsRender(job, parts, flags) && i < |job.externals|
    ensures out.None? <==> flags[i]
    ensures out.Some? ==> out.value == lines + parts[i]
  {
    out := PushItem(lines, job.externals[i], job.cols, job.wording.placeholder);
  }

  method PushExternalLoop(job: Job, base: seq<string>, ghost parts: seq<seq<string>>, ghost flags: seq<bool>)
    returns (out: Option<seq<string>>)
    requires ExternalsRender(job, parts, flags)
    ensures out.None? <==> !NoneSet(flags, |flags|)
    ensures out.Some? ==> out.value == base + Concat(parts, |parts|)
  {
    var lines := base;
    assert base + [] == base;
    for i := 0 to |job.externals|
      invariant NoneSet(flags, i)
      invariant lines == base + Concat(parts, i)
    {
      var next := PushExternal(job, i, lines, parts, flags);
      if next.None? {
        return None;
      }
      ConcatNext(parts, i, parts[i]);
      Append(base, Concat(parts, i), parts[i], Concat(parts, i + 1), lines, next.value);
      lines := next.value;
    }
    return Some(lines);
  }

  method PushExternals(job: Job, start: seq<string>) returns (out: Option<seq<string>>)
    ensures out.None? <==> !Clean(job.externals, |job.externals|)
    ensures out.Some? ==> out.value == start + ExternalHeading(job) + Concat(ExternalParts(job), |job.externals|)
  {
    var lines := start;
    if |job.externals| > 0 {
      lines := lines + job.wording.heading;
    }
    assert lines == start + ExternalHeading(job) by {
      Regroup(start, [], []);
    }
    CleanIsNoneSet(job.externals);
    ExternalPartsRender(job);
    out := PushExternalLoop(job, lines, ExternalParts(job), Flags(job.externals));
  }

  lemma {:induction false} ExternalPartsRender(job: Job)
    ensures ExternalsRender(job, ExternalParts(job), Flags(job.externals))
  {
  }

  lemma {:induction false} SortKeepsValid(job: Job)
    requires job.Valid()
    ensures InGroups(job, Sort(Before, job.items)) && Named(Sort(Before, job.items))
    ensures Clean(Sort(Before, job.items), |Sort(Before, job.items)|) <==> Clean(job.items, |job.items|)
  {
    var s := Sort(Before, job.items);
    forall i | 0 <= i < |s|
      ensures s[i] in job.items
    {
      SortMembers(Before, job.items, s[i]);
    }
    forall i | 0 <= i < |job.items|
      ensures job.items[i] in s
    {
      SortMembers(Before, job.items, job.items[i]);
    }
  }

  /** The whole file; refused exactly when a secret-looking example stands under a key not marked secret. */
  method GenerateEnvExample(job: Job) returns (text: Option<string>)
    requires job.Valid()
    ensures text.None? <==> !Clean(job.items, |job.items|) || !Clean(job.externals, |job.externals|)
    ensures text.Some? ==> ReadText(Read, text.value) == Documented(job)
  {
    SortKeepsValid(job);
    var sorted := Sort(Before, job.items);
    var body := PushItems(job, sorted);
    if body.None? {
      return None;
    }
    var lines := PushExternals(job, body.value);
    if lines.None? {
      return None;
    }
    FileReadsBack(job, sorted);
    return Some(TrimEnd(Join(lines.value, '\n')) + ['\n']);
  }

  // ----- what the file reads as ----------------------------------------------------------------------------------

  /** Keys that the description itself seems to set. */
  function DescriptionKeys(e: Item, cols: nat): seq<Found> {
    ReadLines(Read, DescriptionLines(e, cols))
  }

  /** Keys that the second and later lines of the example seem to set. */
  function ExampleKeys(e: Item, placeholder: string): seq<Found> {
    var guarded := Guarded(e, placeholder);
    if guarded.None? || guarded == Some(placeholder) then []
    else ReadLines(Read, Split(guarded.value, '\n')[1..])
  }

  /** The item's own key: commented out for a placeholder, otherwise as decided. */
  function OwnKey(e: Item, placeholder: string): Found {
    if e.active && Guarded(e, placeholder) != Some(placeholder) then Active(e.key) else CommentedOut(e.key)
  }

  /** What one item reads as: strays of the description, its own key, strays of the example. */
  function ItemKeys(e: Item, cols: nat, placeholder: string): seq<Found> {
    DescriptionKeys(e, cols) + [OwnKey(e, placeholder)] + ExampleKeys(e, placeholder)
  }

  function KeyParts(items: seq<Item>, cols: nat, placeholder: string): (parts: seq<seq<Found>>)
    ensures |parts| == |items| && forall i {:trigger parts[i]} :: 0 <= i < |items| ==> parts[i] == ItemKeys(items[i], cols, placeholder)
  {
    seq(|items|, i requires 0 <= i < |items| => ItemKeys(items[i], cols, placeholder))
  }

  function AllItemKeys(items: seq<Item>, cols: nat, placeholder: string): seq<Found> {
    Concat(KeyParts(items, cols, placeholder), |items|)
  }

  /** Every key in the order of the file, besides what descriptions and multi-line examples spell. */
  function Documented(job: Job): seq<Found> {
    AllItemKeys(Sort(Before, job.items), job.cols, job.wording.placeholder)
    + AllItemKeys(job.externals, job.cols, job.wording.placeholder)
  }

  lemma {:induction false} IdentHasNo(key: string, c: char)
    requires IsIdent(key) && !IdentStart(c) && !('0' <= c <= '9')
    ensures Free(key, c)
  {
    assert forall i :: 0 <= i < |key| ==> key[i] != c;
  }

  lemma {:induction false} IdentIsFound(key: string, value: string)
    requires IsIdent(key)
    ensures IdentBefore(key + ['='] + value) == Some(key)
  {
    var s := key + ['='] + value;
    IdentHasNo(key, '=');
    EnvFile.IndexOfSplit(key, '=', value);
    assert s[..|key|] == key;
  }

  lemma {:induction false} NoIdent(s: string)
    requires s != [] && !IdentStart(s[0])
    ensures IdentBefore(s).None?
  {
    var eq := IndexOf(s, '=');
    assert 0 < eq < |s| ==> s[..eq][0] == s[0];
  }

  lemma {:induction false} TrimSpaceFirst(s: string)
    requires s != [] && !IsSpace(s[0])
    ensures TrimStart([' '] + s) == s
  {
    assert ([' '] + s)[0] == ' ' && ([' '] + s)[1..] == s;
  }

  /** A comment: a number sign, a space, and text that does not start with a blank. */
  lemma {:induction false} ReadComment(text: string)
    requires text != [] && !IsSpace(text[0])
    ensures Read("# " + text) == match IdentBefore(text) case Some(key) => [CommentedOut(key)] case None => []
  {
    var line := "# " + text;
    NoIdent(line);
    assert line[1..] == [' '] + text;
    TrimSpaceFirst(text);
  }

  lemma {:induction false} GroupLineHasNoKey(group: string)
    ensures Read("# --- " + group + " ---") == []
  {
    var text := "--- " + group + " ---";
    NoIdent(text);
    ReadComment(text);
    assert "# " + text == "# --- " + group + " ---";
  }

  lemma {:induction false} SettingLine(key: string, value: string, active: bool)
    requires IsIdent(key)
    ensures Read(Setting(key, value, active)) == [if active then Active(key) else CommentedOut(key)]
  {
    IdentIsFound(key, value);
    var s := key + ['='] + value;
    if active {
      assert "" + s == s;
    } else {
      assert s[0] == key[0];
      ReadComment(s);
    }
  }

  /** A setting reads as its key, then as whatever further lines of the value say. */
  lemma {:induction false} SettingIsRead(key: string, value: string, active: bool)
    requires IsIdent(key)
    ensures ReadText(Read, Setting(key, value, active))
         == [if active then Active(key) else CommentedOut(key)] + ReadLines(Read, Split(value, '\n')[1..])
  {
    var front := (if active then "" else "# ") + (key + ['=']);
    var parts := Split(value, '\n');
    IdentHasNo(key, '\n');
    assert Setting(key, value, active) == front + value;
    SplitPrefix(front, '\n', value);
    var first := front + parts[0];
    assert first == Setting(key, parts[0], active);
    SettingLine(key, parts[0], active);
    ReadConcat(Read, [first], parts[1..]);
    ReadOne(Read, first);
  }

  lemma {:induction false} CommentedIsFree(lines: seq<string>)
    requires AllFree(lines, '\n')
    ensures AllFree(Commented(lines), '\n')
  {
    if lines != [] {
      assert Free(lines[0], '\n');
      CommentedIsFree(lines[1..]);
    }
  }

  lemma {:induction false} DescriptionReads(e: Item, cols: nat)
    ensures ReadPushed(Read, DescriptionLines(e, cols)) == DescriptionKeys(e, cols)
  {
    SplitGivesFree(e.description, '\n');
    WordWrap.WrapKeepsFree(Split(e.description, '\n'), cols, '\n');
    CommentedIsFree(WordWrap.Wrapped(e.description, cols));
    PushedFree(Read, DescriptionLines(e, cols));
  }

  lemma {:induction false} SettingLinesRead(e: Item, wording: Wording)
    requires wording.Valid() && IsIdent(e.key)
    ensures ReadPushed(Read, SettingLines(e, wording.placeholder))
         == [OwnKey(e, wording.placeholder)] + ExampleKeys(e, wording.placeholder)
  {
    var placeholder := wording.placeholder;
    var guarded := Guarded(e, placeholder);
    if guarded == Some(placeholder) {
      SettingIsRead(e.key, "", false);
      SplitFree("", '\n');
      ReadFree(Read, placeholder);
      PushedConcat(Read, [Setting(e.key, "", false)], [placeholder]);
      ReadOne(Read, Setting(e.key, "", false));
      ReadOne(Read, placeholder);
      assert SettingLines(e, placeholder) == [Setting(e.key, "", false)] + [placeholder];
    } else {
      var value := if guarded.Some? then guarded.value else "";
      SettingIsRead(e.key, value, e.active);
      SplitFree("", '\n');
      ReadOne(Read, Setting(e.key, value, e.active));
    }
  }

  lemma {:induction false} BlankReads()
    ensures Read("") == [] && ReadPushed(Read, [""]) == []
  {
    ReadFree(Read, "");
    ReadOne(Read, "");
  }

  lemma {:induction false} ItemReads(e: Item, cols: nat, wording: Wording)
    requires wording.Valid() && IsIdent(e.key)
    ensures ReadPushed(Read, ItemLines(e, cols, wording.placeholder)) == ItemKeys(e, cols, wording.placeholder)
  {
    var d, s := DescriptionLines(e, cols), SettingLines(e, wording.placeholder);
    DescriptionReads(e, cols);
    SettingLinesRead(e, wording);
    BlankReads();
    PushedConcat(Read, d, s);
    PushedConcat(Read, d + s, [""]);
  }

  lemma {:induction false} GroupReads(group: string, first: bool)
    requires Free(group, '\n')
    ensures ReadPushed(Read, GroupLines(group, first)) == []
  {
    var title := "# --- " + group + " ---";
    GroupLineHasNoKey(group);
    BlankReads();
    ReadFree(Read, title);
    ReadOne(Read, title);
    PushedConcat(Read, [title], [""]);
    PushedConcat(Read, [""], [title] + [""]);
    assert GroupLines(group, true) == [title] + [""];
    assert GroupLines(group, false) == [""] + ([title] + [""]);
  }

  lemma {:induction false} BodyPartReads(job: Job, sorted: seq<Item>, n: nat)
    requires job.wording.Valid() && AllFree(job.groups, '\n') && InGroups(job, sorted) && n < |sorted| && IsIdent(sorted[n].key)
    ensures ReadPushed(Read, BodyParts(job, sorted)[n]) == ItemKeys(sorted[n], job.cols, job.wording.placeholder)
  {
    var heading, lines := HeadingAt(job, sorted, n), ItemLines(sorted[n], job.cols, job.wording.placeholder);
    assert Free(job.groups[sorted[n].groupIndex], '\n');
    GroupReads(job.groups[sorted[n].groupIndex], n == 0);
    ItemReads(sorted[n], job.cols, job.wording);
    PushedConcat(Read, heading, lines);
  }

  lemma {:induction false} ThreeParts(read: string -> seq<Found>, a: seq<string>, b: seq<string>, c: seq<string>)
    ensures ReadPushed(read, a + b + c) == ReadPushed(read, a) + ReadPushed(read, b) + ReadPushed(read, c)
  {
    PushedConcat(read, a, b);
    PushedConcat(read, a + b, c);
  }

  lemma {:induction false} BodyReads(job: Job, sorted: seq<Item>)
    requires job.wording.Valid() && AllFree(job.groups, '\n') && InGroups(job, sorted) && Named(sorted)
    ensures ReadPushed(Read, Concat(BodyParts(job, sorted), |sorted|))
         == AllItemKeys(sorted, job.cols, job.wording.placeholder)
  {
    var parts, heard := BodyParts(job, sorted), KeyParts(sorted, job.cols, job.wording.placeholder);
    forall k | 0 <= k < |sorted|
      ensures ReadPushed(Read, parts[k]) == heard[k]
    {
      BodyPartReads(job, sorted, k);
    }
    PartsRead(Read, parts, heard, |sorted|);
  }

  lemma {:induction false} ExternalsRead(job: Job)
    requires job.wording.Valid() && Named(job.externals)
    ensures ReadPushed(Read, Concat(ExternalParts(job), |job.externals|))
         == AllItemKeys(job.externals, job.cols, job.wording.placeholder)
  {
    var parts, heard := ExternalParts(job), KeyParts(job.externals, job.cols, job.wording.placeholder);
    forall k | 0 <= k < |parts|
      ensures ReadPushed(Read, parts[k]) == heard[k]
    {
      ItemReads(job.externals[k], job.cols, job.wording);
    }
    PartsRead(Read, parts, heard, |parts|);
  }

  lemma {:induction false} FileLinesRead(job: Job, sorted: seq<Item>)
    requires job.Valid() && InGroups(job, sorted) && Named(sorted) && sorted == Sort(Before, job.items)
    ensures ReadPushed(Read, FileLines(job, sorted)) == Documented(job)
  {
    BodyReads(job, sorted);
    ExternalsRead(job);
    PushedFree(Read, job.wording.heading);
    Regroup(AllItemKeys(sorted, job.cols, job.wording.placeholder), [], []);
    ThreeParts(Read, Concat(BodyParts(job, sorted), |sorted|), ExternalHeading(job), Concat(ExternalParts(job), |job.externals|));
  }

  /** The drift parser reads every key where it was documented, active or commented out as decided. */
  lemma {:induction false} FileReadsBack(job: Job, sorted: seq<Item>)
    requires job.Valid() && InGroups(job, sorted) && Named(sorted) && sorted == Sort(Before, job.items)
    ensures ReadText(Read, TrimEnd(Join(FileLines(job, sorted), '\n')) + ['\n']) == Documented(job)
  {
    FileLinesRead(job, sorted);
    ReadIgnoresTail();
    WholeFileReads(Read, FileLines(job, sorted));
  }
}
