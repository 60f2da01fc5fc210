/**
 The generated `.env` file as a whole: the builder that lays it out and the parser that restores
 earlier values from it.
 */
module EnvFile {
  import opened Prelude
  import opened Text
  import opened Dotenv

  // ----- the parser ---------------------------------------------------------------------------------------

  predicate KeyStart(c: char) {
    'A' <= c <= 'Z' || c == '_'
  }

  predicate KeyRest(c: char) {
    KeyStart(c) || '0' <= c <= '9'
  }

  /** [A-Z_][A-Z0-9_]* */
  predicate IsKey(s: string) {
    s != [] && KeyStart(s[0]) && forall i :: 0 <= i < |s| ==> KeyRest(s[i])
  }

  function WithoutCr(line: string): string {
    if line != [] && line[|line| - 1] == '\r' then line[..|line| - 1] else line
  }

  /** Blank, or a number sign after white space. */
  predicate IsSkipped(line: string) {
    line == [] || (var t := TrimStart(line); t != [] && t[0] == '#')
  }

  function ReadValue(raw: string): string {
    if |raw| >= 2 && raw[0] == '\"' && raw[|raw| - 1] == '\"' then Unescape(raw[1..|raw| - 1]) else raw
  }

  datatype Entry = Entry(key: string, value: string)

  function ReadLine(raw: string): Option<Entry> {
    var line := WithoutCr(raw);
    if IsSkipped(line) then None
    else
      var eq := IndexOf(line, '=');
      if eq == 0 || eq == |line| then None
      else
        var key := Trim(line[..eq]);
        if IsKey(key) then Some(Entry(key, ReadValue(line[eq + 1..]))) else None
  }

  function Store(out: map<string, string>, e: Option<Entry>): map<string, string> {
    match e
    case None => out
    case Some(entry) => out[entry.key := entry.value]
  }

  /** Later lines win. */
  function ReadLines(lines: seq<string>): map<string, string> {
    if lines == [] then map[]
    else Store(ReadLines(lines[..|lines| - 1]), ReadLine(lines[|lines| - 1]))
  }

  method ParseSimpleDotenv(text: string) returns (out: map<string, string>)
    ensures out == ReadLines(Split(text, '\n'))
  {
    var lines := Split(text, '\n');
    out := map[];
    for i := 0 to |lines|
      invariant out == ReadLines(lines[..i])
    {
      assert lines[..i + 1][..i] == lines[..i];
      out := Store(out, ReadLine(lines[i]));
    }
    assert lines[..|lines|] == lines;
  }

  // ----- the lines the builder writes -----------------------------------------------------------------------

  /** `KEY="escaped value"` */
  function Assignment(key: string, value: string): string {
    key + "=" + ("\"" + EscapeBody(value) + "\"")
  }

  lemma {:induction false} KeyHasNone(key: string, c: char)
    requires IsKey(key) && !KeyRest(c)
    ensures c !in key
  {
    assert forall i :: 0 <= i < |key| ==> KeyRest(key[i]);
  }

  lemma {:induction false} IndexOfSplit(a: string, c: char, b: string)
    requires c !in a
    ensures IndexOf(a + [c] + b, c) == |a|
  {
    var s := a + [c] + b;
    var i := IndexOf(s, c);
    assert s[|a|] == c;
    assert forall k :: 0 <= k < |a| ==> s[k] == a[k] && s[k] != c;
  }

  lemma {:induction false} KeyIsTrimmed(key: string)
    requires IsKey(key)
    ensures Trim(key) == key
  {
    assert KeyRest(key[|key| - 1]);
  }

  lemma {:induction false} QuotedIsRead(value: string)
    ensures ReadValue("\"" + EscapeBody(value) + "\"") == ReadBack(value)
  {
    var quoted := "\"" + EscapeBody(value) + "\"";
    assert quoted[1..|quoted| - 1] == EscapeBody(value);
    UnescapeEscaped(value);
  }

  /** A key, an equals sign, and text that does not end in a carriage return. */
  lemma {:induction false} KeyAndText(key: string, text: string)
    requires IsKey(key) && text != [] && text[|text| - 1] != '\r'
    ensures ReadLine(key + ['='] + text) == Some(Entry(key, ReadValue(text)))
  {
    var line := key + ['='] + text;
    SplitAtEquals(key, text);
    NotSkipped(line);
    KeyIsTrimmed(key);
    assert WithoutCr(line) == line;
    assert ReadLine(line) == Some(Entry(Trim(line[..|key|]), ReadValue(line[|key| + 1..])));
  }

  lemma {:induction false} SplitAtEquals(key: string, text: string)
    requires IsKey(key) && text != []
    ensures var line := key + ['='] + text;
            && line[0] == key[0] && line[|line| - 1] == text[|text| - 1]
            && IndexOf(line, '=') == |key| && line[..|key|] == key && line[|key| + 1..] == text
  {
    KeyHasNone(key, '=');
    IndexOfSplit(key, '=', text);
  }

  lemma {:induction false} NotSkipped(line: string)
    requires line != [] && !IsSpace(line[0]) && line[0] != '#'
    ensures !IsSkipped(line)
  {
  }

  /** An assignment is read back as its key with the value as it survives escaping. */
  lemma {:induction false} AssignmentIsRead(key: string, value: string)
    requires IsKey(key)
    ensures ReadLine(Assignment(key, value)) == Some(Entry(key, ReadBack(value)))
  {
    QuotedIsRead(value);
    KeyAndText(key, "\"" + EscapeBody(value) + "\"");
  }

  lemma {:induction false} CommentIsSkipped(line: string)
    requires line == [] || line[0] == '#'
    ensures ReadLine(line).None?
  {
  }

  /** An escaped value spans one line, whatever the value holds. */
  lemma {:induction false} EscapedIsOneLine(v: string)
    ensures Free(EscapeBody(v), '\n') && Free(EscapeBody(v), '\r')
  {
    EscapeIsPerCharacter(v);
    if v != [] {
      EscapedIsOneLine(v[1..]);
      EscapeIsPerCharacter(v[1..]);
    }
  }

  lemma {:induction false} AssignmentIsOneLine(key: string, value: string)
    requires IsKey(key)
    ensures Free(Assignment(key, value), '\n')
  {
    KeyHasNone(key, '\n');
    EscapedIsOneLine(value);
  }

  // ----- the builder ----------------------------------------------------------------------------------------

  datatype Field = Field(key: string, groupIndex: nat, description: string, secret: bool)
  datatype External = External(key: string, description: string, secret: bool)

  /** The fixed comments of the file, whatever their wording. */
  datatype Wording = Wording(title: string, externalTitle: string, rule: string) {
    ghost predicate Valid() {
      Free(title, '\n') && Free(externalTitle, '\n') && Free(rule, '\n')
    }
  }

  /** Everything the builder is given: the sorted fields, the allowlist, and the collected values. */
  datatype Job = Job(wording: Wording, profile: string, generatedAt: string, groups: seq<string>, fields: seq<Field>,
                     externals: seq<External>, collected: map<string, string>)
  {
    /** What the descriptions tables and the option parser guarantee. */
    ghost predicate Valid() {
      && wording.Valid() && Free(profile, '\n') && Free(generatedAt, '\n')
      && (forall i :: 0 <= i < |groups| ==> Free(groups[i], '\n'))
      && (forall i :: 0 <= i < |fields| ==> IsKey(fields[i].key) && fields[i].groupIndex < |groups|)
      && (forall i :: 0 <= i < |externals| ==> IsKey(externals[i].key))
    }

    ghost predicate HasKey(k: string) {
      (exists i :: 0 <= i < |fields| && fields[i].key == k) || (exists i :: 0 <= i < |externals| && externals[i].key == k)
    }

    /** Some value looks like a secret although its key is not marked as one. */
    ghost predicate Leaks() {
      || (exists i :: 0 <= i < |fields| && fields[i].key in collected && Exposed(collected[fields[i].key], fields[i].secret))
      || (exists i :: 0 <= i < |externals| && externals[i].key in collected && Exposed(collected[externals[i].key], externals[i].secret))
    }
  }

  predicate HexDigit(c: char) {
    'A' <= c <= 'F' || 'a' <= c <= 'f' || '0' <= c <= '9'
  }

  /** 32 or more hexadecimal digits and nothing else. */
  predicate LooksLikeKey(value: string) {
    |value| >= 32 && AllHex(value)
  }

  predicate AllHex(s: string) {
    s == [] || (HexDigit(s[0]) && AllHex(s[1..]))
  }

  predicate Exposed(value: string, secret: bool) {
    LooksLikeKey(value) && !secret
  }

  /** The values the lines so far stand for, and that each entry is one line. */
  ghost predicate Says(lines: seq<string>, said: map<string, string>) {
    lines != [] && AllFree(lines, '\n') && ReadLines(lines) == said
  }

  lemma {:induction false} SaysMore(lines: seq<string>, said: map<string, string>, line: string)
    requires Says(lines, said) && Free(line, '\n')
    ensures Says(lines + [line], Store(said, ReadLine(line)))
  {
    assert (lines + [line])[..|lines|] == lines;
  }

  lemma {:induction false} CommentSaysNothing(lines: seq<string>, said: map<string, string>, line: string)
    requires Says(lines, said) && Free(line, '\n') && (line == [] || line[0] == '#')
    ensures Says(lines + [line], said)
  {
    SaysMore(lines, said, line);
    CommentIsSkipped(line);
  }

  /** A description, one comment per line of it. */
  method PushDescription(lines: seq<string>, description: string, ghost said: map<string, string>) returns (out: seq<string>)
    requires Says(lines, said)
    ensures Says(out, said)
    ensures out == lines + Commented(Split(description, '\n'))
  {
    var descLines := Split(description, '\n');
    SplitGivesFree(description, '\n');
    out := lines;
    for i := 0 to |descLines|
      invariant Says(out, said)
      invariant out == lines + Commented(descLines[..i])
    {
      assert Free(descLines[i], '\n');
      assert descLines[..i + 1][..i] == descLines[..i];
      CommentSaysNothing(out, said, "# " + descLines[i]);
      out := out + ["# " + descLines[i]];
    }
    assert descLines[..|descLines|] == descLines;
  }

  function Commented(descLines: seq<string>): seq<string> {
    if descLines == [] then []
    else Commented(descLines[..|descLines| - 1]) + ["# " + descLines[|descLines| - 1]]
  }

  /** A description, the assignment, and a blank line. */
  method PushEntry(lines: seq<string>, key: string, value: string, description: string, ghost said: map<string, string>)
    returns (out: seq<string>)
    requires Says(lines, said) && IsKey(key)
    ensures Says(out, said[key := ReadBack(value)])
    ensures out == lines + Commented(Split(description, '\n')) + [Assignment(key, value), ""]
  {
    out := PushDescription(lines, description, said);
    AssignmentIsOneLine(key, value);
    SaysMore(out, said, Assignment(key, value));
    AssignmentIsRead(key, value);
    out := out + [Assignment(key, value)];
    CommentSaysNothing(out, said[key := ReadBack(value)], "");
    out := out + [""];
  }

  /** The values written so far, with the keys seen so far. */
  ghost function Written(job: Job, nFields: nat, nExternals: nat): map<string, string> {
    map k | k in job.collected && Reached(job, nFields, nExternals, k) :: ReadBack(job.collected[k])
  }

  ghost predicate Reached(job: Job, nFields: nat, nExternals: nat, k: string) {
    || (exists i :: 0 <= i < nFields && i < |job.fields| && job.fields[i].key == k)
    || (exists i :: 0 <= i < nExternals && i < |job.externals| && job.externals[i].key == k)
  }

  lemma {:induction false} OneMoreField(job: Job, n: nat)
    requires n < |job.fields|
    ensures var k := job.fields[n].key;
            Written(job, n + 1, 0) == if k in job.collected then Written(job, n, 0)[k := ReadBack(job.collected[k])] else Written(job, n, 0)
  {
    forall k | k in job.collected
      ensures Reached(job, n + 1, 0, k) <==> Reached(job, n, 0, k) || k == job.fields[n].key
    {
    }
  }

  lemma {:induction false} OneMoreExternal(job: Job, n: nat)
    requires n < |job.externals|
    ensures var k := job.externals[n].key; var m := |job.fields|;
            Written(job, m, n + 1) == if k in job.collected then Written(job, m, n)[k := ReadBack(job.collected[k])] else Written(job, m, n)
  {
    forall k | k in job.collected
      ensures Reached(job, |job.fields|, n + 1, k) <==> Reached(job, |job.fields|, n, k) || k == job.externals[n].key
    {
    }
  }

  ghost predicate FieldsClean(job: Job, n: nat) {
    forall i :: 0 <= i < n && i < |job.fields| && job.fields[i].key in job.collected
      ==> !Exposed(job.collected[job.fields[i].key], job.fields[i].secret)
  }

  ghost predicate ExternalsClean(job: Job, n: nat) {
    forall i :: 0 <= i < n && i < |job.externals| && job.externals[i].key in job.collected
      ==> !Exposed(job.collected[job.externals[i].key], job.externals[i].secret)
  }

  /** The comment that opens a group, after a blank line. */
  method PushGroup(lines: seq<string>, group: string, ghost said: map<string, string>) returns (out: seq<string>)
    requires Says(lines, said) && Free(group, '\n')
    ensures Says(out, said)
    ensures out == lines + (if |lines| > 1 then [""] else []) + ["# --- " + group + " ---", ""]
  {
    out := lines;
    if |out| > 1 {
      CommentSaysNothing(out, said, "");
      out := out + [""];
    }
    CommentSaysNothing(out, said, "# --- " + group + " ---");
    out := out + ["# --- " + group + " ---"];
    CommentSaysNothing(out, said, "");
    out := out + [""];
  }

  method PushFields(job: Job, start: seq<string>) returns (lines: Option<seq<string>>)
    requires job.Valid() && Says(start, map[])
    ensures lines.None? <==> !FieldsClean(job, |job.fields|)
    ensures lines.Some? ==> Says(lines.value, Written(job, |job.fields|, 0))
  {
    var out := start;
    var currentGroup: int := -1;
    assert Written(job, 0, 0) == map[];
    for i := 0 to |job.fields|
      invariant Says(out, Written(job, i, 0))
      invariant FieldsClean(job, i)
    {
      var field := job.fields[i];
      OneMoreField(job, i);
      if field.key in job.collected {
        var value := job.collected[field.key];
        if Exposed(value, field.secret) {
          return None;
        }
        if field.groupIndex != currentGroup {
          out := PushGroup(out, job.groups[field.groupIndex], Written(job, i, 0));
          currentGroup := field.groupIndex;
        }
        out := PushEntry(out, field.key, value, field.description, Written(job, i, 0));
      }
    }
    return Some(out);
  }

  /** The heading of the trailing section. */
  method PushExternalHeading(lines: seq<string>, wording: Wording, ghost said: map<string, string>) returns (out: seq<string>)
    requires Says(lines, said) && wording.Valid()
    ensures Says(out, said)
    ensures out == lines + ["", "# " + wording.rule, "# " + wording.externalTitle, "# " + wording.rule, ""]
  {
    CommentSaysNothing(lines, said, "");
    out := lines + [""];
    CommentSaysNothing(out, said, "# " + wording.rule);
    out := out + ["# " + wording.rule];
    CommentSaysNothing(out, said, "# " + wording.externalTitle);
    out := out + ["# " + wording.externalTitle];
    CommentSaysNothing(out, said, "# " + wording.rule);
    out := out + ["# " + wording.rule];
    CommentSaysNothing(out, said, "");
    out := out + [""];
  }

  method PushExternals(job: Job, start: seq<string>) returns (lines: Option<seq<string>>)
    requires job.Valid() && Says(start, Written(job, |job.fields|, 0))
    ensures lines.None? <==> !ExternalsClean(job, |job.externals|)
    ensures lines.Some? ==> Says(lines.value, Written(job, |job.fields|, |job.externals|))
  {
    var out := start;
    ghost var m := |job.fields|;
    if exists i :: 0 <= i < |job.externals| && job.externals[i].key in job.collected {
      out := PushExternalHeading(out, job.wording, Written(job, m, 0));
    }
    for i := 0 to |job.externals|
      invariant Says(out, Written(job, m, i))
      invariant ExternalsClean(job, i)
    {
      var entry := job.externals[i];
      OneMoreExternal(job, i);
      if entry.key in job.collected {
        var value := job.collected[entry.key];
        if Exposed(value, entry.secret) {
          return None;
        }
        out := PushEntry(out, entry.key, value, entry.description, Written(job, m, i));
      }
    }
    return Some(out);
  }

  method Header(job: Job) returns (lines: seq<string>)
    requires job.Valid()
    ensures Says(lines, map[])
    ensures lines == ["# " + job.wording.title, "# Profile: " + job.profile, "# Generated at: " + job.generatedAt, ""]
  {
    var title := "# " + job.wording.title;
    lines := [title];
    CommentIsSkipped(title);
    assert lines[..0] == [];
    CommentSaysNothing(lines, map[], "# Profile: " + job.profile);
    lines := lines + ["# Profile: " + job.profile];
    CommentSaysNothing(lines, map[], "# Generated at: " + job.generatedAt);
    lines := lines + ["# Generated at: " + job.generatedAt];
    CommentSaysNothing(lines, map[], "");
    lines := lines + [""];
  }

  /**
   The whole file.  It is refused exactly when a value looks like a secret under a key that is not
   marked secret; otherwise parsing it gives every key that was written, and no other key, with its
   value as it survives escaping.
   */
  method BuildEnv(job: Job) returns (content: Option<string>)
    requires job.Valid()
    ensures content.None? <==> job.Leaks()
    ensures content.Some? ==> ReadLines(Split(content.value, '\n')) == Written(job, |job.fields|, |job.externals|)
  {
    var header := Header(job);
    var fields := PushFields(job, header);
    if fields.None? {
      return None;
    }
    var lines := PushExternals(job, fields.value);
    if lines.None? {
      return None;
    }
    SplitJoinEnded(lines.value, '\n');
    SaysMore(lines.value, Written(job, |job.fields|, |job.externals|), "");
    CommentIsSkipped("");
    return Some(Join(lines.value, '\n') + "\n");
  }

  lemma {:induction false} WrittenKeys(job: Job)
    ensures forall k :: k in Written(job, |job.fields|, |job.externals|) <==> k in job.collected && job.HasKey(k)
  {
    forall k
      ensures Reached(job, |job.fields|, |job.externals|, k) <==> job.HasKey(k)
    {
    }
  }

  /** The file restores every written value exactly when each of them survives escaping. */
  lemma {:induction false} FileRestoresIff(job: Job)
    ensures (forall k :: k in Written(job, |job.fields|, |job.externals|)
                         ==> Written(job, |job.fields|, |job.externals|)[k] == job.collected[k])
       <==> (forall k :: k in job.collected && job.HasKey(k) ==> Survives(job.collected[k]))
  {
    WrittenKeys(job);
    var written := Written(job, |job.fields|, |job.externals|);
    forall k | k in written
      ensures written[k] == job.collected[k] <==> Survives(job.collected[k])
    {
      ReadBackIff(job.collected[k]);
    }
  }
}
