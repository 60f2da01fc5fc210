/**
 The `.env` file: escaping a value in five replacement passes, unescaping it in four, building the
 file and reading it back.
 */
module Dotenv {
  import opened Prelude
  import opened Text

  // ----- escaping ---------------------------------------------------------------------------------------

  /** value.replace(/c/g, with). */
  function ReplaceChar(s: string, c: char, with: string): string {
    if s == [] then [] else (if s[0] == c then with else [s[0]]) + ReplaceChar(s[1..], c, with)
  }

  /** The five passes of dotenvEscape, without the surrounding quotes. */
  function EscapeBody(v: string): string {
    var s1 := ReplaceChar(v, '\\', "\\\\");
    var s2 := ReplaceChar(s1, '\"', "\\\"");
    var s3 := ReplaceChar(s2, '\n', "\\n");
    var s4 := ReplaceChar(s3, '\r', "\\r");
    ReplaceChar(s4, '$', "\\$")
  }

  function EscapeChar(c: char): string {
    match c
    case '\\' => "\\\\"
    case '\"' => "\\\""
    case '\n' => "\\n"
    case '\r' => "\\r"
    case '$' => "\\$"
    case _ => [c]
  }

  function EscapeEach(v: string): string {
    if v == [] then [] else EscapeChar(v[0]) + EscapeEach(v[1..])
  }

  lemma {:induction false} ReplaceConcat(a: string, b: string, c: char, with: string)
    ensures ReplaceChar(a + b, c, with) == ReplaceChar(a, c, with) + ReplaceChar(b, c, with)
  {
    if a == [] {
      assert a + b == b;
    } else {
      assert (a + b)[1..] == a[1..] + b;
      ReplaceConcat(a[1..], b, c, with);
    }
  }

  lemma {:induction false} EscapeConcat(a: string, b: string)
    ensures EscapeBody(a + b) == EscapeBody(a) + EscapeBody(b)
  {
    ReplaceConcat(a, b, '\\', "\\\\");
    var a1, b1 := ReplaceChar(a, '\\', "\\\\"), ReplaceChar(b, '\\', "\\\\");
    ReplaceConcat(a1, b1, '\"', "\\\"");
    var a2, b2 := ReplaceChar(a1, '\"', "\\\""), ReplaceChar(b1, '\"', "\\\"");
    ReplaceConcat(a2, b2, '\n', "\\n");
    var a3, b3 := ReplaceChar(a2, '\n', "\\n"), ReplaceChar(b2, '\n', "\\n");
    ReplaceConcat(a3, b3, '\r', "\\r");
    var a4, b4 := ReplaceChar(a3, '\r', "\\r"), ReplaceChar(b3, '\r', "\\r");
    ReplaceConcat(a4, b4, '$', "\\$");
  }

  lemma {:induction false} ReplaceAbsent(s: string, c: char, with: string)
    requires c !in s
    ensures ReplaceChar(s, c, with) == s
  {
    if s != [] {
      ReplaceAbsent(s[1..], c, with);
      assert s == [s[0]] + s[1..];
    }
  }

  lemma {:induction false} ReplaceOne(x: char, c: char, with: string)
    ensures ReplaceChar([x], c, with) == if x == c then with else [x]
  {
    assert [x][1..] == [];
  }

  lemma {:induction false} EscapeOne(c: char)
    ensures EscapeBody([c]) == EscapeChar(c)
  {
    ReplaceOne(c, '\\', "\\\\");
    var s1 := ReplaceChar([c], '\\', "\\\\");
    if c == '\"' {
      ReplaceOne(c, '\"', "\\\"");
    } else {
      ReplaceAbsent(s1, '\"', "\\\"");
    }
    var s2 := ReplaceChar(s1, '\"', "\\\"");
    if c == '\n' {
      ReplaceOne(c, '\n', "\\n");
    } else {
      ReplaceAbsent(s2, '\n', "\\n");
    }
    var s3 := ReplaceChar(s2, '\n', "\\n");
    if c == '\r' {
      ReplaceOne(c, '\r', "\\r");
    } else {
      ReplaceAbsent(s3, '\r', "\\r");
    }
    var s4 := ReplaceChar(s3, '\r', "\\r");
    if c == '$' {
      ReplaceOne(c, '$', "\\$");
    } else {
      ReplaceAbsent(s4, '$', "\\$");
    }
  }

  /** The five passes equal one mapping per character: no pass sees what an earlier one wrote. */
  lemma {:induction false} EscapeIsPerCharacter(v: string)
    ensures EscapeBody(v) == EscapeEach(v)
  {
    if v != [] {
      EscapeConcat([v[0]], v[1..]);
      assert v == [v[0]] + v[1..];
      EscapeOne(v[0]);
      EscapeIsPerCharacter(v[1..]);
    }
  }

  // ----- unescaping ---------------------------------------------------------------------------------------

  /** value.replace(/\\c/g, with): leftmost, non-overlapping. */
  function ReplacePair(s: string, c: char, with: char): string {
    if s == [] then []
    else if |s| >= 2 && s[0] == '\\' && s[1] == c then [with] + ReplacePair(s[2..], c, with)
    else [s[0]] + ReplacePair(s[1..], c, with)
  }

  /** The four passes of the parser. */
  function Unescape(s: string): string {
    ReplacePair(ReplacePair(ReplacePair(ReplacePair(s, 'n', '\n'), 'r', '\r'), '\"', '\"'), '\\', '\\')
  }

  predicate Undone(c: char, k: nat) {
    (c == '\n' && k >= 1) || (c == '\r' && k >= 2) || (c == '\"' && k >= 3)
  }

  /**
   An escaped value after the first `k` unescaping passes, told from the value itself.  The passes
   for \n and \r also fire on the second half of an escaped backslash that stands before an n or r.
   */
  function Stage(v: string, k: nat): string {
    if v == [] then []
    else if v[0] == '\\' then
      if k >= 1 && |v| >= 2 && v[1] == 'n' then ['\\', '\n'] + Stage(v[2..], k)
      else if k >= 2 && |v| >= 2 && v[1] == 'r' then ['\\', '\r'] + Stage(v[2..], k)
      else (if k >= 4 then ['\\'] else ['\\', '\\']) + Stage(v[1..], k)
    else
      (if Undone(v[0], k) then [v[0]] else EscapeChar(v[0])) + Stage(v[1..], k)
  }

  /** What reading a written value gives: only \$, and n or r after a backslash, come back changed. */
  function ReadBack(v: string): string {
    Stage(v, 4)
  }

  lemma {:induction false} StageZero(v: string)
    ensures Stage(v, 0) == EscapeEach(v)
  {
    if v != [] {
      StageZero(v[1..]);
    }
  }

  /** The first character of a stage. */
  lemma {:induction false} StageHead(v: string, k: nat)
    requires v != []
    ensures Stage(v, k) != []
    ensures Stage(v, k)[0] == 'n' <==> v[0] == 'n'
    ensures Stage(v, k)[0] == 'r' <==> v[0] == 'r'
    ensures k < 3 ==> Stage(v, k)[0] != '\"'
  {
  }

  lemma {:induction false} PairOn(x: char, rest: string, c: char, with: char)
    ensures x != '\\' || rest == [] || rest[0] != c ==> ReplacePair([x] + rest, c, with) == [x] + ReplacePair(rest, c, with)
    ensures x == '\\' && rest != [] && rest[0] == c ==> ReplacePair([x] + rest, c, with) == [with] + ReplacePair(rest[1..], c, with)
  {
    var s := [x] + rest;
    assert s[1..] == rest;
    if rest != [] {
      assert s[2..] == rest[1..];
    }
  }

  lemma {:induction false} PairOnTwo(x: char, y: char, rest: string, c: char, with: char)
    requires x == '\\'
    ensures y == c ==> ReplacePair([x, y] + rest, c, with) == [with] + ReplacePair(rest, c, with)
    ensures y != c && (y != '\\' || rest == [] || rest[0] != c) ==> ReplacePair([x, y] + rest, c, with) == [x, y] + ReplacePair(rest, c, with)
    ensures y != c && y == '\\' && rest != [] && rest[0] == c ==> ReplacePair([x, y] + rest, c, with) == [x, with] + ReplacePair(rest[1..], c, with)
  {
    assert [x, y] + rest == [x] + ([y] + rest);
    assert ([y] + rest)[1..] == rest;
    PairOn(x, [y] + rest, c, with);
    PairOn(y, rest, c, with);
  }

  /** The pass for \n. */
  lemma {:induction false} FirstPass(v: string)
    ensures ReplacePair(Stage(v, 0), 'n', '\n') == Stage(v, 1)
    decreases |v|
  {
    if v != [] {
      var rest := Stage(v[1..], 0);
      FirstPass(v[1..]);
      if |v| > 1 {
        StageHead(v[1..], 0);
      }
      if v[0] == '\\' && |v| > 1 && v[1] == 'n' {
        assert v[1..][1..] == v[2..];
        assert rest == ['n'] + Stage(v[2..], 0);
        FirstPass(v[2..]);
        PairOnTwo('\\', '\\', rest, 'n', '\n');
        assert rest[1..] == Stage(v[2..], 0);
      } else {
        OtherUnits(v[0], rest, 'n', '\n');
      }
    }
  }

  /** A unit that a pass leaves alone, or unescapes, independently of what follows. */
  lemma {:induction false} OtherUnits(x: char, rest: string, c: char, with: char)
    requires c == 'n' || c == 'r' || c == '\"'
    requires rest == [] || rest[0] != c || x != '\\'
    ensures var unit := EscapeChar(x);
            ReplacePair(unit + rest, c, with) == (if unit == ['\\', c] then [with] else unit) + ReplacePair(rest, c, with)
    ensures x != '\\' ==> ReplacePair([x] + rest, c, with) == [x] + ReplacePair(rest, c, with)
  {
    var unit := EscapeChar(x);
    PairOn(x, rest, c, with);
    if |unit| == 2 {
      PairOnTwo(unit[0], unit[1], rest, c, with);
      assert unit == [unit[0], unit[1]];
    }
  }

  /** The pass for \r. */
  lemma {:induction false} SecondPass(v: string)
    ensures ReplacePair(Stage(v, 1), 'r', '\r') == Stage(v, 2)
    decreases |v|
  {
    if v != [] {
      var rest := Stage(v[1..], 1);
      SecondPass(v[1..]);
      if |v| > 1 {
        StageHead(v[1..], 1);
      }
      if v[0] == '\\' && |v| > 1 && v[1] == 'n' {
        var after := Stage(v[2..], 1);
        SecondPass(v[2..]);
        PairOnTwo('\\', '\n', after, 'r', '\r');
      } else if v[0] == '\\' && |v| > 1 && v[1] == 'r' {
        assert v[1..][1..] == v[2..];
        assert rest == ['r'] + Stage(v[2..], 1);
        SecondPass(v[2..]);
        PairOnTwo('\\', '\\', rest, 'r', '\r');
        assert rest[1..] == Stage(v[2..], 1);
      } else {
        OtherUnits(v[0], rest, 'r', '\r');
      }
    }
  }

  /** The pass for \". */
  lemma {:induction false} ThirdPass(v: string)
    ensures ReplacePair(Stage(v, 2), '\"', '\"') == Stage(v, 3)
    decreases |v|
  {
    if v != [] {
      var rest := Stage(v[1..], 2);
      ThirdPass(v[1..]);
      if |v| > 1 {
        StageHead(v[1..], 2);
      }
      if v[0] == '\\' && |v| > 1 && (v[1] == 'n' || v[1] == 'r') {
        var after := Stage(v[2..], 2);
        ThirdPass(v[2..]);
        PairOnTwo('\\', if v[1] == 'n' then '\n' else '\r', after, '\"', '\"');
      } else {
        OtherUnits(v[0], rest, '\"', '\"');
      }
    }
  }

  /** The pass for \\. */
  lemma {:induction false} FourthPass(v: string)
    ensures ReplacePair(Stage(v, 3), '\\', '\\') == Stage(v, 4)
    decreases |v|
  {
    if v != [] {
      var rest := Stage(v[1..], 3);
      FourthPass(v[1..]);
      if v[0] == '\\' && |v| > 1 && (v[1] == 'n' || v[1] == 'r') {
        var after := Stage(v[2..], 3);
        FourthPass(v[2..]);
        PairOnTwo('\\', if v[1] == 'n' then '\n' else '\r', after, '\\', '\\');
      } else if v[0] == '\\' {
        PairOnTwo('\\', '\\', rest, '\\', '\\');
      } else if v[0] == '$' {
        PairOnTwo('\\', '$', rest, '\\', '\\');
      } else {
        PairOn(v[0], rest, '\\', '\\');
      }
    }
  }

  lemma {:induction false} UnescapeEscaped(v: string)
    ensures Unescape(EscapeBody(v)) == ReadBack(v)
  {
    EscapeIsPerCharacter(v);
    StageZero(v);
    FirstPass(v);
    SecondPass(v);
    ThirdPass(v);
    FourthPass(v);
  }

  /** A value the parser reads back: no dollar sign, and no n or r directly after a backslash. */
  ghost predicate Survives(v: string) {
    forall i :: 0 <= i < |v| ==> v[i] != '$' && (v[i] == '\\' && i + 1 < |v| ==> v[i + 1] != 'n' && v[i + 1] != 'r')
  }

  lemma {:induction false} ReadBackIsNoShorter(v: string)
    ensures |ReadBack(v)| >= |v|
    decreases |v|
  {
    if v != [] {
      ReadBackIsNoShorter(v[1..]);
      if |v| > 1 {
        ReadBackIsNoShorter(v[2..]);
      }
    }
  }

  /** Escaping and unescaping gives a value back exactly when it survives. */
  lemma {:induction false} RoundTripIff(v: string)
    ensures Unescape(EscapeBody(v)) == v <==> Survives(v)
  {
    UnescapeEscaped(v);
    ReadBackIff(v);
  }

  lemma {:induction false} ReadBackIff(v: string)
    ensures ReadBack(v) == v <==> Survives(v)
    decreases |v|
  {
    if v != [] {
      if v[0] == '\\' && |v| > 1 && (v[1] == 'n' || v[1] == 'r') {
        assert ReadBack(v)[1] != v[1];
      } else if v[0] == '$' {
        ReadBackIsNoShorter(v[1..]);
        assert |ReadBack(v)| > |v|;
      } else {
        ReadBackIff(v[1..]);
        assert ReadBack(v) == [v[0]] + ReadBack(v[1..]);
        assert ReadBack(v)[1..] == ReadBack(v[1..]);
        assert v == [v[0]] + v[1..];
        if Survives(v[1..]) {
          forall i | 0 <= i < |v|
            ensures v[i] != '$' && (v[i] == '\\' && i + 1 < |v| ==> v[i + 1] != 'n' && v[i + 1] != 'r')
          {
            if i > 0 {
              assert v[i] == v[1..][i - 1];
              assert i + 1 < |v| ==> v[i + 1] == v[1..][i];
            }
          }
        }
        if Survives(v) {
          forall i | 0 <= i < |v[1..]|
            ensures v[1..][i] != '$' && (v[1..][i] == '\\' && i + 1 < |v[1..]| ==> v[1..][i + 1] != 'n' && v[1..][i + 1] != 'r')
          {
            assert v[1..][i] == v[i + 1];
          }
        }
      }
    }
  }

  // ----- writing and reading over and over ---------------------------------------------------------------

  /** A value after `n` rounds of being written, read back as the default, and accepted. */
  ghost function Rounds(v: string, n: nat): string {
    if n == 0 then v else ReadBack(Rounds(v, n - 1))
  }

  ghost function Dollars(v: string): nat {
    if v == [] then 0 else (if v[0] == '$' then 1 else 0) + Dollars(v[1..])
  }

  lemma {:induction false} DollarsAfter(x: string, rest: string)
    requires |x| <= 2
    ensures Dollars(x + rest) == Dollars(x) + Dollars(rest)
  {
    if x == [] {
      assert x + rest == rest;
    } else {
      assert (x + rest)[1..] == x[1..] + rest;
      DollarsAfter(x[1..], rest);
    }
  }

  lemma {:induction false} ReadBackDollars(v: string)
    ensures |ReadBack(v)| == |v| + Dollars(v)
    ensures Dollars(ReadBack(v)) == Dollars(v)
    decreases |v|
  {
    if v != [] {
      ReadBackDollars(v[1..]);
      if v[0] == '\\' && |v| > 1 && (v[1] == 'n' || v[1] == 'r') {
        ReadBackDollars(v[2..]);
        assert v[1..][1..] == v[2..];
        var unit := ['\\', if v[1] == 'n' then '\n' else '\r'];
        DollarsAfter(unit, ReadBack(v[2..]));
        assert unit[1..][1..] == [];
      } else {
        var unit := if v[0] == '$' then ['\\', '$'] else [v[0]];
        assert ReadBack(v) == unit + ReadBack(v[1..]);
        DollarsAfter(unit, ReadBack(v[1..]));
        assert v[0] == '$' ==> unit[1..] == ['$'];
      }
    }
  }

  /** Every round puts one more backslash in front of every dollar sign. */
  lemma {:induction false} RoundsGrow(v: string, n: nat)
    ensures |Rounds(v, n)| == |v| + n * Dollars(v)
    ensures Dollars(Rounds(v, n)) == Dollars(v)
  {
    if n > 0 {
      RoundsGrow(v, n - 1);
      ReadBackDollars(Rounds(v, n - 1));
      assert n * Dollars(v) == (n - 1) * Dollars(v) + Dollars(v);
    }
  }

  ghost function Backslashes(n: nat): string {
    if n == 0 then [] else ['\\'] + Backslashes(n - 1)
  }

  /** A value after `n` rounds: `n` backslashes before each dollar sign, and n and r after a backslash changed for good. */
  ghost function Grown(v: string, n: nat): string {
    if v == [] then []
    else if v[0] == '\\' && |v| >= 2 && v[1] == 'n' then ['\\', '\n'] + Grown(v[2..], n)
    else if v[0] == '\\' && |v| >= 2 && v[1] == 'r' then ['\\', '\r'] + Grown(v[2..], n)
    else (if v[0] == '$' then Backslashes(n) + ['$'] else [v[0]]) + Grown(v[1..], n)
  }

  lemma {:induction false} ReadBackOfBackslashes(n: nat, rest: string)
    ensures ReadBack(Backslashes(n) + ['$'] + rest) == Backslashes(n + 1) + ['$'] + ReadBack(rest)
  {
    var s := Backslashes(n) + ['$'] + rest;
    if n == 0 {
      assert s == ['$'] + rest && s[1..] == rest;
      assert Backslashes(1) == ['\\'] + Backslashes(0);
    } else {
      var shorter := Backslashes(n - 1) + ['$'] + rest;
      ReadBackOfBackslashes(n - 1, rest);
      assert s == ['\\'] + shorter && s[1..] == shorter;
      assert shorter[0] == '\\' || shorter[0] == '$';
      assert ReadBack(s) == ['\\'] + ReadBack(shorter);
      assert ['\\'] + (Backslashes(n) + ['$'] + ReadBack(rest)) == Backslashes(n + 1) + ['$'] + ReadBack(rest);
    }
  }

  lemma {:induction false} GrownHead(v: string, n: nat)
    requires v != [] && n > 0
    ensures Grown(v, n) != []
    ensures Grown(v, n)[0] == 'n' <==> v[0] == 'n'
    ensures Grown(v, n)[0] == 'r' <==> v[0] == 'r'
  {
  }

  /** One more round adds one more backslash before each dollar sign and changes nothing else. */
  lemma {:induction false} GrownOnce(v: string, n: nat)
    requires n > 0
    ensures ReadBack(Grown(v, n)) == Grown(v, n + 1)
    decreases |v|
  {
    if v != [] {
      if v[0] == '\\' && |v| >= 2 && (v[1] == 'n' || v[1] == 'r') {
        var c, rest := if v[1] == 'n' then '\n' else '\r', Grown(v[2..], n);
        GrownOnce(v[2..], n);
        var g := ['\\', c] + rest;
        assert g[1..] == [c] + rest && ([c] + rest)[1..] == rest;
        assert ReadBack(g) == ['\\'] + ReadBack([c] + rest);
        assert ReadBack([c] + rest) == [c] + ReadBack(rest);
      } else if v[0] == '$' {
        GrownOnce(v[1..], n);
        ReadBackOfBackslashes(n, Grown(v[1..], n));
      } else {
        var rest := Grown(v[1..], n);
        GrownOnce(v[1..], n);
        if |v| > 1 {
          GrownHead(v[1..], n);
        }
        assert ([v[0]] + rest)[1..] == rest;
      }
    }
  }

  lemma {:induction false} GrownFirst(v: string)
    ensures ReadBack(v) == Grown(v, 1)
    decreases |v|
  {
    if v != [] {
      GrownFirst(v[1..]);
      assert Backslashes(1) == ['\\'] + Backslashes(0);
      if |v| > 1 {
        GrownFirst(v[2..]);
      }
    }
  }

  /** The exact text after any number of rounds. */
  lemma {:induction false} RoundsAre(v: string, n: nat)
    requires n > 0
    ensures Rounds(v, n) == Grown(v, n)
  {
    if n == 1 {
      GrownFirst(v);
      assert Rounds(v, 1) == ReadBack(Rounds(v, 0));
    } else {
      RoundsAre(v, n - 1);
      GrownOnce(v, n - 1);
    }
  }

  /** A dollar sign, and an n after a backslash, that do not come back. */
  lemma {:induction false} SomeValuesAreLost()
    ensures Unescape(EscapeBody("$")) == "\\$"
    ensures Unescape(EscapeBody("\\n")) == ['\\', '\n']
  {
    UnescapeEscaped("$");
    UnescapeEscaped("\\n");
    assert "$"[1..] == [] && "\\n"[2..] == [];
    assert Stage("$", 4) == "\\$" + Stage("$"[1..], 4);
    assert Stage("\\n", 4) == ['\\', '\n'] + Stage("\\n"[2..], 4);
  }

  ghost predicate NoPairs(v: string) {
    forall i :: 0 <= i && i + 1 < |v| ==> v[i] == '\\' ==> v[i + 1] != 'n' && v[i + 1] != 'r'
  }

  lemma {:induction false} NoPairsAfter(unit: string, rest: string)
    requires NoPairs(rest)
    requires |unit| == 1 || (|unit| == 2 && unit[0] == '\\' && unit[1] in ['\n', '\r', '$'])
    requires unit == ['\\'] ==> rest == [] || (rest[0] != 'n' && rest[0] != 'r')
    ensures NoPairs(unit + rest)
  {
    var s := unit + rest;
    forall i | 0 <= i && i + 1 < |s|
      ensures s[i] == '\\' ==> s[i + 1] != 'n' && s[i + 1] != 'r'
    {
      if i >= |unit| {
        assert s[i] == rest[i - |unit|];
        assert s[i + 1] == rest[i - |unit| + 1];
      }
    }
  }

  lemma {:induction false} ReadBackHasNoPairs(v: string)
    ensures NoPairs(ReadBack(v))
    decreases |v|
  {
    if v != [] {
      if v[0] == '\\' && |v| > 1 && (v[1] == 'n' || v[1] == 'r') {
        ReadBackHasNoPairs(v[2..]);
        NoPairsAfter(['\\', if v[1] == 'n' then '\n' else '\r'], ReadBack(v[2..]));
      } else {
        ReadBackHasNoPairs(v[1..]);
        if |v| > 1 {
          StageHead(v[1..], 4);
        }
        NoPairsAfter(if v[0] == '$' then ['\\', '$'] else [v[0]], ReadBack(v[1..]));
      }
    }
  }

  lemma {:induction false} NoDollarsIff(v: string)
    ensures Dollars(v) == 0 <==> '$' !in v
  {
    if v != [] {
      NoDollarsIff(v[1..]);
      assert v == [v[0]] + v[1..];
    }
  }

  /** A value settles, at the latest after one round, exactly when it has no dollar sign. */
  lemma {:induction false} SettlesIff(v: string, n: nat)
    requires n >= 1
    ensures Rounds(v, n + 1) == Rounds(v, n) <==> '$' !in v
  {
    RoundsGrow(v, n);
    NoDollarsIff(v);
    NoDollarsIff(Rounds(v, n));
    ReadBackHasNoPairs(Rounds(v, n - 1));
    ReadBackIff(Rounds(v, n));
    assert Rounds(v, n + 1) == ReadBack(Rounds(v, n));
  }
}
