/** Lines of text: splitting at a character, joining, and the two as inverses. */
module Text {

  function Split(text: string, sep: char): (lines: seq<string>)
    ensures |lines| >= 1
  {
    if text == [] then [""]
    else
      var rest := Split(text[1..], sep);
      if text[0] == sep then [""] + rest else [[text[0]] + rest[0]] + rest[1..]
  }

  function Join(lines: seq<string>, sep: char): string {
    if lines == [] then ""
    else if |lines| == 1 then lines[0]
    else lines[0] + [sep] + Join(lines[1..], sep)
  }

  ghost predicate Free(line: string, sep: char) {
    sep !in line
  }

  ghost predicate AllFree(lines: seq<string>, sep: char) {
    forall i :: 0 <= i < |lines| ==> Free(lines[i], sep)
  }

  lemma {:induction false} SplitFree(line: string, sep: char)
    requires Free(line, sep)
    ensures Split(line, sep) == [line]
  {
    if line != [] {
      SplitFree(line[1..], sep);
      assert line == [line[0]] + line[1..];
    }
  }

  /** A line, a separator, and more text. */
  lemma {:induction false} SplitAt(line: string, sep: char, rest: string)
    requires Free(line, sep)
    ensures Split(line + [sep] + rest, sep) == [line] + Split(rest, sep)
  {
    var text := line + [sep] + rest;
    if line == [] {
      assert text[0] == sep && text[1..] == rest;
    } else {
      assert text[0] == line[0] && text[1..] == line[1..] + [sep] + rest;
      SplitAt(line[1..], sep, rest);
      assert line == [line[0]] + line[1..];
    }
  }

  /** Joining lines and splitting again gives the lines back. */
  lemma {:induction false} SplitJoin(lines: seq<string>, sep: char)
    requires lines != [] && AllFree(lines, sep)
    ensures Split(Join(lines, sep), sep) == lines
  {
    assert Free(lines[0], sep);
    if |lines| == 1 {
      SplitFree(lines[0], sep);
    } else {
      SplitJoin(lines[1..], sep);
      SplitAt(lines[0], sep, Join(lines[1..], sep));
      assert lines == [lines[0]] + lines[1..];
    }
  }

  /** A separator at the end adds one empty line. */
  lemma {:induction false} SplitJoinEnded(lines: seq<string>, sep: char)
    requires lines != [] && AllFree(lines, sep)
    ensures Split(Join(lines, sep) + [sep], sep) == lines + [""]
  {
    assert Free(lines[0], sep);
    if |lines| == 1 {
      SplitAt(lines[0], sep, "");
      assert lines[0] + [sep] + "" == lines[0] + [sep];
    } else {
      SplitJoinEnded(lines[1..], sep);
      SplitAt(lines[0], sep, Join(lines[1..], sep) + [sep]);
      assert lines[0] + [sep] + (Join(lines[1..], sep) + [sep]) == Join(lines, sep) + [sep];
      assert lines == [lines[0]] + lines[1..];
    }
  }

  lemma {:induction false} SplitGivesFree(text: string, sep: char)
    ensures AllFree(Split(text, sep), sep)
  {
    if text != [] {
      SplitGivesFree(text[1..], sep);
      var rest := Split(text[1..], sep);
      assert Free(rest[0], sep);
    }
  }

  /** Splitting and joining again gives the text back. */
  lemma {:induction false} JoinSplit(text: string, sep: char)
    ensures Join(Split(text, sep), sep) == text
  {
    if text != [] {
      JoinSplit(text[1..], sep);
      var rest := Split(text[1..], sep);
      if text[0] == sep {
        assert ([""] + rest)[1..] == rest;
      } else {
        var lines := [[text[0]] + rest[0]] + rest[1..];
        assert lines[1..] == rest[1..];
        if |rest| > 1 {
          assert Join(lines, sep) == [text[0]] + (rest[0] + [sep] + Join(rest[1..], sep));
        }
      }
    }
  }

  function IndexOf(s: string, c: char): (i: nat)
    ensures i <= |s|
    ensures i < |s| ==> s[i] == c
    ensures forall k :: 0 <= k < i ==> s[k] != c
  {
    if s == [] || s[0] == c then 0 else 1 + IndexOf(s[1..], c)
  }

  /** White space as trimming and the regular-expression class \s understand it. */
  predicate IsSpace(c: char) {
    || '\t' <= c <= '\r' || c == ' ' || c == '\U{00A0}' || c == '\U{1680}' || '\U{2000}' <= c <= '\U{200A}'
    || c == '\U{2028}' || c == '\U{2029}' || c == '\U{202F}' || c == '\U{205F}' || c == '\U{3000}' || c == '\U{FEFF}'
  }

  function TrimStart(s: string): string {
    if s != [] && IsSpace(s[0]) then TrimStart(s[1..]) else s
  }

  function TrimEnd(s: string): string {
    if s != [] && IsSpace(s[|s| - 1]) then TrimEnd(s[..|s| - 1]) else s
  }

  function Trim(s: string): string {
    TrimEnd(TrimStart(s))
  }

  /** Splitting goes part by part. */
  lemma {:induction false} SplitConcat(a: string, sep: char, b: string)
    ensures Split(a + [sep] + b, sep) == Split(a, sep) + Split(b, sep)
  {
    var s := a + [sep] + b;
    if a == [] {
      assert s[0] == sep && s[1..] == b;
    } else {
      assert s[0] == a[0] && s[1..] == a[1..] + [sep] + b;
      SplitConcat(a[1..], sep, b);
    }
  }

  /** Text put in front lands on the first line. */
  lemma {:induction false} SplitPrefix(a: string, sep: char, b: string)
    requires Free(a, sep)
    ensures Split(a + b, sep) == [a + Split(b, sep)[0]] + Split(b, sep)[1..]
  {
    if a == [] {
      assert a + b == b && a + Split(b, sep)[0] == Split(b, sep)[0];
    } else {
      assert (a + b)[0] == a[0] && (a + b)[1..] == a[1..] + b;
      SplitPrefix(a[1..], sep, b);
      assert a == [a[0]] + a[1..];
      assert [a[0]] + (a[1..] + Split(b, sep)[0]) == a + Split(b, sep)[0];
    }
  }

  ghost function WithLast(lines: seq<string>, c: char): seq<string>
    requires lines != []
  {
    lines[..|lines| - 1] + [lines[|lines| - 1] + [c]]
  }

  lemma {:induction false} WithLastAfter(first: string, rest: seq<string>, c: char)
    requires rest != []
    ensures WithLast([first] + rest, c) == [first] + WithLast(rest, c)
  {
    assert ([first] + rest)[..|rest|] == [first] + rest[..|rest| - 1];
  }

  /** One more character lands on the last line, or opens a new one. */
  lemma {:induction false} SplitSnoc(a: string, sep: char, c: char)
    ensures Split(a + [c], sep) == if c == sep then Split(a, sep) + [""] else WithLast(Split(a, sep), c)
  {
    if c == sep {
      SplitConcat(a, sep, "");
      assert a + [sep] + "" == a + [c];
    } else if a == [] {
      assert a + [c] == [c] && "" + [c] == [c];
      SplitFree([c], sep);
    } else {
      var s := a + [c];
      var rest := Split(a[1..], sep);
      assert s[0] == a[0] && s[1..] == a[1..] + [c];
      SplitSnoc(a[1..], sep, c);
      if a[0] == sep {
        WithLastAfter("", rest, c);
      } else if |rest| == 1 {
        assert WithLast(rest, c) == [rest[0] + [c]];
        assert [a[0]] + (rest[0] + [c]) == [a[0]] + rest[0] + [c];
      } else {
        WithLastAfter(rest[0], rest[1..], c);
        assert [rest[0]] + rest[1..] == rest;
        WithLastAfter([a[0]] + rest[0], rest[1..], c);
      }
    }
  }
}
