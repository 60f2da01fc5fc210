/** Reading a text line by line, with a reader that gives what each line contributes. */
module LineReading {
  import opened Text

  function ReadLines<F>(read: string -> seq<F>, lines: seq<string>): seq<F> {
    if lines == [] then [] else read(lines[0]) + ReadLines(read, lines[1..])
  }

  function ReadText<F>(read: string -> seq<F>, text: string): seq<F> {
    ReadLines(read, Split(text, '\n'))
  }

  /** What the elements of a list of lines contribute; an element may itself hold line breaks. */
  function ReadPushed<F>(read: string -> seq<F>, pushed: seq<string>): seq<F> {
    if pushed == [] then [] else ReadText(read, pushed[0]) + ReadPushed(read, pushed[1..])
  }

  lemma {:induction false} ReadConcat<F>(read: string -> seq<F>, a: seq<string>, b: seq<string>)
    ensures ReadLines(read, a + b) == ReadLines(read, a) + ReadLines(read, b)
  {
    if a == [] {
      assert a + b == b;
    } else {
      assert (a + b)[1..] == a[1..] + b;
      ReadConcat(read, a[1..], b);
    }
  }

  lemma {:induction false} PushedConcat<F>(read: string -> seq<F>, a: seq<string>, b: seq<string>)
    ensures ReadPushed(read, a + b) == ReadPushed(read, a) + ReadPushed(read, b)
  {
    if a == [] {
      assert a + b == b;
    } else {
      assert (a + b)[1..] == a[1..] + b;
      PushedConcat(read, a[1..], b);
    }
  }

  lemma {:induction false} ReadOne<F>(read: string -> seq<F>, line: string)
    ensures ReadLines(read, [line]) == read(line)
    ensures ReadPushed(read, [line]) == ReadText(read, line)
  {
    assert [line][1..] == [];
  }

  lemma {:induction false} ReadFree<F>(read: string -> seq<F>, line: string)
    requires Free(line, '\n')
    ensures ReadText(read, line) == read(line)
  {
    SplitFree(line, '\n');
    ReadOne(read, line);
  }

  /** Joining the pushed elements loses and adds nothing. */
  lemma {:induction false} JoinedReadsAlike<F>(read: string -> seq<F>, pushed: seq<string>)
    requires read("") == []
    ensures ReadText(read, Join(pushed, '\n')) == ReadPushed(read, pushed)
  {
    if pushed == [] {
      ReadFree(read, "");
    } else if |pushed| == 1 {
      assert pushed == [pushed[0]];
      ReadOne(read, pushed[0]);
    } else {
      var rest := Join(pushed[1..], '\n');
      JoinedReadsAlike(read, pushed[1..]);
      SplitConcat(pushed[0], '\n', rest);
      ReadConcat(read, Split(pushed[0], '\n'), Split(rest, '\n'));
    }
  }

  lemma {:induction false} PushedFree<F>(read: string -> seq<F>, lines: seq<string>)
    requires AllFree(lines, '\n')
    ensures ReadPushed(read, lines) == ReadLines(read, lines)
  {
    if lines != [] {
      assert Free(lines[0], '\n');
      ReadFree(read, lines[0]);
      PushedFree(read, lines[1..]);
    }
  }

  /** A reader for which white space at the end of a line does not matter. */
  ghost predicate IgnoresTail<F(!new)>(read: string -> seq<F>) {
    read("") == [] && forall line, c :: IsSpace(c) ==> read(line + [c]) == read(line)
  }

  lemma {:induction false} TextIgnoresTail<F(!new)>(read: string -> seq<F>, text: string, c: char)
    requires IgnoresTail(read) && IsSpace(c)
    ensures ReadText(read, text + [c]) == ReadText(read, text)
  {
    var lines := Split(text, '\n');
    SplitSnoc(text, '\n', c);
    if c == '\n' {
      ReadConcat(read, lines, [""]);
      ReadOne(read, "");
    } else {
      var n := |lines| - 1;
      ReadConcat(read, lines[..n], [lines[n] + [c]]);
      ReadConcat(read, lines[..n], [lines[n]]);
      assert lines == lines[..n] + [lines[n]];
      ReadOne(read, lines[n] + [c]);
      ReadOne(read, lines[n]);
    }
  }

  /** Trimming the end of the text does not change what it reads as. */
  lemma {:induction false} TrimEndReadsAlike<F(!new)>(read: string -> seq<F>, text: string)
    requires IgnoresTail(read)
    ensures ReadText(read, TrimEnd(text)) == ReadText(read, text)
  {
    if text != [] && IsSpace(text[|text| - 1]) {
      var shorter := text[..|text| - 1];
      TrimEndReadsAlike(read, shorter);
      TextIgnoresTail(read, shorter, text[|text| - 1]);
      assert shorter + [text[|text| - 1]] == text;
    }
  }

  /** Joining the elements, trimming the end and adding a final newline loses and adds nothing. */
  lemma {:induction false} WholeFileReads<F(!new)>(read: string -> seq<F>, pushed: seq<string>)
    requires IgnoresTail(read)
    ensures ReadText(read, TrimEnd(Join(pushed, '\n')) + ['\n']) == ReadPushed(read, pushed)
  {
    JoinedReadsAlike(read, pushed);
    TrimEndReadsAlike(read, Join(pushed, '\n'));
    TextIgnoresTail(read, TrimEnd(Join(pushed, '\n')), '\n');
  }

  /** The first `n` parts, one after the other. */
  function Concat<T>(parts: seq<seq<T>>, n: nat): seq<T>
    requires n <= |parts|
  {
    if n == 0 then [] else Concat(parts, n - 1) + parts[n - 1]
  }

  lemma {:induction false} ConcatNext<T>(parts: seq<seq<T>>, n: nat, part: seq<T>)
    requires n < |parts| && parts[n] == part
    ensures Concat(parts, n + 1) == Concat(parts, n) + part
  {
  }

  /** One more part, after `base` and the parts so far. */
  lemma {:induction false} Append<T>(base: seq<T>, soFar: seq<T>, part: seq<T>, more: seq<T>, lines: seq<T>, longer: seq<T>)
    requires lines == base + soFar && longer == lines + part && more == soFar + part
    ensures longer == base + more
  {
  }

  /** When each part is known to read as something, the whole reads as all of it in turn. */
  lemma {:induction false} PartsRead<F>(read: string -> seq<F>, parts: seq<seq<string>>, heard: seq<seq<F>>, n: nat)
    requires n <= |parts| == |heard|
    requires forall k :: 0 <= k < |parts| ==> ReadPushed(read, parts[k]) == heard[k]
    ensures ReadPushed(read, Concat(parts, n)) == Concat(heard, n)
  {
    if n > 0 {
      PartsRead(read, parts, heard, n - 1);
      PushedConcat(read, Concat(parts, n - 1), parts[n - 1]);
    }
  }
}
