/**
 Wrapping a description into comment lines: forced breaks are kept, and a line that is too long is
 broken greedily between words.
 */
module WordWrap {
  import opened Prelude
  import opened Text

  // ----- the algorithm ------------------------------------------------------------------------------------

  /** What the greedy loop still emits with `current` in hand and `words` to go. */
  function Greedy(current: string, words: seq<string>, cols: nat): seq<string>
    decreases |words|
  {
    if words == [] then
      if current == [] then [] else [current]
    else if current == [] then Greedy(words[0], words[1..], cols)
    else if |current| + 1 + |words[0]| <= cols then Greedy(current + [' '] + words[0], words[1..], cols)
    else [current] + Greedy(words[0], words[1..], cols)
  }

  function WrapLine(raw: string, cols: nat): seq<string> {
    if |raw| <= cols then [raw] else Greedy("", Split(raw, ' '), cols)
  }

  function WrapLines(raws: seq<string>, cols: nat): seq<string> {
    if raws == [] then [] else WrapLine(raws[0], cols) + WrapLines(raws[1..], cols)
  }

  function Wrapped(text: string, cols: nat): seq<string> {
    WrapLines(Split(text, '\n'), cols)
  }

  method WrapWords(raw: string, cols: nat) returns (out: seq<string>)
    ensures out == Greedy("", Split(raw, ' '), cols)
  {
    var words := Split(raw, ' ');
    out := [];
    var current := "";
    for i := 0 to |words|
      invariant out + Greedy(current, words[i..], cols) == Greedy("", words, cols)
    {
      var word := words[i];
      assert words[i..][1..] == words[i + 1..];
      if |current| == 0 {
        current := word;
      } else if |current| + 1 + |word| <= cols {
        current := current + [' '] + word;
      } else {
        out := out + [current];
        current := word;
      }
    }
    if |current| > 0 {
      out := out + [current];
    }
  }

  method WrapDescriptionLines(text: string, cols: nat) returns (out: seq<string>)
    ensures out == Wrapped(text, cols)
  {
    var raws := Split(text, '\n');
    out := [];
    for i := 0 to |raws|
      invariant out + WrapLines(raws[i..], cols) == WrapLines(raws, cols)
    {
      assert raws[i..][1..] == raws[i + 1..];
      Regroup(out, WrapLine(raws[i], cols), WrapLines(raws[i + 1..], cols));
      if |raws[i]| <= cols {
        out := out + [raws[i]];
      } else {
        var lines := WrapWords(raws[i], cols);
        out := out + lines;
      }
    }
  }

  // ----- no word is lost, repeated or moved -------------------------------------------------------------------

  ghost function NonEmpty(words: seq<string>): seq<string> {
    if words == [] then [] else (if words[0] == [] then [] else [words[0]]) + NonEmpty(words[1..])
  }

  ghost function WordsOf(line: string): seq<string> {
    NonEmpty(Split(line, ' '))
  }

  ghost function WordsOfLines(lines: seq<string>): seq<string> {
    if lines == [] then [] else WordsOf(lines[0]) + WordsOfLines(lines[1..])
  }

  lemma {:induction false} NonEmptyConcat(a: seq<string>, b: seq<string>)
    ensures NonEmpty(a + b) == NonEmpty(a) + NonEmpty(b)
  {
    if a == [] {
      assert a + b == b;
    } else {
      assert (a + b)[1..] == a[1..] + b;
      NonEmptyConcat(a[1..], b);
    }
  }

  lemma {:induction false} WordsOfWord(word: string)
    requires Free(word, ' ')
    ensures WordsOf(word) == if word == [] then [] else [word]
  {
    SplitFree(word, ' ');
    assert NonEmpty([word]) == (if word == [] then [] else [word]) + NonEmpty([word][1..]);
  }

  lemma {:induction false} GreedyKeepsWords(current: string, words: seq<string>, cols: nat)
    requires AllFree(words, ' ')
    ensures WordsOfLines(Greedy(current, words, cols)) == WordsOf(current) + NonEmpty(words)
    decreases |words|
  {
    if words == [] {
      WordsOfWord("");
    } else {
      assert Free(words[0], ' ');
      WordsOfWord(words[0]);
      if current == [] {
        GreedyKeepsWords(words[0], words[1..], cols);
        WordsOfWord("");
      } else if |current| + 1 + |words[0]| <= cols {
        GreedyKeepsWords(current + [' '] + words[0], words[1..], cols);
        SplitConcat(current, ' ', words[0]);
        NonEmptyConcat(Split(current, ' '), Split(words[0], ' '));
      } else {
        GreedyKeepsWords(words[0], words[1..], cols);
        var lines := Greedy(current, words, cols);
        assert lines[1..] == Greedy(words[0], words[1..], cols);
      }
    }
  }

  lemma {:induction false} WordsOfConcat(a: seq<string>, b: seq<string>)
    ensures WordsOfLines(a + b) == WordsOfLines(a) + WordsOfLines(b)
  {
    if a == [] {
      assert a + b == b;
    } else {
      assert (a + b)[1..] == a[1..] + b;
      WordsOfConcat(a[1..], b);
    }
  }

  /** The words of the output, read line by line, are the words of the text in the same order. */
  lemma {:induction false} WrapKeepsWords(raws: seq<string>, cols: nat)
    ensures WordsOfLines(WrapLines(raws, cols)) == WordsOfLines(raws)
  {
    if raws != [] {
      WrapKeepsWords(raws[1..], cols);
      WordsOfConcat(WrapLine(raws[0], cols), WrapLines(raws[1..], cols));
      if |raws[0]| > cols {
        SplitGivesFree(raws[0], ' ');
        GreedyKeepsWords("", Split(raws[0], ' '), cols);
        WordsOfWord("");
      } else {
        assert [raws[0]][1..] == [];
      }
    }
  }

  // ----- no line is too long ------------------------------------------------------------------------------------

  /** Within the limit, or one word that is over the limit by itself. */
  ghost predicate Fits(line: string, cols: nat) {
    |line| <= cols || Free(line, ' ')
  }

  ghost predicate AllFit(lines: seq<string>, cols: nat) {
    forall i :: 0 <= i < |lines| ==> Fits(lines[i], cols)
  }

  lemma {:induction false} GreedyFits(current: string, words: seq<string>, cols: nat)
    requires AllFree(words, ' ') && Fits(current, cols)
    ensures AllFit(Greedy(current, words, cols), cols)
    ensures [] !in Greedy(current, words, cols)
    decreases |words|
  {
    if words != [] {
      assert Free(words[0], ' ');
      if current == [] {
        GreedyFits(words[0], words[1..], cols);
      } else if |current| + 1 + |words[0]| <= cols {
        GreedyFits(current + [' '] + words[0], words[1..], cols);
      } else {
        GreedyFits(words[0], words[1..], cols);
      }
    }
  }

  lemma {:induction false} WrapFits(raws: seq<string>, cols: nat)
    ensures AllFit(WrapLines(raws, cols), cols)
  {
    if raws != [] {
      WrapFits(raws[1..], cols);
      if |raws[0]| > cols {
        SplitGivesFree(raws[0], ' ');
        GreedyFits("", Split(raws[0], ' '), cols);
      }
    }
  }

  // ----- every line stays one line -----------------------------------------------------------------------------

  lemma {:induction false} SplitKeepsFree(text: string, sep: char, c: char)
    requires Free(text, c)
    ensures AllFree(Split(text, sep), c)
  {
    if text != [] {
      SplitKeepsFree(text[1..], sep, c);
      assert Free(Split(text[1..], sep)[0], c);
      assert text[0] in text;
    }
  }

  lemma {:induction false} GreedyKeepsFree(current: string, words: seq<string>, cols: nat, c: char)
    requires AllFree(words, c) && Free(current, c) && c != ' '
    ensures AllFree(Greedy(current, words, cols), c)
    decreases |words|
  {
    if words != [] {
      assert Free(words[0], c);
      if current == [] {
        GreedyKeepsFree(words[0], words[1..], cols, c);
      } else if |current| + 1 + |words[0]| <= cols {
        GreedyKeepsFree(current + [' '] + words[0], words[1..], cols, c);
      } else {
        GreedyKeepsFree(words[0], words[1..], cols, c);
      }
    }
  }

  lemma {:induction false} WrapKeepsFree(raws: seq<string>, cols: nat, c: char)
    requires AllFree(raws, c) && c != ' '
    ensures AllFree(WrapLines(raws, cols), c)
  {
    if raws != [] {
      WrapKeepsFree(raws[1..], cols, c);
      assert Free(raws[0], c);
      SplitKeepsFree(raws[0], ' ', c);
      GreedyKeepsFree("", Split(raws[0], ' '), cols, c);
    }
  }

  // ----- joining the pieces again -------------------------------------------------------------------------------

  lemma {:induction false} JoinHead(head: string, rest: seq<string>, sep: char)
    requires rest != []
    ensures Join([head] + rest, sep) == head + [sep] + Join(rest, sep)
  {
    assert ([head] + rest)[1..] == rest;
  }

  lemma {:induction false} GreedyIsNotEmpty(current: string, words: seq<string>, cols: nat)
    requires current != []
    ensures Greedy(current, words, cols) != []
    decreases |words|
  {
    if words != [] && |current| + 1 + |words[0]| <= cols {
      GreedyIsNotEmpty(current + [' '] + words[0], words[1..], cols);
    }
  }

  lemma {:induction false} GreedyRejoins(current: string, words: seq<string>, cols: nat)
    requires current != [] && [] !in words
    ensures Join(Greedy(current, words, cols), ' ') == Join([current] + words, ' ')
    decreases |words|
  {
    if words == [] {
      assert [current] + words == [current];
    } else {
      var rest := words[1..];
      assert words == [words[0]] + rest;
      JoinHead(current, words, ' ');
      if |current| + 1 + |words[0]| <= cols {
        var longer := current + [' '] + words[0];
        GreedyRejoins(longer, rest, cols);
        if rest == [] {
          assert [longer] + rest == [longer];
        } else {
          JoinHead(longer, rest, ' ');
          JoinHead(words[0], rest, ' ');
          assert longer + [' '] + Join(rest, ' ') == current + [' '] + (words[0] + [' '] + Join(rest, ' '));
        }
      } else {
        assert words[0] in words;
        GreedyRejoins(words[0], rest, cols);
        GreedyIsNotEmpty(words[0], rest, cols);
        JoinHead(current, Greedy(words[0], rest, cols), ' ');
      }
    }
  }

  /** A single-spaced line comes back when its pieces are joined by spaces. */
  lemma {:induction false} WrapRejoins(raw: string, cols: nat)
    requires [] !in Split(raw, ' ')
    ensures Join(WrapLine(raw, cols), ' ') == raw
  {
    if |raw| > cols {
      var words := Split(raw, ' ');
      assert words[0] in words;
      GreedyRejoins(words[0], words[1..], cols);
      assert words == [words[0]] + words[1..];
      JoinSplit(raw, ' ');
    }
  }

  // ----- no arrangement needs fewer lines ------------------------------------------------------------------------

  ghost function Extra(words: seq<string>): nat {
    if words == [] then 0 else 1 + |words[0]| + Extra(words[1..])
  }

  /** The width of words set on one line. */
  ghost function Width(words: seq<string>): nat {
    if words == [] then 0 else |words[0]| + Extra(words[1..])
  }

  /** A line anyone could set: some words within the limit, or one word. */
  ghost predicate Legal(line: seq<string>, cols: nat) {
    line != [] && (Width(line) <= cols || |line| == 1)
  }

  ghost function Flat(lines: seq<seq<string>>): seq<string> {
    if lines == [] then [] else lines[0] + Flat(lines[1..])
  }

  /** How many words still go onto a line of the given width. */
  ghost function Room(width: nat, words: seq<string>, cols: nat): (n: nat)
    ensures n <= |words|
    decreases |words|
  {
    if words == [] || width + 1 + |words[0]| > cols then 0
    else 1 + Room(width + 1 + |words[0]|, words[1..], cols)
  }

  ghost function FirstLine(words: seq<string>, cols: nat): (n: nat)
    requires words != []
    ensures 1 <= n <= |words|
  {
    1 + Room(|words[0]|, words[1..], cols)
  }

  ghost function LineCount(words: seq<string>, cols: nat): nat
    decreases |words|
  {
    if words == [] then 0 else 1 + LineCount(words[FirstLine(words, cols)..], cols)
  }

  /** The number of lines, told from the widths alone. */
  ghost function CountFrom(width: nat, words: seq<string>, cols: nat): nat
    decreases |words|
  {
    if words == [] then 1
    else if width + 1 + |words[0]| <= cols then CountFrom(width + 1 + |words[0]|, words[1..], cols)
    else 1 + CountFrom(|words[0]|, words[1..], cols)
  }

  /** Empty words cost at most what their width says: those at the start of a line are dropped. */
  lemma {:induction false} GreedyCount(current: string, words: seq<string>, cols: nat)
    ensures |Greedy(current, words, cols)| <= CountFrom(|current|, words, cols)
    decreases |words|
  {
    if words != [] {
      var word := words[0];
      if current == [] {
        GreedyCount(word, words[1..], cols);
        WiderNeedsNoLess(|word|, 1 + |word|, words[1..], cols);
      } else if |current| + 1 + |word| <= cols {
        GreedyCount(current + [' '] + word, words[1..], cols);
      } else {
        GreedyCount(word, words[1..], cols);
      }
    }
  }

  /** A line that is fuller to begin with never leads to fewer lines. */
  lemma {:induction false} WiderNeedsNoLess(narrow: nat, wide: nat, words: seq<string>, cols: nat)
    requires narrow <= wide
    ensures CountFrom(narrow, words, cols) <= CountFrom(wide, words, cols)
  {
    CountIsLineCount(narrow, words, cols);
    CountIsLineCount(wide, words, cols);
    RoomShrinks(narrow, wide, words, cols);
    var m, n := Room(narrow, words, cols), Room(wide, words, cols);
    SuffixNeedsNoMore(words[n..], cols, m - n);
    assert words[n..][m - n..] == words[m..];
  }

  lemma {:induction false} CountIsLineCount(width: nat, words: seq<string>, cols: nat)
    ensures CountFrom(width, words, cols) == 1 + LineCount(words[Room(width, words, cols)..], cols)
    decreases |words|
  {
    if words != [] {
      var next := if width + 1 + |words[0]| <= cols then width + 1 + |words[0]| else |words[0]|;
      CountIsLineCount(next, words[1..], cols);
      DropTwice(words, Room(next, words[1..], cols));
      OneLineFirst(words, cols);
    }
  }

  lemma {:induction false} OneLineFirst(words: seq<string>, cols: nat)
    requires words != []
    ensures LineCount(words, cols) == 1 + LineCount(words[1 + Room(|words[0]|, words[1..], cols)..], cols)
  {
  }

  lemma {:induction false} DropTwice(words: seq<string>, n: nat)
    requires n < |words|
    ensures words[1..][n..] == words[1 + n..] && words[0..] == words
  {
  }

  lemma {:induction false} RoomShrinks(narrow: nat, wide: nat, words: seq<string>, cols: nat)
    requires narrow <= wide
    ensures Room(narrow, words, cols) >= Room(wide, words, cols)
    decreases |words|
  {
    if words != [] && wide + 1 + |words[0]| <= cols {
      RoomShrinks(narrow + 1 + |words[0]|, wide + 1 + |words[0]|, words[1..], cols);
    }
  }

  /** Without its first words a line reaches at least as far. */
  lemma {:induction false} FirstLineReaches(words: seq<string>, cols: nat, j: nat)
    requires words != [] && j < FirstLine(words, cols)
    ensures j + FirstLine(words[j..], cols) >= FirstLine(words, cols)
    decreases j
  {
    if j == 0 {
      assert words[0..] == words;
    } else {
      var rest := words[1..];
      assert words[1..][1..] == words[2..];
      RoomShrinks(|words[1]|, |words[0]| + 1 + |words[1]|, words[2..], cols);
      assert 1 + FirstLine(rest, cols) >= FirstLine(words, cols);
      FirstLineReaches(rest, cols, j - 1);
      assert rest[j - 1..] == words[j..];
    }
  }

  /** Fewer words never need more lines. */
  lemma {:induction false} SuffixNeedsNoMore(words: seq<string>, cols: nat, j: nat)
    requires j <= |words|
    ensures LineCount(words[j..], cols) <= LineCount(words, cols)
    decreases |words|
  {
    if words == [] || j == 0 {
      assert words[j..] == words;
    } else {
      var n := FirstLine(words, cols);
      var rest := words[n..];
      if j >= n {
        SuffixNeedsNoMore(rest, cols, j - n);
        assert rest[j - n..] == words[j..];
      } else {
        FirstLineReaches(words, cols, j);
        var m := FirstLine(words[j..], cols);
        SuffixNeedsNoMore(rest, cols, j + m - n);
        assert rest[j + m - n..] == words[j..][m..];
      }
    }
  }

  lemma {:induction false} RoomHolds(width: nat, words: seq<string>, cols: nat, n: nat)
    requires n <= |words| && width + Extra(words[..n]) <= cols
    ensures Room(width, words, cols) >= n
    decreases n
  {
    if n > 0 {
      assert words[..n][1..] == words[1..][..n - 1];
      assert words[..n][0] == words[0];
      RoomHolds(width + 1 + |words[0]|, words[1..], cols, n - 1);
    }
  }

  lemma {:induction false} LegalLineIsNoLonger(words: seq<string>, cols: nat, n: nat)
    requires n <= |words| && Legal(words[..n], cols)
    ensures n <= FirstLine(words, cols)
  {
    if n > 1 {
      assert words[..n][1..] == words[1..][..n - 1];
      assert words[..n][0] == words[0];
      RoomHolds(|words[0]|, words[1..], cols, n - 1);
    }
  }

  lemma {:induction false} LineCountIsLeast(words: seq<string>, cols: nat, lines: seq<seq<string>>)
    requires Flat(lines) == words
    requires forall i :: 0 <= i < |lines| ==> Legal(lines[i], cols)
    ensures LineCount(words, cols) <= |lines|
    decreases |lines|
  {
    if lines != [] {
      var n := |lines[0]|;
      assert words[..n] == lines[0];
      LegalLineIsNoLonger(words, cols, n);
      assert words[n..] == Flat(lines[1..]);
      LineCountIsLeast(words[n..], cols, lines[1..]);
      var f := FirstLine(words, cols);
      SuffixNeedsNoMore(words[n..], cols, f - n);
      assert words[n..][f - n..] == words[f..];
    }
  }

  /** No legal arrangement of the line's words, runs of spaces kept as empty words, uses fewer lines. */
  lemma {:induction false} WrapIsShortest(raw: string, cols: nat, lines: seq<seq<string>>)
    requires Flat(lines) == Split(raw, ' ')
    requires forall i :: 0 <= i < |lines| ==> Legal(lines[i], cols)
    ensures |WrapLine(raw, cols)| <= |lines|
  {
    if |raw| > cols {
      var words := Split(raw, ' ');
      LineCountIsLeast(words, cols, lines);
      GreedyCount(words[0], words[1..], cols);
      CountIsLineCount(|words[0]|, words[1..], cols);
      DropTwice(words, Room(|words[0]|, words[1..], cols));
    }
  }

  lemma {:induction false} NothingToDrop(words: seq<string>)
    requires [] !in words
    ensures NonEmpty(words) == words
  {
    if words != [] {
      assert words[0] in words;
      NothingToDrop(words[1..]);
      assert words == [words[0]] + words[1..];
    }
  }

  /** A single-spaced line uses the fewest lines even of arrangements that are free to close up spaces. */
  lemma {:induction false} SingleSpacedIsShortest(raw: string, cols: nat, lines: seq<seq<string>>)
    requires [] !in Split(raw, ' ') && Flat(lines) == WordsOf(raw)
    requires forall i :: 0 <= i < |lines| ==> Legal(lines[i], cols)
    ensures |WrapLine(raw, cols)| <= |lines|
  {
    NothingToDrop(Split(raw, ' '));
    WrapIsShortest(raw, cols, lines);
  }

  // ----- exactly when a spaced-out line is set in the fewest lines ---------------------------------------------

  /** A setting of words in legal lines. */
  ghost predicate Arranges(lines: seq<seq<string>>, words: seq<string>, cols: nat) {
    Flat(lines) == words && forall i :: 0 <= i < |lines| ==> Legal(lines[i], cols)
  }

  lemma {:induction false} RoomFits(width: nat, words: seq<string>, cols: nat)
    ensures var n := Room(width, words, cols); n == 0 || width + Extra(words[..n]) <= cols
    decreases |words|
  {
    var n := Room(width, words, cols);
    if n > 0 {
      RoomFits(width + 1 + |words[0]|, words[1..], cols);
      assert words[..n][1..] == words[1..][..n - 1] && words[..n][0] == words[0];
      assert n == 1 ==> words[1..][..n - 1] == [];
    }
  }

  lemma {:induction false} FirstLineIsLegal(words: seq<string>, cols: nat)
    requires words != []
    ensures Legal(words[..FirstLine(words, cols)], cols)
  {
    var n := FirstLine(words, cols);
    RoomFits(|words[0]|, words[1..], cols);
    assert words[..n][1..] == words[1..][..n - 1] && words[..n][0] == words[0];
  }

  /** Words set line by line, each line as full as it can be. */
  ghost function Setting(words: seq<string>, cols: nat): seq<seq<string>>
    decreases |words|
  {
    if words == [] then [] else [words[..FirstLine(words, cols)]] + Setting(words[FirstLine(words, cols)..], cols)
  }

  lemma {:induction false} OneMoreLine(line: seq<string>, lines: seq<seq<string>>, words: seq<string>, cols: nat)
    requires Legal(line, cols) && Arranges(lines, words, cols)
    ensures Arranges([line] + lines, line + words, cols)
  {
    assert ([line] + lines)[1..] == lines;
  }

  lemma {:induction false} SettingArranges(words: seq<string>, cols: nat)
    ensures Arranges(Setting(words, cols), words, cols) && |Setting(words, cols)| == LineCount(words, cols)
    decreases |words|
  {
    if words != [] {
      var n := FirstLine(words, cols);
      FirstLineIsLegal(words, cols);
      SettingArranges(words[n..], cols);
      OneMoreLine(words[..n], Setting(words[n..], cols), words[n..], cols);
      assert words == words[..n] + words[n..];
    }
  }

  /** The lines of a setting in which runs of spaces keep their width, except at the start of a line. */
  ghost function SpacedCount(width: nat, words: seq<string>, cols: nat): nat
    decreases |words|
  {
    if words == [] then if width == 0 then 0 else 1
    else if width == 0 then SpacedCount(|words[0]|, words[1..], cols)
    else if width + 1 + |words[0]| <= cols then SpacedCount(width + 1 + |words[0]|, words[1..], cols)
    else 1 + SpacedCount(|words[0]|, words[1..], cols)
  }

  lemma {:induction false} GreedyIsSpacedCount(current: string, words: seq<string>, cols: nat)
    ensures |Greedy(current, words, cols)| == SpacedCount(|current|, words, cols)
    decreases |words|
  {
    if words != [] {
      var word := words[0];
      GreedyIsSpacedCount(if current != [] && |current| + 1 + |word| <= cols then current + [' '] + word else word, words[1..], cols);
    }
  }

  /** What the widths of a line's words and spaces come to. */
  ghost function LinesOf(raw: string, cols: nat): nat {
    if |raw| <= cols then 1 else SpacedCount(0, Split(raw, ' '), cols)
  }

  /**
   A line is set in the fewest lines its words allow exactly when, by their widths alone, its spaces
   cost no line.
   */
  lemma {:induction false} ShortestIff(raw: string, cols: nat)
    ensures (forall lines :: Arranges(lines, WordsOf(raw), cols) ==> |WrapLine(raw, cols)| <= |lines|)
            <==> LinesOf(raw, cols) <= LineCount(WordsOf(raw), cols)
  {
    var words := WordsOf(raw);
    GreedyIsSpacedCount("", Split(raw, ' '), cols);
    assert |WrapLine(raw, cols)| == LinesOf(raw, cols);
    SettingArranges(words, cols);
    forall lines | Arranges(lines, words, cols)
      ensures LineCount(words, cols) <= |lines|
    {
      LineCountIsLeast(words, cols, lines);
    }
  }

  lemma {:induction false} SpacedSplit()
    ensures Split("a   b", ' ') == ["a", "", "", "b"]
  {
    SplitAt("a", ' ', "  b");
    SplitAt("", ' ', " b");
    SplitAt("", ' ', "b");
    SplitFree("b", ' ');
    assert "a" + [' '] + "  b" == "a   b" && "" + [' '] + " b" == "  b" && "" + [' '] + "b" == " b";
  }

  lemma {:induction false} SpacedGreedy()
    ensures Greedy("", ["a", "", "", "b"], 3) == ["a  ", "b"]
  {
    var words := ["a", "", "", "b"];
    assert words[1..] == ["", "", "b"] && ["", "", "b"][1..] == ["", "b"] && ["", "b"][1..] == ["b"] && ["b"][1..] == [];
    assert "a" + [' '] + "" == "a " && "a " + [' '] + "" == "a  ";
    assert Greedy("a  ", ["b"], 3) == ["a  "] + Greedy("b", [], 3);
    assert Greedy("a ", ["", "b"], 3) == Greedy("a  ", ["b"], 3);
    assert Greedy("a", ["", "", "b"], 3) == Greedy("a ", ["", "b"], 3);
  }

  lemma {:induction false} SpacedWords()
    ensures NonEmpty(["a", "", "", "b"]) == ["a", "b"]
  {
    var words := ["a", "", "", "b"];
    assert words[1..] == ["", "", "b"] && ["", "", "b"][1..] == ["", "b"] && ["", "b"][1..] == ["b"] && ["b"][1..] == [];
    assert NonEmpty(["b"]) == ["b"] + NonEmpty([]);
    assert NonEmpty(["", "b"]) == NonEmpty(["b"]);
    assert NonEmpty(["", "", "b"]) == NonEmpty(["", "b"]);
  }

  /** A run of spaces is kept inside a line, and can cost a line that its words alone would not need. */
  lemma {:induction false} SpacesCanCostALine()
    ensures WrapLine("a   b", 3) == ["a  ", "b"]
    ensures Flat([["a", "b"]]) == WordsOf("a   b") && Legal(["a", "b"], 3)
  {
    SpacedSplit();
    SpacedGreedy();
    SpacedWords();
    assert [["a", "b"]][1..] == [] && ["a", "b"][1..] == ["b"];
    assert Extra(["b"]) == 2 + Extra(["b"][1..]);
  }
}
