// Greedy word wrapping of explanations (crates/fidan-cli/src/explain.rs).

module WordWrap {
  import opened Text

  // ----- splitting -----

  /** `split('\n')`: one paragraph more than there are newlines. */
  function Paragraphs(text: string): (r: seq<string>)
    ensures r != []
  {
    if text == [] then [[]]
    else
      var rest := Paragraphs(text[1..]);
      if text[0] == '\n' then [[]] + rest else [[text[0]] + rest[0]] + rest[1..]
  }

  /** `split_whitespace`: the maximal runs without white space. */
  function Words(s: string): seq<string> {
    if s == [] then []
    else if IsSpace(s[0]) then Words(s[1..])
    else
      var rest := Words(s[1..]);
      if |s| == 1 || IsSpace(s[1]) || rest == [] then [[s[0]]] + rest
      else [[s[0]] + rest[0]] + rest[1..]
  }

  function Solid(s: string): string {
    if s == [] then [] else (if IsSpace(s[0]) then [] else [s[0]]) + Solid(s[1..])
  }

  function Glue(words: seq<string>): string {
    if words == [] then [] else words[0] + Glue(words[1..])
  }

  /** Splitting loses white space only; no word is empty or contains any. */
  lemma {:induction false} WordsKeepText(s: string)
    ensures Glue(Words(s)) == Solid(s)
    ensures forall i :: 0 <= i < |Words(s)| ==> Words(s)[i] != [] && forall c :: c in Words(s)[i] ==> !IsSpace(c)
  {
    hide IsSpace;
    if s != [] {
      WordsKeepText(s[1..]);
      var rest := Words(s[1..]);
      if !IsSpace(s[0]) {
        if |s| == 1 || IsSpace(s[1]) || rest == [] {
          assert ([[s[0]]] + rest)[1..] == rest;
        } else {
          assert ([[s[0]] + rest[0]] + rest[1..])[1..] == rest[1..];
          assert [s[0]] + rest[0] + Glue(rest[1..]) == [s[0]] + (rest[0] + Glue(rest[1..]));
        }
      }
    }
  }

  /** The first word is everything between the white space before it and the next white space. */
  lemma {:induction false} FirstWordIs(gap: string, word: string, rest: string)
    requires Blank(gap) && word != [] && forall c :: c in word ==> !IsSpace(c)
    requires rest == [] || IsSpace(rest[0])
    ensures Words(gap) == [] && Words(gap + word + rest) == [word] + Words(rest)
    decreases |gap| + |word|
  {
    hide IsSpace;
    var s := gap + word + rest;
    if gap != [] {
      FirstWordIs(gap[1..], word, rest);
      assert s[1..] == gap[1..] + word + rest;
    } else if |word| == 1 {
      assert s == word + rest && s[1..] == rest && word == [s[0]] && word[0] in word;
    } else {
      FirstWordIs([], word[1..], rest);
      assert s[1..] == [] + word[1..] + rest;
      assert s[1] == word[1] && [s[0]] + word[1..] == word;
    }
  }

  /** A paragraph is everything up to the next newline. */
  lemma {:induction false} FirstParagraphIs(line: string, rest: string)
    requires '\n' !in line
    ensures Paragraphs(line) == [line] && Paragraphs(line + "\n" + rest) == [line] + Paragraphs(rest)
  {
    var s := line + "\n" + rest;
    if line == [] {
      assert s[1..] == rest;
    } else {
      FirstParagraphIs(line[1..], rest);
      assert s[1..] == line[1..] + "\n" + rest;
      assert line == [line[0]] + line[1..];
    }
  }

  predicate IsLetter(c: char) {
    'a' <= c <= 'z' || 'A' <= c <= 'Z'
  }

  const ESCAPE: char := 27 as char

  /** Characters outside escape sequences; a sequence ends at its first letter. */
  function VisibleFrom(s: string, inEscape: bool): nat {
    if s == [] then 0
    else if inEscape then VisibleFrom(s[1..], !IsLetter(s[0]))
    else if s[0] == ESCAPE then VisibleFrom(s[1..], true)
    else 1 + VisibleFrom(s[1..], false)
  }

  function VisibleWidth(s: string): nat {
    VisibleFrom(s, false)
  }

  lemma {:induction false} PlainFrom(s: string, rest: string)
    requires ESCAPE !in s
    ensures VisibleFrom(s + rest, false) == |s| + VisibleFrom(rest, false)
  {
    if s == [] {
      assert s + rest == rest;
    } else {
      PlainFrom(s[1..], rest);
      assert (s + rest)[1..] == s[1..] + rest;
    }
  }

  lemma {:induction false} InsideFrom(inside: string, rest: string)
    requires forall c :: c in inside ==> !IsLetter(c)
    ensures VisibleFrom(inside + rest, true) == VisibleFrom(rest, true)
  {
    hide IsLetter;
    if inside == [] {
      assert inside + rest == rest;
    } else {
      InsideFrom(inside[1..], rest);
      assert (inside + rest)[1..] == inside[1..] + rest;
    }
  }

  /** Every character counts but those of an escape sequence, from the escape character to the next letter, or to
      the end if there is none. */
  lemma EscapesDoNotCount(plain: string, inside: string, letter: char, rest: string)
    requires ESCAPE !in plain && IsLetter(letter) && forall c :: c in inside ==> !IsLetter(c)
    ensures VisibleWidth(plain) == |plain|
    ensures VisibleWidth(plain + [ESCAPE] + inside) == |plain|
    ensures VisibleWidth(plain + ([ESCAPE] + (inside + ([letter] + rest)))) == |plain| + VisibleWidth(rest)
  {
    hide IsLetter;
    PlainFrom(plain, []);
    assert plain + [] == plain;
    InsideFrom(inside, []);
    assert inside + [] == inside && ([ESCAPE] + inside)[1..] == inside;
    PlainFrom(plain, [ESCAPE] + inside);
    assert plain + [ESCAPE] + inside == plain + ([ESCAPE] + inside);
    var tail := [letter] + rest;
    InsideFrom(inside, tail);
    assert tail[1..] == rest && ([ESCAPE] + (inside + tail))[1..] == inside + tail;
    PlainFrom(plain, [ESCAPE] + (inside + tail));
  }

  // ----- what the program builds -----

  /** The rest of a paragraph, given the line being built and its visible width. */
  function Flow(words: seq<string>, line: string, visible: nat, usable: nat, indent: string): string
    decreases |words|
  {
    if words == [] then (if line != [] then indent + line + "\n" else [])
    else
      var width := VisibleWidth(words[0]);
      if visible == 0 then Flow(words[1..], line + words[0], width, usable, indent)
      else if visible + 1 + width <= usable then
        Flow(words[1..], line + " " + words[0], visible + 1 + width, usable, indent)
      else indent + line + "\n" + Flow(words[1..], words[0], width, usable, indent)
  }

  function Paragraph(p: string, usable: nat, indent: string): string {
    if Trim(p) == [] then "\n" else Flow(Words(p), [], 0, usable, indent)
  }

  function All(paragraphs: seq<string>, usable: nat, indent: string): string {
    if paragraphs == [] then [] else Paragraph(paragraphs[0], usable, indent) + All(paragraphs[1..], usable, indent)
  }

  function Usable(indent: string, maxWidth: nat): nat {
    if maxWidth < Utf8Length(indent) then 0 else maxWidth - Utf8Length(indent)
  }

  method MeasureVisible(s: string) returns (w: nat)
    ensures w == VisibleWidth(s)
  {
    w := 0;
    var inEscape := false;
    assert s[0..] == s;
    for i := 0 to |s|
      invariant w + VisibleFrom(s[i..], inEscape) == VisibleWidth(s)
    {
      assert s[i..][1..] == s[i + 1..];
      if inEscape {
        if IsLetter(s[i]) {
          inEscape := false;
        }
      } else if s[i] == ESCAPE {
        inEscape := true;
      } else {
        w := w + 1;
      }
    }
  }

  method WrapParagraph(words: seq<string>, usable: nat, indent: string, start: string) returns (result: string)
    ensures result == start + Flow(words, [], 0, usable, indent)
  {
    hide VisibleWidth;
    result := start;
    var line: string, visible: nat := [], 0;
    assert words[0..] == words;
    for i := 0 to |words|
      invariant result + Flow(words[i..], line, visible, usable, indent) == start + Flow(words, [], 0, usable, indent)
    {
      assert words[i..][1..] == words[i + 1..];
      var width := MeasureVisible(words[i]);
      if visible == 0 {
        line := line + words[i];
        visible := width;
      } else if visible + 1 + width <= usable {
        line := line + " " + words[i];
        visible := visible + 1 + width;
      } else {
        Regroup(result, indent + line + "\n", Flow(words[i + 1..], words[i], width, usable, indent));
        result := result + (indent + line + "\n");
        line, visible := words[i], width;
      }
    }
    if line != [] {
      result := result + (indent + line + "\n");
    } else {
      assert result + [] == result;
    }
  }

  lemma Regroup(a: string, b: string, c: string)
    ensures a + (b + c) == a + b + c
  {
  }

  method Wrap(text: string, indent: string, maxWidth: nat) returns (result: string)
    ensures result == All(Paragraphs(text), Usable(indent, maxWidth), indent)
  {
    hide Flow, Trim;
    var usable := Usable(indent, maxWidth);
    var paragraphs := Paragraphs(text);
    result := [];
    assert paragraphs[0..] == paragraphs;
    for i := 0 to |paragraphs|
      invariant result + All(paragraphs[i..], usable, indent) == All(paragraphs, usable, indent)
    {
      assert paragraphs[i..][1..] == paragraphs[i + 1..];
      Regroup(result, Paragraph(paragraphs[i], usable, indent), All(paragraphs[i + 1..], usable, indent));
      if Trim(paragraphs[i]) == [] {
        result := result + "\n";
      } else {
        result := WrapParagraph(Words(paragraphs[i]), usable, indent, result);
      }
    }
    assert result + [] == result;
  }

  // ----- lines of words -----

  type Line = seq<string>

  /** The visible width of the words with spaces between them. */
  function Width(line: Line): nat {
    if line == [] then 0
    else if |line| == 1 then VisibleWidth(line[0])
    else Width(line[..|line| - 1]) + 1 + VisibleWidth(line[|line| - 1])
  }

  function Joined(line: Line): string {
    if line == [] then []
    else if |line| == 1 then line[0]
    else Joined(line[..|line| - 1]) + " " + line[|line| - 1]
  }

  /** A line is too wide only if it is a single word. */
  predicate Fits(line: Line, usable: nat) {
    |line| == 1 || (line != [] && Width(line) <= usable)
  }

  predicate Breaking(lines: seq<Line>, words: seq<string>, usable: nat) {
    && Concat(lines) == words
    && forall i :: 0 <= i < |lines| ==> Fits(lines[i], usable)
  }

  function Concat(lines: seq<Line>): seq<string> {
    if lines == [] then [] else lines[0] + Concat(lines[1..])
  }

  /** The greedy lines, from a line being built. */
  function Greedy(words: seq<string>, line: Line, usable: nat): seq<Line>
    decreases |words|
  {
    if words == [] then (if line == [] then [] else [line])
    else if line == [] then Greedy(words[1..], [words[0]], usable)
    else if Width(line) + 1 + VisibleWidth(words[0]) <= usable then Greedy(words[1..], line + [words[0]], usable)
    else [line] + Greedy(words[1..], [words[0]], usable)
  }

  function Render(lines: seq<Line>, indent: string): string {
    if lines == [] then [] else indent + Joined(lines[0]) + "\n" + Render(lines[1..], indent)
  }

  /** For words without escape sequences the width is the length of the line. */
  lemma {:induction false} PlainLineWidth(line: Line)
    requires forall i :: 0 <= i < |line| ==> ESCAPE !in line[i]
    ensures |Joined(line)| == Width(line)
  {
    if line != [] {
      EscapesDoNotCount(line[|line| - 1], [], 'm', []);
      if |line| > 1 {
        PlainLineWidth(line[..|line| - 1]);
      }
    }
  }

  lemma JoinedMore(line: Line, word: string)
    requires line != []
    ensures Joined(line + [word]) == Joined(line) + " " + word
    ensures Width(line + [word]) == Width(line) + 1 + VisibleWidth(word)
  {
    assert (line + [word])[..|line|] == line;
  }

  predicate Invisible(word: string) {
    VisibleWidth(word) == 0
  }

  /** Some line starts with a word that shows nothing, and another word comes after it. */
  predicate Glued(lines: seq<Line>) {
    exists i :: 0 <= i < |lines| && lines[i] != [] && Invisible(lines[i][0]) && (|lines[i]| > 1 || i + 1 < |lines|)
  }

  /** Words as they are split: none is empty or holds white space. */
  ghost predicate Proper(words: seq<string>) {
    forall i :: 0 <= i < |words| ==> words[i] != [] && forall c :: c in words[i] ==> !IsSpace(c)
  }

  lemma {:induction false} JoinedStarts(line: Line)
    requires line != []
    ensures line[0] <= Joined(line) && (|line| > 1 ==> line[0] + " " <= Joined(line))
  {
    if |line| > 1 {
      JoinedStarts(line[..|line| - 1]);
    }
  }

  lemma {:induction false} GreedyStarts(words: seq<string>, line: Line, usable: nat)
    requires line != []
    ensures var lines := Greedy(words, line, usable);
            lines != [] && line <= lines[0] && (words != [] ==> |lines[0]| > |line| || |lines| > 1)
    decreases |words|
  {
    if words != [] {
      GreedyStarts(words[1..], [words[0]], usable);
      GreedyStarts(words[1..], line + [words[0]], usable);
    }
  }

  lemma {:induction false} FlowStarts(words: seq<string>, line: string, visible: nat, usable: nat, indent: string)
    requires line != []
    ensures indent + line <= Flow(words, line, visible, usable, indent)
    decreases |words|
  {
    if words != [] {
      var width := VisibleWidth(words[0]);
      if visible == 0 {
        FlowStarts(words[1..], line + words[0], width, usable, indent);
      } else if visible + 1 + width <= usable {
        FlowStarts(words[1..], line + " " + words[0], visible + 1 + width, usable, indent);
      }
    }
  }

  /** A word behind an invisible one is written without a space or line break between them. */
  lemma GluedDiffers(words: seq<string>, word: string, usable: nat, indent: string)
    requires Proper(words) && words != [] && word != [] && Invisible(word)
    ensures Glued(Greedy(words, [word], usable))
    ensures Flow(words, word, 0, usable, indent) != Render(Greedy(words, [word], usable), indent)
  {
    hide IsSpace, Greedy, VisibleWidth;
    var lines := Greedy(words, [word], usable);
    GreedyStarts(words, [word], usable);
    assert lines[0][0] == word;
    FlowNext(words, word, usable, indent);
    JoinedStarts(lines[0]);
    var flow, text := Flow(words, word, 0, usable, indent), Render(lines, indent);
    var k := |indent + word|;
    assert flow[k] == (indent + word + words[0])[k] == words[0][0];
    assert text == indent + Joined(lines[0]) + "\n" + Render(lines[1..], indent);
    if |lines[0]| > 1 {
      assert text[k] == (word + " ")[|word|] == ' ';
    } else {
      assert Joined(lines[0]) == word && text[k] == '\n';
    }
    assert IsSpace(text[k]) && !IsSpace(flow[k]) by {
      WhiteSpace();
      assert words[0][0] in words[0];
    }
  }

  lemma WhiteSpace()
    ensures IsSpace(' ') && IsSpace('\n')
  {
  }

  lemma FlowNext(words: seq<string>, line: string, usable: nat, indent: string)
    requires words != [] && line != []
    ensures indent + line + words[0] <= Flow(words, line, 0, usable, indent)
  {
    FlowStarts(words[1..], line + words[0], VisibleWidth(words[0]), usable, indent);
    assert indent + (line + words[0]) == indent + line + words[0];
  }

  lemma GluedCons(line: Line, rest: seq<Line>)
    requires line != [] && !Invisible(line[0])
    ensures Glued([line] + rest) <==> Glued(rest)
  {
    if Glued(rest) {
      var i :| 0 <= i < |rest| && rest[i] != [] && Invisible(rest[i][0]) && (|rest[i]| > 1 || i + 1 < |rest|);
      assert ([line] + rest)[i + 1] == rest[i];
    }
    if Glued([line] + rest) {
      var lines := [line] + rest;
      var i :| 0 <= i < |lines| && lines[i] != [] && Invisible(lines[i][0]) && (|lines[i]| > 1 || i + 1 < |lines|);
      assert rest[i - 1] == lines[i];
    }
  }

  lemma WidthSome(line: Line)
    requires line != []
    ensures Width(line) == 0 <==> |line| == 1 && Invisible(line[0])
  {
  }

  /** The text built from a line on is the greedy lines, rendered, exactly if no word is glued to an invisible
      one. */
  lemma {:induction false} FlowIsGreedy(words: seq<string>, line: Line, usable: nat, indent: string)
    requires Proper(words) && Proper(line) && (|line| > 1 ==> !Invisible(line[0]))
    ensures Flow(words, Joined(line), Width(line), usable, indent) == Render(Greedy(words, line, usable), indent)
       <==> !Glued(Greedy(words, line, usable))
    decreases |words|
  {
    hide VisibleWidth, Glued, Invisible, IsSpace;
    if line != [] {
      JoinedStarts(line);
      WidthSome(line);
    }
    if words == [] {
      LastLine(line, indent);
    } else if line == [] {
      FlowIsGreedy(words[1..], [words[0]], usable, indent);
      assert [] + words[0] == words[0];
    } else if Width(line) == 0 {
      assert Joined(line) == line[0] && line == [line[0]];
      GluedDiffers(words, line[0], usable, indent);
    } else if Width(line) + 1 + VisibleWidth(words[0]) <= usable {
      JoinedMore(line, words[0]);
      VisibleStart(line);
      FlowIsGreedy(words[1..], line + [words[0]], usable, indent);
    } else {
      FlowIsGreedy(words[1..], [words[0]], usable, indent);
      VisibleStart(line);
      var rest := Greedy(words[1..], [words[0]], usable);
      GluedCons(line, rest);
      assert ([line] + rest)[1..] == rest;
      SameBehind(indent + Joined(line) + "\n", Flow(words[1..], words[0], VisibleWidth(words[0]), usable, indent),
          Render(rest, indent));
    }
  }

  lemma VisibleStart(line: Line)
    requires line != [] && Width(line) > 0 && (|line| > 1 ==> !Invisible(line[0]))
    ensures !Invisible(line[0])
  {
  }

  lemma SameBehind(a: string, b: string, c: string)
    ensures a + b == a + c <==> b == c
  {
    if a + b == a + c {
      assert (a + b)[|a|..] == b && (a + c)[|a|..] == c;
    }
  }

  lemma LastLine(line: Line, indent: string)
    requires |line| > 1 ==> !Invisible(line[0])
    requires line != [] ==> Joined(line) != []
    ensures var lines := if line == [] then [] else [line];
            !Glued(lines) && Render(lines, indent) == if line != [] then indent + Joined(line) + "\n" else []
  {
    if line != [] {
      assert [line][1..] == [];
      assert Render([line], indent) == indent + Joined(line) + "\n" + [];
    }
  }

  // ----- greedy lines are the fewest -----

  lemma {:induction false} WidthMonotone(line: Line, i: nat, j: nat)
    requires i <= j <= |line|
    ensures Width(line[i..j]) <= Width(line)
    decreases |line|
  {
    if j < |line| {
      WidthMonotone(line[..|line| - 1], i, j);
      SubLine(line, |line| - 1, i, j);
    } else if i < j && i > 0 {
      WidthMonotone(line[..|line| - 1], i, j - 1);
      SubLine(line, |line| - 1, i, j - 1);
      assert line[i..j][..j - i - 1] == line[i..j - 1];
    } else if i == 0 {
      assert line[i..j] == line;
    }
  }

  lemma SubLine(line: Line, n: nat, i: nat, j: nat)
    requires i <= j <= n <= |line|
    ensures line[..n][i..j] == line[i..j]
  {
  }

  /** Without its first words, a text needs no more lines. */
  lemma {:induction false} DropFront(lines: seq<Line>, words: seq<string>, usable: nat, i: nat)
      returns (fewer: seq<Line>)
    requires Breaking(lines, words, usable) && i <= |words|
    ensures Breaking(fewer, words[i..], usable) && |fewer| <= |lines|
    decreases |lines|
  {
    if lines == [] || i == 0 {
      fewer := lines;
      assert words[0..] == words;
    } else {
      var first, rest := lines[0], lines[1..];
      assert words == first + Concat(rest);
      assert Breaking(rest, Concat(rest), usable);
      if i >= |first| {
        fewer := DropFront(rest, Concat(rest), usable, i - |first|);
        assert Concat(rest)[i - |first|..] == words[i..];
      } else {
        WidthMonotone(first, i, |first|);
        assert first[i..|first|] == first[i..];
        fewer := [first[i..]] + rest;
        assert fewer[1..] == rest;
        assert words[i..] == first[i..] + Concat(rest);
      }
    }
  }

  /** The line takes the first `m` of these words, and one more would be too many. */
  ghost predicate Takes(words: seq<string>, line: Line, usable: nat, m: nat) {
    && m <= |words| && Fits(line + words[..m], usable)
    && Greedy(words, line, usable) == [line + words[..m]] + Greedy(words[m..], [], usable)
    && (m < |words| ==> Width(line + words[..m + 1]) > usable)
  }

  lemma TakesNone(words: seq<string>, line: Line, usable: nat)
    requires Fits(line, usable) && (words != [] ==> Width(line) + 1 + VisibleWidth(words[0]) > usable)
    ensures Takes(words, line, usable, 0)
  {
    assert line + words[..0] == line && words[0..] == words;
    if words == [] {
      assert [line] + [] == [line];
    } else {
      JoinedMore(line, words[0]);
      assert words[..1] == [words[0]];
    }
  }

  lemma TakesMore(words: seq<string>, line: Line, usable: nat, k: nat)
    requires line != [] && words != [] && Width(line) + 1 + VisibleWidth(words[0]) <= usable
    requires Takes(words[1..], line + [words[0]], usable, k)
    ensures Takes(words, line, usable, k + 1)
  {
    hide Width, Fits;
    var longer := line + [words[0]];
    assert longer + words[1..][..k] == line + words[..k + 1];
    assert words[1..][k..] == words[k + 1..];
    if k + 1 < |words| {
      assert longer + words[1..][..k + 1] == line + words[..k + 2];
    }
    assert Greedy(words, line, usable) == Greedy(words[1..], longer, usable);
  }

  /** The first greedy line takes as many words as fit. */
  lemma {:induction false} FirstLine(words: seq<string>, line: Line, usable: nat) returns (m: nat)
    requires Fits(line, usable)
    ensures Takes(words, line, usable, m)
    decreases |words|
  {
    hide Takes;
    if words != [] && Width(line) + 1 + VisibleWidth(words[0]) <= usable {
      JoinedMore(line, words[0]);
      var k := FirstLine(words[1..], line + [words[0]], usable);
      TakesMore(words, line, usable, k);
      m := k + 1;
    } else {
      TakesNone(words, line, usable);
      m := 0;
    }
  }

  /** In whole texts: the first greedy line is the longest prefix that fits. */
  lemma FirstPrefix(words: seq<string>, usable: nat) returns (n: nat)
    requires words != []
    ensures 1 <= n <= |words| && Fits(words[..n], usable)
    ensures Greedy(words, [], usable) == [words[..n]] + Greedy(words[n..], [], usable)
    ensures n < |words| ==> Width(words[..n + 1]) > usable
  {
    hide Width;
    var m := FirstLine(words[1..], [words[0]], usable);
    n := m + 1;
    assert [words[0]] + words[1..][..m] == words[..n] && words[1..][m..] == words[n..];
    if n < |words| {
      assert [words[0]] + words[1..][..m + 1] == words[..n + 1];
    }
  }

  /** Greedy lines keep the words in order, are too wide only for a single word, and no other way of
      breaking the words into such lines has fewer. */
  lemma {:induction false} GreedyIsFewest(words: seq<string>, usable: nat, lines: seq<Line>)
    requires Breaking(lines, words, usable)
    ensures Breaking(Greedy(words, [], usable), words, usable)
    ensures |Greedy(words, [], usable)| <= |lines|
    decreases |words|
  {
    hide Width;
    if words != [] {
      var n := FirstPrefix(words, usable);
      var taken := FirstNoLonger(words, usable, lines, n);
      var rest := DropFront(lines[1..], words[taken..], usable, n - taken);
      assert words[taken..][n - taken..] == words[n..];
      GreedyIsFewest(words[n..], usable, rest);
      BreakingMore(words, n, Greedy(words[n..], [], usable), usable);
    }
  }

  lemma BreakingMore(words: seq<string>, n: nat, rest: seq<Line>, usable: nat)
    requires n <= |words| && Fits(words[..n], usable) && Breaking(rest, words[n..], usable)
    ensures Breaking([words[..n]] + rest, words, usable)
  {
    hide Fits;
    var lines := [words[..n]] + rest;
    assert lines[1..] == rest;
    assert words == words[..n] + words[n..];
  }

  /** The first line of any breaking has at most as many words as fit. */
  lemma FirstNoLonger(words: seq<string>, usable: nat, lines: seq<Line>, n: nat) returns (taken: nat)
    requires Breaking(lines, words, usable) && 1 <= n <= |words|
    requires n < |words| ==> Width(words[..n + 1]) > usable
    ensures lines != [] && taken == |lines[0]| && 1 <= taken <= n
    ensures Breaking(lines[1..], words[taken..], usable)
  {
    taken := |lines[0]|;
    assert words == lines[0] + Concat(lines[1..]);
    assert words[..taken] == lines[0] && words[taken..] == Concat(lines[1..]);
    if taken > n {
      assert lines[0][0..n + 1] == words[..n + 1];
      WidthMonotone(lines[0], 0, n + 1);
    }
  }

  // ----- the whole text -----

  /** A line fits next to the indentation, or is a single word. */
  ghost predicate FitsWithin(line: Line, indent: string, maxWidth: nat) {
    |line| == 1 || (line != [] && Utf8Length(indent) + Width(line) <= maxWidth)
  }

  /** The first word of the next line does not fit on this one. */
  ghost predicate NoRoomBehind(lines: seq<Line>, i: nat, indent: string, maxWidth: nat)
    requires i + 1 < |lines|
  {
    lines[i + 1] != [] && Utf8Length(indent) + Width(lines[i] + [lines[i + 1][0]]) > maxWidth
  }

  lemma UsableFits(line: Line, indent: string, maxWidth: nat)
    ensures Fits(line, Usable(indent, maxWidth)) <==> FitsWithin(line, indent, maxWidth)
  {
    if |line| > 1 {
      WidthSome(line);
    }
  }

  /** Each greedy line has no room for the first word of the next. */
  lemma {:induction false} GreedyIsFull(words: seq<string>, usable: nat, i: nat)
    requires i + 1 < |Greedy(words, [], usable)|
    ensures var lines := Greedy(words, [], usable); lines[i + 1] != [] && Width(lines[i] + [lines[i + 1][0]]) > usable
    decreases |words|
  {
    hide Width;
    var n := FirstPrefix(words, usable);
    var rest := Greedy(words[n..], [], usable);
    if i > 0 {
      GreedyIsFull(words[n..], usable, i - 1);
    } else {
      var m := FirstPrefix(words[n..], usable);
      assert rest[0] == words[n..][..m];
      assert words[..n] + [words[n..][..m][0]] == words[..n + 1];
    }
  }

  lemma GreedyWithin(words: seq<string>, indent: string, maxWidth: nat, lines: seq<Line>)
    requires Concat(lines) == words && forall i :: 0 <= i < |lines| ==> FitsWithin(lines[i], indent, maxWidth)
    ensures var greedy := Greedy(words, [], Usable(indent, maxWidth));
            && Concat(greedy) == words && |greedy| <= |lines|
            && forall i :: 0 <= i < |greedy| ==> FitsWithin(greedy[i], indent, maxWidth)
  {
    hide Width, Fits, Usable, FitsWithin, Greedy, Concat;
    forall line
      ensures Fits(line, Usable(indent, maxWidth)) <==> FitsWithin(line, indent, maxWidth)
    {
      UsableFits(line, indent, maxWidth);
    }
    GreedyIsFewest(words, Usable(indent, maxWidth), lines);
  }

  lemma GreedyFills(words: seq<string>, indent: string, maxWidth: nat)
    ensures var greedy := Greedy(words, [], Usable(indent, maxWidth));
            forall i :: 0 <= i < |greedy| - 1 ==> NoRoomBehind(greedy, i, indent, maxWidth)
  {
    hide Width, Usable, Greedy, Utf8Length;
    var greedy := Greedy(words, [], Usable(indent, maxWidth));
    forall i | 0 <= i < |greedy| - 1
      ensures NoRoomBehind(greedy, i, indent, maxWidth)
    {
      GreedyIsFull(words, Usable(indent, maxWidth), i);
      NoRoom(indent, maxWidth, Width(greedy[i] + [greedy[i + 1][0]]));
    }
  }

  lemma ParagraphIsGreedy(p: string, usable: nat, indent: string)
    requires !Blank(p)
    ensures Paragraph(p, usable, indent) == Render(Greedy(Words(p), [], usable), indent)
       <==> !Glued(Greedy(Words(p), [], usable))
  {
    hide IsSpace, Trim, Glued, Blank, Greedy, Flow, Words;
    WordsKeepText(p);
    FlowIsGreedy(Words(p), [], usable, indent);
    TrimmedAway(p);
  }

  /** A paragraph is broken into the fewest lines that keep its words in order and, single words apart, fit into
      the width beside the indentation, each line taking as many words as it can. What is written is those
      lines, indented, exactly if no line starts with a word that shows nothing and has a word after it. */
  lemma ParagraphIsOptimal(p: string, indent: string, maxWidth: nat, lines: seq<Line>)
    requires !Blank(p) && Concat(lines) == Words(p)
    requires forall i :: 0 <= i < |lines| ==> FitsWithin(lines[i], indent, maxWidth)
    ensures var usable := Usable(indent, maxWidth);
            var greedy := Greedy(Words(p), [], usable);
            && Concat(greedy) == Words(p) && |greedy| <= |lines|
            && (forall i :: 0 <= i < |greedy| ==> FitsWithin(greedy[i], indent, maxWidth))
            && (forall i :: 0 <= i < |greedy| - 1 ==> NoRoomBehind(greedy, i, indent, maxWidth))
            && (Paragraph(p, usable, indent) == Render(greedy, indent) <==> !Glued(greedy))
  {
    hide NoRoomBehind, Usable, FitsWithin, Utf8Length, Glued, Blank, Greedy, Words, Concat, Paragraph, Render;
    GreedyWithin(Words(p), indent, maxWidth, lines);
    GreedyFills(Words(p), indent, maxWidth);
    ParagraphIsGreedy(p, Usable(indent, maxWidth), indent);
  }

  lemma NoRoom(indent: string, maxWidth: nat, width: nat)
    requires width > Usable(indent, maxWidth)
    ensures Utf8Length(indent) + width > maxWidth
  {
  }

  /** A word that shows nothing, such as a colour code on its own, loses the space behind it. */
  lemma InvisibleWordGlues(code: string, word: string, usable: nat, indent: string)
    requires Proper([code, word]) && Invisible(code)
    ensures Paragraph(code + " " + word, usable, indent) == indent + (code + word) + "\n"
  {
    hide IsSpace, VisibleWidth;
    var p := code + " " + word;
    assert [code, word][0] == code && [code, word][1] == word;
    WhiteSpace();
    FirstWordIs([], code, " " + word);
    FirstWordIs(" ", word, []);
    assert [] + code + (" " + word) == p && " " + word + [] == " " + word;
    assert Words(p) == [code, word] by {
      assert Words([]) == [] && [word] + [] == [word] && [code] + [word] == [code, word];
    }
    assert !Blank(p) by {
      assert code[0] in code && p[0] == code[0] && p[0] in p;
    }
    TrimmedAway(p);
    assert [code, word][1..] == [word] && [word][1..] == [];
    assert [] + code == code;
    assert Flow([code, word], [], 0, usable, indent) == Flow([word], code, 0, usable, indent)
        == Flow([], code + word, VisibleWidth(word), usable, indent);
  }

  /** The text is wrapped paragraph by paragraph, each blank one giving an empty line. */
  lemma WrapByParagraph(line: string, rest: string, usable: nat, indent: string)
    requires '\n' !in line
    ensures All(Paragraphs(line), usable, indent) == Paragraph(line, usable, indent)
    ensures All(Paragraphs(line + "\n" + rest), usable, indent)
         == Paragraph(line, usable, indent) + All(Paragraphs(rest), usable, indent)
    ensures Blank(line) ==> Paragraph(line, usable, indent) == "\n"
  {
    hide Paragraph;
    FirstParagraphIs(line, rest);
    assert [line][1..] == [] && ([line] + Paragraphs(rest))[1..] == Paragraphs(rest);
    TrimmedAway(line);
    if Blank(line) {
      assert Paragraph(line, usable, indent) == "\n" by {
        BlankParagraph(line, usable, indent);
      }
    }
  }

  lemma BlankParagraph(line: string, usable: nat, indent: string)
    requires Trim(line) == []
    ensures Paragraph(line, usable, indent) == "\n"
  {
  }
}
