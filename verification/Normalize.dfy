/** The canonical text that is chunked: paragraphs of words. Compatibility normalization of characters is taken as
    done. */
module Normalize {
  import opened Text
  import opened Counting

  /******* Line endings *******/

  function ReplaceCrLf(text: string): string {
    if |text| < 2 then text
    else if text[0] == '\r' && text[1] == '\n' then "\n" + ReplaceCrLf(text[2..])
    else [text[0]] + ReplaceCrLf(text[1..])
  }

  function ReplaceCr(text: string): string {
    if text == "" then "" else [if text[0] == '\r' then '\n' else text[0]] + ReplaceCr(text[1..])
  }

  function Lines(text: string): seq<string> {
    Split('\n', ReplaceCr(ReplaceCrLf(text)))
  }

  datatype Ending = Lf | CrLf | Cr

  function EndingText(ending: Ending): string {
    match ending case Lf => "\n" case CrLf => "\r\n" case Cr => "\r"
  }

  // The lines, each but the last followed by its own ending.
  function Weave(lines: seq<string>, endings: seq<Ending>): string
    requires |lines| == |endings| + 1
  {
    if endings == [] then lines[0] else lines[0] + EndingText(endings[0]) + Weave(lines[1..], endings[1..])
  }

  ghost predicate IsLine(line: string) {
    Without('\r', line) && Without('\n', line)
  }

  lemma {:induction false} ReplaceCrLfInLine(line: string, rest: string)
    requires IsLine(line)
    ensures ReplaceCrLf(line + rest) == line + ReplaceCrLf(rest)
  {
    if line == "" {
      assert line + rest == rest;
    } else {
      ReplaceCrLfInLine(line[1..], rest);
      assert (line + rest)[1..] == line[1..] + rest;
      KeepFirst(line + rest);
      PutBack(line, ReplaceCrLf(rest));
    }
  }

  lemma {:induction false} KeepFirst(text: string)
    requires text != "" && text[0] != '\r'
    ensures ReplaceCrLf(text) == [text[0]] + ReplaceCrLf(text[1..])
  {
  }

  lemma {:induction false} PutBack(line: string, rest: string)
    requires line != ""
    ensures [line[0]] + (line[1..] + rest) == line + rest
  {
    assert [line[0]] + line[1..] == line;
  }

  lemma {:induction false} ReplaceCrInLine(line: string, rest: string)
    requires IsLine(line)
    ensures ReplaceCr(line + rest) == line + ReplaceCr(rest)
  {
    if line == "" {
      assert line + rest == rest;
    } else {
      assert (line + rest)[0] == line[0] && (line + rest)[1..] == line[1..] + rest;
      ReplaceCrInLine(line[1..], rest);
      assert line == [line[0]] + line[1..];
    }
  }

  lemma {:induction false} ReplaceEnding(ending: Ending, rest: string)
    requires ending == Cr && rest != "" ==> rest[0] != '\n'
    ensures ReplaceCr(ReplaceCrLf(EndingText(ending) + rest)) == "\n" + ReplaceCr(ReplaceCrLf(rest))
  {
    var text := EndingText(ending) + rest;
    match ending
    case Lf =>
      assert text[1..] == rest;
      if rest == "" {
        assert text == "\n";
      }
      assert ReplaceCrLf(text) == "\n" + ReplaceCrLf(rest);
      assert ReplaceCrLf(text)[1..] == ReplaceCrLf(rest);
    case CrLf =>
      assert text[2..] == rest;
      assert ReplaceCrLf(text)[1..] == ReplaceCrLf(rest);
    case Cr =>
      assert text[1..] == rest;
      if rest == "" {
        assert text == "\r";
      }
      assert ReplaceCrLf(text) == "\r" + ReplaceCrLf(rest);
      assert ReplaceCrLf(text)[1..] == ReplaceCrLf(rest);
  }

  // A carriage return, an empty line and a line feed are read as one line ending.
  predicate IsMerged(lines: seq<string>, endings: seq<Ending>)
    requires |lines| == |endings| + 1
  {
    |endings| >= 2 && endings[0] == Cr && lines[1] == "" && endings[1] == Lf
  }

  // The lines that are read back: all but the empty ones between such a carriage return and line feed.
  function Kept(lines: seq<string>, endings: seq<Ending>): (kept: seq<string>)
    requires |lines| == |endings| + 1
    ensures kept != [] && kept[0] == lines[0]
    decreases |endings|
  {
    if endings == [] then lines
    else if IsMerged(lines, endings) then [lines[0]] + Kept(lines[2..], endings[2..])
    else [lines[0]] + Kept(lines[1..], endings[1..])
  }

  lemma {:induction false} WeaveStart(lines: seq<string>, endings: seq<Ending>)
    requires |lines| == |endings| + 1 && IsLine(lines[0])
    ensures Weave(lines, endings) != "" && Weave(lines, endings)[0] == '\n'
            ==> endings != [] && lines[0] == "" && endings[0] == Lf
  {
    if lines[0] != "" {
      assert Weave(lines, endings)[0] == lines[0][0];
      assert lines[0][0] in lines[0];
    }
  }

  // A line, its ending as it is read, and the rest.
  lemma {:induction false} LinesAfterOne(line: string, ending: Ending, rest: string)
    requires IsLine(line) && (ending == Cr && rest != "" ==> rest[0] != '\n')
    ensures Lines(line + EndingText(ending) + rest) == [line] + Lines(rest)
  {
    ReplaceAfterOne(line, ending, rest);
    SplitAfter('\n', line, ReplaceCr(ReplaceCrLf(rest)));
  }

  lemma {:induction false} ReplaceAfterOne(line: string, ending: Ending, rest: string)
    requires IsLine(line) && (ending == Cr && rest != "" ==> rest[0] != '\n')
    ensures ReplaceCr(ReplaceCrLf(line + EndingText(ending) + rest)) == line + ['\n'] + ReplaceCr(ReplaceCrLf(rest))
  {
    var after := EndingText(ending) + rest;
    assert line + EndingText(ending) + rest == line + after;
    ReplaceCrLfInLine(line, after);
    ReplaceCrInLine(line, ReplaceCrLf(after));
    ReplaceEnding(ending, rest);
    AppendLine(line, ReplaceCr(ReplaceCrLf(rest)));
  }

  lemma {:induction false} AppendLine(line: string, rest: string)
    ensures line + ("\n" + rest) == line + ['\n'] + rest
  {
  }

  lemma {:induction false} LinesOfOne(line: string)
    requires IsLine(line)
    ensures Lines(line) == [line]
  {
    ReplaceCrLfInLine(line, "");
    ReplaceCrInLine(line, "");
    assert line + "" == line;
    SplitWithout('\n', line);
  }

  lemma {:induction false} WeaveMerged(lines: seq<string>, endings: seq<Ending>)
    requires |lines| == |endings| + 1 && IsMerged(lines, endings)
    ensures Weave(lines, endings) == lines[0] + EndingText(CrLf) + Weave(lines[2..], endings[2..])
  {
    var rest := Weave(lines[2..], endings[2..]);
    assert lines[1..][1..] == lines[2..] && endings[1..][1..] == endings[2..];
    assert Weave(lines[1..], endings[1..]) == "" + "\n" + rest;
    assert lines[0] + "\r" + ("" + "\n" + rest) == lines[0] + "\r\n" + rest;
  }

  /** The lines of a text, however each of them ends. */
  lemma {:induction false} LinesOfWeave(lines: seq<string>, endings: seq<Ending>)
    requires |lines| == |endings| + 1 && forall line :: line in lines ==> IsLine(line)
    ensures Lines(Weave(lines, endings)) == Kept(lines, endings)
    decreases |endings|
  {
    assert lines[0] in lines;
    if endings == [] {
      LinesOfOne(lines[0]);
      assert lines == [lines[0]];
    } else if IsMerged(lines, endings) {
      LinesOfWeave(lines[2..], endings[2..]);
      WeaveMerged(lines, endings);
      LinesAfterOne(lines[0], CrLf, Weave(lines[2..], endings[2..]));
    } else {
      assert lines[1] in lines;
      LinesOfWeave(lines[1..], endings[1..]);
      WeaveStart(lines[1..], endings[1..]);
      LinesAfterOne(lines[0], endings[0], Weave(lines[1..], endings[1..]));
    }
  }

  function AllLf(n: nat): (endings: seq<Ending>)
    ensures |endings| == n && forall i :: 0 <= i < n ==> endings[i] == Lf
  {
    seq(n, i => Lf)
  }

  lemma {:induction false} KeptOfLf(lines: seq<string>)
    requires lines != []
    ensures Kept(lines, AllLf(|lines| - 1)) == lines
    decreases |lines|
  {
    if |lines| > 1 {
      KeptOfLf(lines[1..]);
      assert AllLf(|lines| - 1)[1..] == AllLf(|lines| - 2);
      assert lines == [lines[0]] + lines[1..];
    }
  }

  /******* Paragraphs *******/

  // The paragraphs of a list of lines, each as its words; `current` holds the words of the paragraph being read.
  function Group(lines: seq<string>, current: seq<string>): seq<seq<string>>
    decreases |lines|
  {
    if lines == [] then (if current == [] then [] else [current])
    else if Words(lines[0]) != [] then Group(lines[1..], current + Words(lines[0]))
    else if current != [] then [current] + Group(lines[1..], [])
    else Group(lines[1..], [])
  }

  function Paragraphs(text: string): seq<seq<string>> {
    Group(Lines(text), [])
  }

  function RenderParagraph(words: seq<string>): string {
    Join(" ", words)
  }

  // Single spaces inside paragraphs, exactly two newlines between them.
  function Render(paragraphs: seq<seq<string>>): string {
    Join("\n\n", Map(RenderParagraph, paragraphs))
  }

  ghost predicate IsParagraph(words: seq<string>) {
    words != [] && forall word :: word in words ==> IsWord(word)
  }

  ghost predicate AreParagraphs(paragraphs: seq<seq<string>>) {
    forall words :: words in paragraphs ==> IsParagraph(words)
  }

  function NormalizeText(text: string): string {
    Render(Paragraphs(text))
  }

  lemma {:induction false} GroupIsParagraphs(lines: seq<string>, current: seq<string>)
    requires forall word :: word in current ==> IsWord(word)
    ensures AreParagraphs(Group(lines, current))
    decreases |lines|
  {
    if lines != [] {
      if Words(lines[0]) != [] {
        GroupIsParagraphs(lines[1..], current + Words(lines[0]));
      } else {
        GroupIsParagraphs(lines[1..], []);
      }
    }
  }

  /** No word is added, lost or moved. */
  lemma {:induction false} GroupKeepsWords(lines: seq<string>, current: seq<string>)
    ensures Concat(Group(lines, current)) == current + Concat(Map(Words, lines))
    decreases |lines|
  {
    if lines == [] {
      if current != [] {
        assert [current][1..] == [];
        assert Concat([current]) == current + Concat<string>([]);
      }
      assert Concat(Map(Words, lines)) == [];
    } else {
      assert Map(Words, lines)[1..] == Map(Words, lines[1..]);
      if Words(lines[0]) != [] {
        GroupKeepsWords(lines[1..], current + Words(lines[0]));
      } else {
        GroupKeepsWords(lines[1..], []);
        if current != [] {
          assert ([current] + Group(lines[1..], []))[1..] == Group(lines[1..], []);
        }
      }
    }
  }

  /******* Reading back what was rendered *******/

  // The lines of rendered paragraphs: one each, with an empty line between.
  function LinesOf(paragraphs: seq<seq<string>>): seq<string>
    requires paragraphs != []
  {
    if |paragraphs| == 1 then [RenderParagraph(paragraphs[0])]
    else [RenderParagraph(paragraphs[0]), ""] + LinesOf(paragraphs[1..])
  }

  lemma {:induction false} JoinHasOnly(words: seq<string>, c: char)
    requires IsSpace(c) && c != ' ' && forall word :: word in words ==> IsWord(word)
    ensures Without(c, Join(" ", words))
    decreases |words|
  {
    if words != [] {
      assert words[0] in words && IsWord(words[0]);
      assert forall i :: 0 <= i < |words[0]| ==> words[0][i] != c;
      if |words| > 1 {
        JoinHasOnly(words[1..], c);
      }
    }
  }

  lemma {:induction false} RenderedIsLine(words: seq<string>)
    requires IsParagraph(words)
    ensures IsLine(RenderParagraph(words)) && Words(RenderParagraph(words)) == words
  {
    JoinHasOnly(words, '\r');
    JoinHasOnly(words, '\n');
    WordsOfJoin(words);
  }

  lemma {:induction false} RenderIsWoven(paragraphs: seq<seq<string>>)
    requires paragraphs != [] && AreParagraphs(paragraphs)
    ensures Render(paragraphs) == Join("\n", LinesOf(paragraphs))
    ensures LinesOf(paragraphs) != []
    ensures forall line :: line in LinesOf(paragraphs) ==> IsLine(line)
    decreases |paragraphs|
  {
    assert paragraphs[0] in paragraphs;
    RenderedIsLine(paragraphs[0]);
    if |paragraphs| > 1 {
      RenderIsWoven(paragraphs[1..]);
      RenderFirst(paragraphs);
      JoinAfterBlank(RenderParagraph(paragraphs[0]), LinesOf(paragraphs[1..]));
    }
  }

  lemma {:induction false} RenderFirst(paragraphs: seq<seq<string>>)
    requires |paragraphs| > 1
    ensures Render(paragraphs) == RenderParagraph(paragraphs[0]) + "\n\n" + Render(paragraphs[1..])
  {
    assert Map(RenderParagraph, paragraphs)[1..] == Map(RenderParagraph, paragraphs[1..]);
  }

  lemma {:induction false} JoinAfterBlank(line: string, lines: seq<string>)
    requires lines != []
    ensures Join("\n", [line, ""] + lines) == line + "\n\n" + Join("\n", lines)
  {
    var all := [line, ""] + lines;
    assert all[1..] == [""] + lines && all[1..][1..] == lines;
    assert Join("\n", all[1..]) == "" + "\n" + Join("\n", lines);
    assert line + "\n" + ("" + "\n" + Join("\n", lines)) == line + "\n\n" + Join("\n", lines);
  }

  lemma {:induction false} JoinIsWoven(lines: seq<string>)
    requires lines != []
    ensures Join("\n", lines) == Weave(lines, AllLf(|lines| - 1))
    decreases |lines|
  {
    if |lines| > 1 {
      JoinIsWoven(lines[1..]);
      assert AllLf(|lines| - 1)[1..] == AllLf(|lines| - 2);
    }
  }

  lemma {:induction false} GroupOfLines(paragraphs: seq<seq<string>>)
    requires paragraphs != [] && AreParagraphs(paragraphs)
    ensures Group(LinesOf(paragraphs), []) == paragraphs
    decreases |paragraphs|
  {
    assert paragraphs[0] in paragraphs;
    RenderedIsLine(paragraphs[0]);
    if |paragraphs| == 1 {
      GroupLast(RenderParagraph(paragraphs[0]), paragraphs[0]);
    } else {
      GroupOfLines(paragraphs[1..]);
      GroupFirst(RenderParagraph(paragraphs[0]), paragraphs[0], LinesOf(paragraphs[1..]));
    }
  }

  lemma {:induction false} GroupLast(line: string, words: seq<string>)
    requires Words(line) == words != []
    ensures Group([line], []) == [words]
  {
    assert [line][1..] == [] && [] + words == words;
  }

  lemma {:induction false} GroupFirst(line: string, words: seq<string>, rest: seq<string>)
    requires Words(line) == words != []
    ensures Group([line, ""] + rest, []) == [words] + Group(rest, [])
  {
    var lines := [line, ""] + rest;
    assert lines[1..] == [""] + rest && lines[1..][1..] == rest;
    assert Group(lines, []) == Group(lines[1..], words) by { assert [] + words == words; }
  }

  /** Round trip: rendered paragraphs are read back as they were. */
  lemma {:induction false} ParagraphsOfRender(paragraphs: seq<seq<string>>)
    requires AreParagraphs(paragraphs)
    ensures Paragraphs(Render(paragraphs)) == paragraphs
  {
    if paragraphs == [] {
      assert Render(paragraphs) == "";
      assert Lines("") == [""];
    } else {
      var lines := LinesOf(paragraphs);
      RenderIsWoven(paragraphs);
      JoinIsWoven(lines);
      LinesOfWeave(lines, AllLf(|lines| - 1));
      KeptOfLf(lines);
      GroupOfLines(paragraphs);
    }
  }

  /******* Main results *******/

  /** Normalization preserves the words and the paragraphs they form, and is idempotent. */
  lemma {:induction false} NormalizationKeepsParagraphs(text: string)
    ensures Paragraphs(NormalizeText(text)) == Paragraphs(text)
    ensures NormalizeText(NormalizeText(text)) == NormalizeText(text)
  {
    GroupIsParagraphs(Lines(text), []);
    ParagraphsOfRender(Paragraphs(text));
  }

  /** Two texts are normalized alike exactly when they have the same paragraphs of the same words. */
  lemma {:induction false} NormalizedAlikeIff(a: string, b: string)
    ensures NormalizeText(a) == NormalizeText(b) <==> Paragraphs(a) == Paragraphs(b)
  {
    NormalizationKeepsParagraphs(a);
    NormalizationKeepsParagraphs(b);
  }

  lemma {:induction false} ReplaceCrKeepsWords(text: string)
    ensures Words(ReplaceCr(text)) == Words(text)
    decreases |text|
  {
    if text != "" {
      if IsSpace(text[0]) {
        ReplaceCrKeepsWords(text[1..]);
      } else {
        var word := FirstWord(text);
        var rest := text[|word|..];
        assert text == word + rest;
        ReplaceCrKeepsWords(rest);
        ReplaceCrInWord(word, rest);
        WordsAfterWord(word, ReplaceCr(rest));
      }
    }
  }

  lemma {:induction false} ReplaceCrInWord(word: string, rest: string)
    requires forall i :: 0 <= i < |word| ==> !IsSpace(word[i])
    ensures ReplaceCr(word + rest) == word + ReplaceCr(rest)
  {
    assert IsLine(word);
    ReplaceCrInLine(word, rest);
  }

  lemma {:induction false} ReplaceCrLfKeepsWords(text: string)
    ensures Words(ReplaceCrLf(text)) == Words(text)
    decreases |text|
  {
    if |text| >= 2 {
      if text[0] == '\r' && text[1] == '\n' {
        ReplaceCrLfKeepsWords(text[2..]);
        assert text[1..][1..] == text[2..];
        WordsAfterSpace('\n', ReplaceCrLf(text[2..]));
      } else if IsSpace(text[0]) {
        ReplaceCrLfKeepsWords(text[1..]);
        WordsAfterSpace(text[0], ReplaceCrLf(text[1..]));
      } else {
        var word := FirstWord(text);
        var rest := text[|word|..];
        assert text == word + rest;
        ReplaceCrLfKeepsWords(rest);
        assert IsLine(word);
        ReplaceCrLfInLine(word, rest);
        ReplaceCrLfStart(rest);
        WordsAfterWord(word, ReplaceCrLf(rest));
      }
    }
  }

  lemma {:induction false} ReplaceCrLfStart(text: string)
    ensures text == "" ==> ReplaceCrLf(text) == ""
    ensures text != "" && IsSpace(text[0]) ==> ReplaceCrLf(text) != "" && IsSpace(ReplaceCrLf(text)[0])
  {
  }

  lemma {:induction false} WordsAfterSpace(space: char, rest: string)
    requires IsSpace(space)
    ensures Words([space] + rest) == Words(rest)
  {
    assert ([space] + rest)[1..] == rest;
  }

  /** The words of a text are those of its lines. */
  lemma {:induction false} WordsOfText(text: string)
    ensures Words(text) == Concat(Map(Words, Lines(text)))
  {
    ReplaceCrLfKeepsWords(text);
    ReplaceCrKeepsWords(ReplaceCrLf(text));
    WordsOfSplit(ReplaceCr(ReplaceCrLf(text)));
  }

  lemma {:induction false} WordsOfSplit(text: string)
    ensures Words(text) == Concat(Map(Words, Split('\n', text)))
  {
    var lines := Split('\n', text);
    JoinOfSplit('\n', text);
    WordsOfLines('\n', lines);
    assert Map(Words, lines) == seq(|lines|, i requires 0 <= i < |lines| => Words(lines[i]));
  }

  lemma {:induction false} WordsOfRender(paragraphs: seq<seq<string>>)
    requires AreParagraphs(paragraphs)
    ensures Words(Render(paragraphs)) == Concat(paragraphs)
  {
    ParagraphsOfRender(paragraphs);
    WordsOfText(Render(paragraphs));
    GroupKeepsWords(Lines(Render(paragraphs)), []);
    assert [] + Concat(Map(Words, Lines(Render(paragraphs)))) == Concat(Map(Words, Lines(Render(paragraphs))));
  }

  /** Normalization keeps the words of a text, in their order. */
  lemma {:induction false} NormalizationKeepsWords(text: string)
    ensures Words(NormalizeText(text)) == Words(text)
  {
    GroupIsParagraphs(Lines(text), []);
    WordsOfRender(Paragraphs(text));
    WordsOfText(text);
    GroupKeepsWords(Lines(text), []);
    assert [] + Concat(Map(Words, Lines(text))) == Concat(Map(Words, Lines(text)));
  }

  /** Normal texts are exactly the rendered ones: words joined by single spaces, paragraphs by two newlines. */
  lemma {:induction false} NormalTextsAreRendered(text: string)
    ensures NormalizeText(text) == text <==> exists paragraphs :: AreParagraphs(paragraphs)
                                                                  && text == Render(paragraphs)
  {
    GroupIsParagraphs(Lines(text), []);
    if exists paragraphs :: AreParagraphs(paragraphs) && text == Render(paragraphs) {
      var paragraphs :| AreParagraphs(paragraphs) && text == Render(paragraphs);
      ParagraphsOfRender(paragraphs);
    }
  }

  /******* When the choice of line endings matters *******/

  // At this place a merged ending takes away the blank line between two paragraphs.
  predicate JoinsParagraphs(lines: seq<string>, endings: seq<Ending>, i: nat)
    requires |lines| == |endings| + 1
  {
    && i + 1 < |endings| && endings[i] == Cr && lines[i + 1] == "" && endings[i + 1] == Lf
    && Words(lines[i]) != [] && Words(lines[i + 2]) != []
  }

  ghost predicate JoinsSome(lines: seq<string>, endings: seq<Ending>)
    requires |lines| == |endings| + 1
  {
    exists i: nat :: JoinsParagraphs(lines, endings, i)
  }

  lemma {:induction false} JoinsSomeAfterOne(lines: seq<string>, endings: seq<Ending>)
    requires |lines| == |endings| + 1 && endings != []
    ensures JoinsSome(lines, endings) <==> JoinsParagraphs(lines, endings, 0) || JoinsSome(lines[1..], endings[1..])
  {
    if JoinsSome(lines, endings) {
      var i: nat :| JoinsParagraphs(lines, endings, i);
      if i > 0 {
        assert JoinsParagraphs(lines[1..], endings[1..], i - 1);
      }
    }
    if JoinsSome(lines[1..], endings[1..]) {
      var i: nat :| JoinsParagraphs(lines[1..], endings[1..], i);
      assert JoinsParagraphs(lines, endings, i + 1);
    }
  }

  lemma {:induction false} JoinsSomeAfterMerged(lines: seq<string>, endings: seq<Ending>)
    requires |lines| == |endings| + 1 && IsMerged(lines, endings)
    ensures JoinsSome(lines, endings)
            <==> (Words(lines[0]) != [] && Words(lines[2]) != []) || JoinsSome(lines[2..], endings[2..])
  {
    JoinsSomeAfterOne(lines, endings);
    JoinsSomeAfterOne(lines[1..], endings[1..]);
    assert lines[1..][1..] == lines[2..] && endings[1..][1..] == endings[2..];
    assert !JoinsParagraphs(lines[1..], endings[1..], 0);
  }

  // Without a join the paragraphs are the same, with one there are fewer.
  ghost predicate AreCompared(kept: seq<seq<string>>, all: seq<seq<string>>, joined: bool) {
    if joined then |kept| < |all| else kept == all
  }

  lemma {:induction false} SameNumber(lines: seq<string>, current: seq<string>, other: seq<string>)
    requires current != [] && other != []
    ensures |Group(lines, current)| == |Group(lines, other)|
    decreases |lines|
  {
    if lines != [] && Words(lines[0]) != [] {
      SameNumber(lines[1..], current + Words(lines[0]), other + Words(lines[0]));
    }
  }

  // A paragraph that goes on instead of ending before a line with words makes one paragraph less.
  lemma {:induction false} GoesOn(lines: seq<string>, current: seq<string>)
    requires lines != [] && current != []
    ensures Words(lines[0]) != [] ==> |Group(lines, current)| == |Group(lines, [])|
    ensures Words(lines[0]) == [] ==> Group(lines, current) == [current] + Group(lines, [])
  {
    if Words(lines[0]) != [] {
      SameNumber(lines[1..], current + Words(lines[0]), [] + Words(lines[0]));
    }
  }

  lemma {:induction false} CompareOne(line: string, kept: seq<string>, all: seq<string>, current: seq<string>,
                                      joined: bool)
    requires forall next :: AreCompared(Group(kept, next), Group(all, next), joined)
    ensures AreCompared(Group([line] + kept, current), Group([line] + all, current), joined)
  {
    assert ([line] + kept)[1..] == kept && ([line] + all)[1..] == all;
    assert AreCompared(Group(kept, current + Words(line)), Group(all, current + Words(line)), joined);
    assert AreCompared(Group(kept, []), Group(all, []), joined);
  }

  lemma {:induction false} CompareMerged(line: string, kept: seq<string>, all: seq<string>, current: seq<string>,
                                         joined: bool)
    requires kept != [] && all != [] && kept[0] == all[0]
    requires AreCompared(Group(kept, []), Group(all, []), joined)
    ensures AreCompared(Group([line] + kept, current), Group([line, ""] + all, current),
                        (Words(line) != [] && Words(all[0]) != []) || joined)
  {
    var next := current + Words(line);
    assert ([line] + kept)[1..] == kept;
    assert ([line, ""] + all)[1..] == [""] + all && ([""] + all)[1..] == all;
    assert Words("") == [];
    if next != [] {
      GoesOn(kept, next);
    }
  }

  lemma {:induction false} CompareLines(lines: seq<string>, endings: seq<Ending>, current: seq<string>)
    requires |lines| == |endings| + 1
    ensures AreCompared(Group(Kept(lines, endings), current), Group(lines, current), JoinsSome(lines, endings))
    decreases |endings|
  {
    if endings == [] {
      assert forall i: nat :: !JoinsParagraphs(lines, endings, i);
    } else if IsMerged(lines, endings) {
      CompareLines(lines[2..], endings[2..], []);
      JoinsSomeAfterMerged(lines, endings);
      CompareMerged(lines[0], Kept(lines[2..], endings[2..]), lines[2..], current, JoinsSome(lines[2..], endings[2..]));
      assert lines == [lines[0], ""] + lines[2..];
    } else {
      forall next
        ensures AreCompared(Group(Kept(lines[1..], endings[1..]), next), Group(lines[1..], next),
                            JoinsSome(lines[1..], endings[1..]))
      {
        CompareLines(lines[1..], endings[1..], next);
      }
      JoinsSomeAfterOne(lines, endings);
      CompareOne(lines[0], Kept(lines[1..], endings[1..]), lines[1..], current, JoinsSome(lines[1..], endings[1..]));
      assert lines == [lines[0]] + lines[1..];
    }
  }

  /** Main result on line endings: a text with any of them is normalized like the one with line feeds exactly when
      nowhere a lone carriage return and a lone line feed enclose the one empty line between two lines with words. */
  lemma {:induction false} LineEndingsDoNotMatterIff(lines: seq<string>, endings: seq<Ending>)
    requires |lines| == |endings| + 1 && forall line :: line in lines ==> IsLine(line)
    ensures NormalizeText(Weave(lines, endings)) == NormalizeText(Weave(lines, AllLf(|endings|)))
            <==> !JoinsSome(lines, endings)
  {
    LinesOfWeave(lines, endings);
    LinesOfWeave(lines, AllLf(|endings|));
    KeptOfLf(lines);
    CompareLines(lines, endings, []);
    NormalizedAlikeIff(Weave(lines, endings), Weave(lines, AllLf(|endings|)));
  }

  /** So one kind of line ending throughout is as good as any other. */
  lemma {:induction false} UniformEndingsDoNotMatter(lines: seq<string>, endings: seq<Ending>, ending: Ending)
    requires |lines| == |endings| + 1 && forall line :: line in lines ==> IsLine(line)
    requires forall i :: 0 <= i < |endings| ==> endings[i] == ending
    ensures NormalizeText(Weave(lines, endings)) == NormalizeText(Weave(lines, AllLf(|endings|)))
  {
    assert forall i: nat :: !JoinsParagraphs(lines, endings, i);
    LineEndingsDoNotMatterIff(lines, endings);
  }

  /** An input where the choice matters: the two lines become one paragraph. */
  lemma {:induction false} CrThenLfJoinsParagraphs()
    ensures Weave(["a", "", "b"], [Cr, Lf]) == "a\r\nb" && Weave(["a", "", "b"], AllLf(2)) == "a\n\nb"
    ensures NormalizeText("a\r\nb") != NormalizeText("a\n\nb")
  {
    var lines, endings := ["a", "", "b"], [Cr, Lf];
    WeaveThree(lines, endings);
    WeaveThree(lines, AllLf(2));
    assert "a" + "\r" + ("" + "\n" + "b") == "a\r\nb" && "a" + "\n" + ("" + "\n" + "b") == "a\n\nb";
    assert IsLine("a") && IsLine("") && IsLine("b");
    WordsOfWord("a");
    WordsOfWord("b");
    assert JoinsParagraphs(lines, endings, 0);
    LineEndingsDoNotMatterIff(lines, endings);
  }

  lemma {:induction false} WeaveThree(lines: seq<string>, endings: seq<Ending>)
    requires |lines| == 3 && |endings| == 2
    ensures Weave(lines, endings) == lines[0] + EndingText(endings[0]) + (lines[1] + EndingText(endings[1]) + lines[2])
  {
    assert lines[1..][1..] == [lines[2]] && endings[1..][1..] == [];
    assert Weave([lines[2]], []) == lines[2];
    assert Weave(lines[1..], endings[1..]) == lines[1] + EndingText(endings[1]) + lines[2];
  }

  /******* The loop *******/

  lemma {:induction false} RenderedLines(current: seq<string>)
    ensures Join(" ", Words(Join(" ", current))) == RenderParagraph(Concat(Map(Words, current)))
  {
    WordsOfLines(' ', current);
    assert Map(Words, current) == seq(|current|, i requires 0 <= i < |current| => Words(current[i]));
  }

  lemma {:induction false} ConcatAppend<T>(lists: seq<seq<T>>, last: seq<T>)
    ensures Concat(lists + [last]) == Concat(lists) + last
  {
    if lists == [] {
      assert lists + [last] == [last] && [last][1..] == [];
    } else {
      assert (lists + [last])[1..] == lists[1..] + [last];
      ConcatAppend(lists[1..], last);
    }
  }

  // What is rendered already, followed by what the rest of the lines will give, is the whole.
  ghost predicate IsRead(lines: seq<string>, k: nat, paragraphs: seq<string>, current: seq<string>)
    requires k <= |lines|
  {
    && (forall line :: line in current ==> Words(line) != [])
    && Map(RenderParagraph, Group(lines, [])) == paragraphs
        + Map(RenderParagraph, Group(lines[k..], Concat(Map(Words, current))))
  }

  lemma {:induction false} CurrentIsEmptyIff(current: seq<string>)
    requires forall line :: line in current ==> Words(line) != []
    ensures current == [] <==> Concat(Map(Words, current)) == []
  {
    if current != [] {
      assert current[0] in current;
    }
  }

  lemma {:induction false} ReadLine(lines: seq<string>, k: nat, paragraphs: seq<string>, current: seq<string>)
    requires k < |lines| && IsRead(lines, k, paragraphs, current) && Words(lines[k]) != []
    ensures IsRead(lines, k + 1, paragraphs, current + [lines[k]])
  {
    assert lines[k..][1..] == lines[k + 1..];
    assert Map(Words, current + [lines[k]]) == Map(Words, current) + [Words(lines[k])];
    ConcatAppend(Map(Words, current), Words(lines[k]));
  }

  lemma {:induction false} ReadBlank(lines: seq<string>, k: nat, paragraphs: seq<string>)
    requires k < |lines| && IsRead(lines, k, paragraphs, []) && Words(lines[k]) == []
    ensures IsRead(lines, k + 1, paragraphs, [])
  {
    assert lines[k..][1..] == lines[k + 1..];
    assert Map(Words, []) == [];
  }

  lemma {:induction false} ReadParagraphEnd(lines: seq<string>, k: nat, paragraphs: seq<string>, current: seq<string>)
    requires k < |lines| && IsRead(lines, k, paragraphs, current) && Words(lines[k]) == [] && current != []
    ensures IsRead(lines, k + 1, paragraphs + [Join(" ", Words(Join(" ", current)))], [])
  {
    var words := Concat(Map(Words, current));
    var rest := Group(lines[k + 1..], []);
    assert lines[k..][1..] == lines[k + 1..];
    CurrentIsEmptyIff(current);
    RenderedLines(current);
    assert Map(Words, []) == [];
    assert Group(lines[k..], words) == [words] + rest;
    MapCons(words, rest);
    assert paragraphs + ([RenderParagraph(words)] + Map(RenderParagraph, rest))
           == paragraphs + [RenderParagraph(words)] + Map(RenderParagraph, rest);
  }

  lemma {:induction false} MapCons(words: seq<string>, rest: seq<seq<string>>)
    ensures Map(RenderParagraph, [words] + rest) == [RenderParagraph(words)] + Map(RenderParagraph, rest)
  {
  }

  lemma {:induction false} ReadEnd(lines: seq<string>, paragraphs: seq<string>, current: seq<string>)
    requires IsRead(lines, |lines|, paragraphs, current)
    ensures Map(RenderParagraph, Group(lines, []))
            == if current == [] then paragraphs else paragraphs + [Join(" ", Words(Join(" ", current)))]
  {
    CurrentIsEmptyIff(current);
    RenderedLines(current);
    assert lines[|lines|..] == [];
  }

  /** The loop over the lines computes the normal text that the results above are about. */
  method NormalizeLines(text: string) returns (normalized: string)
    ensures normalized == NormalizeText(text)
  {
    var lines := Lines(text);
    var paragraphs: seq<string>, current: seq<string> := [], [];
    assert lines[0..] == lines && Map(Words, current) == [];
    for k := 0 to |lines|
      invariant IsRead(lines, k, paragraphs, current)
    {
      BlankHasNoWords(lines[k]);
      if Strip(lines[k]) != "" {
        ReadLine(lines, k, paragraphs, current);
        current := current + [lines[k]];
      } else {
        if current == [] {
          ReadBlank(lines, k, paragraphs);
        } else {
          ReadParagraphEnd(lines, k, paragraphs, current);
          paragraphs := paragraphs + [Join(" ", Words(Join(" ", current)))];
          current := [];
        }
      }
    }
    ReadEnd(lines, paragraphs, current);
    if current != [] {
      paragraphs := paragraphs + [Join(" ", Words(Join(" ", current)))];
    }
    normalized := Join("\n\n", paragraphs);
  }
}
