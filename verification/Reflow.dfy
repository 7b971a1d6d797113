/** Refilling the paragraphs of a text to lines of even width, first on lists of lines
    and then on text. */
module Reflow {

  // ----- Words and lines

  predicate Break(c: char) {
    || '\n' <= c <= '\r' || '\U{1c}' <= c <= '\U{1e}' || c == '\U{85}' || c == '\U{2028}' || c == '\U{2029}'
  }

  predicate Blank(c: char) {
    || Break(c) || c == '\t' || c == '\U{1f}' || c == ' ' || c == '\U{a0}' || c == '\U{1680}'
    || '\U{2000}' <= c <= '\U{200a}' || c == '\U{202f}' || c == '\U{205f}' || c == '\U{3000}'
  }

  predicate IsWord(w: string) {
    w != "" && forall c :: c in w ==> !Blank(c)
  }

  predicate AreWords(ws: seq<string>) {
    forall i :: 0 <= i < |ws| ==> IsWord(ws[i])
  }

  /** The length of the word at the start. */
  function WordLen(s: string): (n: nat)
    ensures n <= |s| && (forall i :: 0 <= i < n ==> !Blank(s[i])) && (n < |s| ==> Blank(s[n]))
  {
    if s == "" || Blank(s[0]) then 0 else 1 + WordLen(s[1..])
  }

  /** The words of a line: what lies between blanks. */
  function Words(s: string): (ws: seq<string>)
    ensures AreWords(ws)
    decreases |s|
  {
    if s == "" then []
    else if Blank(s[0]) then Words(s[1..])
    else [s[..WordLen(s)]] + Words(s[WordLen(s)..])
  }

  function Join(sep: char, parts: seq<string>): string {
    if parts == [] then "" else if |parts| == 1 then parts[0] else parts[0] + [sep] + Join(sep, parts[1..])
  }

  function JoinAll(ls: seq<seq<string>>): (r: seq<string>)
    ensures |r| == |ls| && forall i :: 0 <= i < |ls| ==> r[i] == Join(' ', ls[i])
  {
    seq(|ls|, i requires 0 <= i < |ls| => Join(' ', ls[i]))
  }

  function Flatten(ls: seq<seq<string>>): seq<string> {
    if ls == [] then [] else ls[0] + Flatten(ls[1..])
  }

  /** All words of the lines, in order. */
  function AllWords(lines: seq<string>): seq<string> {
    if lines == [] then [] else Words(lines[0]) + AllWords(lines[1..])
  }

  lemma WordLenIs(s: string, n: nat)
    requires n <= |s| && (forall i :: 0 <= i < n ==> !Blank(s[i])) && (n < |s| ==> Blank(s[n]))
    ensures WordLen(s) == n
  {}

  /** Splitting undoes joining. */
  lemma {:induction false} WordsOfJoin(ws: seq<string>)
    requires AreWords(ws)
    ensures Words(Join(' ', ws)) == ws
  {
    hide Blank, WordLen;
    BlankSpace();
    if ws != [] {
      var s, n := Join(' ', ws), |ws[0]|;
      assert forall i :: 0 <= i < n ==> s[i] == ws[0][i] && ws[0][i] in ws[0];
      WordLenIs(s, n);
      assert s[..n] == ws[0];
      WordsOfJoin(ws[1..]);
      if |ws| == 1 {
        assert s[n..] == "" && ws == [ws[0]];
      } else {
        assert s[n..] == [' '] + Join(' ', ws[1..]);
        assert s[n..][1..] == Join(' ', ws[1..]);
        assert ws == [ws[0]] + ws[1..];
      }
    }
  }

  lemma BlankSpace()
    ensures Blank(' ') && !Break(' ') && Break('\n')
  {}

  lemma {:induction false} AllWordsAppend(a: seq<string>, b: seq<string>)
    ensures AllWords(a + b) == AllWords(a) + AllWords(b)
  {
    if a == [] {
      assert a + b == b;
    } else {
      AllWordsAppend(a[1..], b);
      assert (a + b)[1..] == a[1..] + b;
      assert Words(a[0]) + (AllWords(a[1..]) + AllWords(b)) == Words(a[0]) + AllWords(a[1..]) + AllWords(b);
    }
  }

  lemma {:induction false} AllWordsOfJoin(ls: seq<seq<string>>)
    requires forall i :: 0 <= i < |ls| ==> AreWords(ls[i])
    ensures AllWords(JoinAll(ls)) == Flatten(ls)
  {
    if ls != [] {
      AllWordsOfJoin(ls[1..]);
      WordsOfJoin(ls[0]);
      assert JoinAll(ls)[1..] == JoinAll(ls[1..]);
    }
  }

  // ----- Filling lines with words

  /** The length of the line, with spaces between the words. */
  function Length(l: seq<string>): int {
    if l == [] then -1 else |l[0]| + 1 + Length(l[1..])
  }

  lemma {:induction false} LengthAppend(a: seq<string>, b: seq<string>)
    ensures Length(a + b) == Length(a) + Length(b) + 1
  {
    if a == [] {
      assert a + b == b;
    } else {
      LengthAppend(a[1..], b);
      assert (a + b)[1..] == a[1..] + b;
    }
  }

  lemma {:induction false} LengthIsLength(l: seq<string>)
    ensures Length(l) == if l == [] then -1 else |Join(' ', l)|
  {
    if l != [] {
      LengthIsLength(l[1..]);
      if |l| == 1 { assert l[1..] == []; }
    }
  }

  /** Put each word on the line if it fits or the line is empty, else on a new one. */
  function Fill(line: seq<string>, words: seq<string>, width: int): seq<seq<string>>
    decreases |words|
  {
    if words == [] then [line]
    else if line == [] || Length(line + [words[0]]) <= width then Fill(line + [words[0]], words[1..], width)
    else [line] + Fill([words[0]], words[1..], width)
  }

  /** The line fits, or is a single word. */
  predicate Fits(l: seq<string>, width: int) {
    l != [] && (|l| == 1 || Length(l) <= width)
  }

  /** Lines that fit, none of which could take the first word of the next one. */
  ghost predicate Greedy(ls: seq<seq<string>>, width: int) {
    && (forall i :: 0 <= i < |ls| ==> Fits(ls[i], width))
    && (forall i :: 0 <= i < |ls| - 1 ==> Length(ls[i] + [ls[i + 1][0]]) > width)
  }

  lemma {:induction false} FillIsGreedy(line: seq<string>, words: seq<string>, width: int)
    requires line != [] ==> Fits(line, width)
    requires line + words != []
    ensures var ls := Fill(line, words, width);
            && Greedy(ls, width) && Flatten(ls) == line + words
            && ls != [] && line <= ls[0]
    decreases |words|
  {
    hide Length;
    var ls := Fill(line, words, width);
    if words == [] {
      assert Flatten(ls[1..]) == [] && line + words == line;
    } else if line == [] || Length(line + [words[0]]) <= width {
      FillIsGreedy(line + [words[0]], words[1..], width);
      assert line + [words[0]] + words[1..] == line + words;
    } else {
      var next := Fill([words[0]], words[1..], width);
      FillIsGreedy([words[0]], words[1..], width);
      assert [words[0]] + words[1..] == words;
      assert ls[1..] == next;
      forall i | 0 <= i < |ls| - 1 ensures Length(ls[i] + [ls[i + 1][0]]) > width {
        assert i > 0 ==> Length(next[i - 1] + [next[i - 1 + 1][0]]) > width;
      }
    }
  }

  lemma {:induction false} LengthOfPart(a: seq<string>, b: seq<string>)
    ensures Length(a) <= Length(a + b)
  {
    LengthAppend(a, b);
    LengthAtLeast(b);
  }

  lemma {:induction false} LengthAtLeast(l: seq<string>)
    ensures Length(l) >= -1
  {
    if l != [] { LengthAtLeast(l[1..]); }
  }

  /** Filling takes the words of a line that fits one by one. */
  lemma {:induction false} FillTakesLine(line: seq<string>, more: seq<string>, words: seq<string>, width: int)
    requires Fits(line + more, width)
    ensures Fill(line, more + words, width) == Fill(line + more, words, width)
    decreases |more|
  {
    if more == [] {
      assert line + more == line && more + words == words;
    } else {
      var next := line + [more[0]];
      assert next + more[1..] == line + more;
      LengthOfPart(next, more[1..]);
      FillTakesLine(next, more[1..], words, width);
      assert (more + words)[0] == more[0] && (more + words)[1..] == more[1..] + words;
    }
  }

  /** There is only one greedy way to divide the words into lines. */
  lemma {:induction false} GreedyIsFill(ls: seq<seq<string>>, width: int)
    requires ls != [] && Greedy(ls, width)
    ensures Fill([], Flatten(ls), width) == ls
  {
    var rest := Flatten(ls[1..]);
    assert [] + ls[0] == ls[0];
    FillTakesLine([], ls[0], rest, width);
    if |ls| == 1 {
      assert ls == [ls[0]];
    } else {
      GreedyTail(ls, 1, width);
      GreedyIsFill(ls[1..], width);
      assert rest[0] == ls[1][0];
      assert [] + [rest[0]] == [rest[0]];
      assert ls == [ls[0]] + ls[1..];
    }
  }

  lemma GreedyTail(ls: seq<seq<string>>, k: nat, width: int)
    requires k <= |ls| && Greedy(ls, width)
    ensures Greedy(ls[k..], width) && Greedy(ls[..k], width)
  {
    hide Length;
    forall i | 0 <= i < |ls[k..]| - 1 ensures Length(ls[k..][i] + [ls[k..][i + 1][0]]) > width {
      assert ls[k..][i] == ls[k + i] && ls[k..][i + 1] == ls[k + i + 1];
    }
  }

  // ----- Reflowing lines

  predicate EndsInTwoSpaces(l: string) {
    |l| >= 2 && l[|l| - 1] == ' ' && l[|l| - 2] == ' '
  }

  predicate Continues(prose: string -> bool, l: string) {
    prose(l) && !EndsInTwoSpaces(l)
  }

  predicate Starts(prose: string -> bool, l: string, width: int) {
    Continues(prose, l) && |l| > width - 10
  }

  /** The number of lines at the front that go on with a paragraph. */
  function Continued(prose: string -> bool, lines: seq<string>): (k: nat)
    ensures k <= |lines|
    ensures forall i :: 0 <= i < k ==> Continues(prose, lines[i])
    ensures k < |lines| ==> !Continues(prose, lines[k])
  {
    if lines == [] || !Continues(prose, lines[0]) then 0 else 1 + Continued(prose, lines[1..])
  }

  function Refilled(words: seq<string>, width: int): seq<string> {
    JoinAll(Fill([], words, width))
  }

  function Reflowed(prose: string -> bool, lines: seq<string>, width: int): seq<string>
    decreases |lines|
  {
    if lines == [] then []
    else if Starts(prose, lines[0], width) then
      var k := 1 + Continued(prose, lines[1..]);
      Refilled(AllWords(lines[..k]), width) + Reflowed(prose, lines[k..], width)
    else [lines[0]] + Reflowed(prose, lines[1..], width)
  }

  /** Which lines are refilled: a paragraph starts with a line of prose that is longer
      than the width less 10, and takes the lines of prose after it, where none ends in
      two spaces.  What comes before it is kept. */
  lemma {:induction false} ParagraphIsRefilled(prose: string -> bool, kept: seq<string>, para: seq<string>, rest: seq<string>,
                                               width: int)
    requires forall i :: 0 <= i < |kept| ==>
      !prose(kept[i]) || |kept[i]| <= width - 10 || (|kept[i]| >= 2 && kept[i][|kept[i]| - 2..] == "  ")
    requires para != [] && |para[0]| > width - 10
    requires forall i :: 0 <= i < |para| ==> prose(para[i]) && !(|para[i]| >= 2 && para[i][|para[i]| - 2..] == "  ")
    requires rest != [] ==> !prose(rest[0]) || (|rest[0]| >= 2 && rest[0][|rest[0]| - 2..] == "  ")
    ensures Reflowed(prose, kept + para + rest, width) ==
      kept + Refilled(AllWords(para), width) + Reflowed(prose, rest, width)
  {
    hide AllWords, Refilled, Starts, Reflowed;
    var lines := kept + para + rest;
    if kept == [] {
      assert lines == para + rest;
      ParagraphFirst(prose, para, rest, width);
      assert [] + Refilled(AllWords(para), width) == Refilled(AllWords(para), width);
    } else {
      assert lines[0] == kept[0] && lines[1..] == kept[1..] + para + rest;
      StartMeaning(prose, kept[0], width);
      ParagraphIsRefilled(prose, kept[1..], para, rest, width);
      KeptFirst(prose, lines, width);
      assert kept == [kept[0]] + kept[1..];
    }
  }

  lemma ParagraphFirst(prose: string -> bool, para: seq<string>, rest: seq<string>, width: int)
    requires para != [] && |para[0]| > width - 10
    requires forall i :: 0 <= i < |para| ==> prose(para[i]) && !(|para[i]| >= 2 && para[i][|para[i]| - 2..] == "  ")
    requires rest != [] ==> !prose(rest[0]) || (|rest[0]| >= 2 && rest[0][|rest[0]| - 2..] == "  ")
    ensures Reflowed(prose, para + rest, width) == Refilled(AllWords(para), width) + Reflowed(prose, rest, width)
  {
    hide AllWords, Refilled, Starts, Continues;
    var lines := para + rest;
    assert lines[..|para|] == para && lines[|para|..] == rest;
    assert lines[1..] == para[1..] + rest && lines[0] == para[0];
    StartMeaning(prose, para[0], width);
    assert forall i :: 0 <= i < |para[1..]| ==> para[1..][i] == para[i + 1];
    ContinuesThrough(prose, para[1..], rest);
  }

  lemma KeptFirst(prose: string -> bool, lines: seq<string>, width: int)
    requires lines != [] && !Starts(prose, lines[0], width)
    ensures Reflowed(prose, lines, width) == [lines[0]] + Reflowed(prose, lines[1..], width)
  {}

  lemma StartMeaning(prose: string -> bool, l: string, width: int)
    ensures Continues(prose, l) <==> prose(l) && !(|l| >= 2 && l[|l| - 2..] == "  ")
    ensures Starts(prose, l, width) <==> Continues(prose, l) && |l| > width - 10
  {
    if |l| >= 2 {
      var end := l[|l| - 2..];
      assert end[0] == l[|l| - 2] && end[1] == l[|l| - 1] && |end| == 2;
      assert end == "  " <==> end[0] == ' ' && end[1] == ' ';
    }
  }

  lemma {:induction false} ContinuesThrough(prose: string -> bool, more: seq<string>, rest: seq<string>)
    requires forall i :: 0 <= i < |more| ==> prose(more[i]) && !(|more[i]| >= 2 && more[i][|more[i]| - 2..] == "  ")
    requires rest != [] ==> !prose(rest[0]) || (|rest[0]| >= 2 && rest[0][|rest[0]| - 2..] == "  ")
    ensures Continued(prose, more + rest) == |more|
  {
    hide Continues, Starts;
    if more == [] {
      assert more + rest == rest;
      if rest != [] { StartMeaning(prose, rest[0], 0); }
    } else {
      assert (more + rest)[0] == more[0] && (more + rest)[1..] == more[1..] + rest;
      StartMeaning(prose, more[0], 0);
      ContinuesThrough(prose, more[1..], rest);
    }
  }

  /** No paragraph goes on into these lines. */
  predicate Barrier(prose: string -> bool, lines: seq<string>) {
    lines == [] || !Continues(prose, lines[0])
  }

  /** Refilling lines that are filled already, up to a barrier, changes nothing. */
  lemma {:induction false} RefilledIsStable(prose: string -> bool, ls: seq<seq<string>>, rest: seq<string>, width: int)
    requires Greedy(ls, width) && (forall i :: 0 <= i < |ls| ==> AreWords(ls[i])) && Barrier(prose, rest)
    ensures Reflowed(prose, JoinAll(ls) + rest, width) == JoinAll(ls) + Reflowed(prose, rest, width)
    decreases |ls|
  {
    hide Starts, Continues, Greedy, Fill, Join, Flatten, AllWords, Reflowed, ParagraphSize, Refilled, Barrier;
    var text := JoinAll(ls) + rest;
    if ls == [] {
      assert text == rest && JoinAll(ls) == [];
    } else {
      var k := ParagraphSize(prose, text, width);
      ParagraphStopsAtBarrier(prose, JoinAll(ls), rest, width);
      GreedyTail(ls, k, width);
      RefilledIsStable(prose, ls[k..], rest, width);
      CutAt(ls, rest, k);
      ReflowedStep(prose, text, width);
      RefillPart(ls[..k], width);
    }
  }

  /** The number of lines taken from the front at once. */
  function ParagraphSize(prose: string -> bool, lines: seq<string>, width: int): (k: nat)
    requires lines != []
    ensures 1 <= k <= |lines|
  {
    if Starts(prose, lines[0], width) then 1 + Continued(prose, lines[1..]) else 1
  }

  lemma ParagraphStopsAtBarrier(prose: string -> bool, lines: seq<string>, rest: seq<string>, width: int)
    requires lines != [] && Barrier(prose, rest)
    ensures ParagraphSize(prose, lines + rest, width) <= |lines|
  {
    var text := lines + rest;
    if rest != [] {
      assert text[1..][|lines| - 1] == rest[0];
    }
  }

  lemma ReflowedStep(prose: string -> bool, lines: seq<string>, width: int)
    requires lines != []
    ensures var k := ParagraphSize(prose, lines, width);
            Reflowed(prose, lines, width) ==
              (if Starts(prose, lines[0], width) then Refilled(AllWords(lines[..k]), width) else lines[..k])
              + Reflowed(prose, lines[k..], width)
  {
    hide Starts;
    assert lines[..1] == [lines[0]];
  }

  lemma CutAt(ls: seq<seq<string>>, rest: seq<string>, k: nat)
    requires k <= |ls|
    ensures (JoinAll(ls) + rest)[..k] == JoinAll(ls[..k])
    ensures (JoinAll(ls) + rest)[k..] == JoinAll(ls[k..]) + rest
  {}

  lemma RefillPart(ls: seq<seq<string>>, width: int)
    requires ls != [] && Greedy(ls, width) && forall i :: 0 <= i < |ls| ==> AreWords(ls[i])
    ensures Refilled(AllWords(JoinAll(ls)), width) == JoinAll(ls)
  {
    AllWordsOfJoin(ls);
    GreedyIsFill(ls, width);
  }

  lemma {:induction false} AllWordsAreWords(lines: seq<string>)
    ensures AreWords(AllWords(lines))
  {
    if lines != [] { AllWordsAreWords(lines[1..]); }
  }

  lemma {:induction false} PartsAreWords(ls: seq<seq<string>>)
    requires AreWords(Flatten(ls))
    ensures forall i :: 0 <= i < |ls| ==> AreWords(ls[i])
  {
    if ls != [] {
      var a, b := ls[0], Flatten(ls[1..]);
      forall i | 0 <= i < |a| ensures IsWord(a[i]) { assert (a + b)[i] == a[i]; }
      forall i | 0 <= i < |b| ensures IsWord(b[i]) { assert (a + b)[|a| + i] == b[i]; }
      PartsAreWords(ls[1..]);
    }
  }

  /** A paragraph stays as it is when it is reflowed again. */
  lemma ParagraphIsStable(prose: string -> bool, words: seq<string>, rest: seq<string>, width: int)
    requires AreWords(words) && Barrier(prose, rest)
    ensures Reflowed(prose, Refilled(words, width) + rest, width) == Refilled(words, width) + Reflowed(prose, rest, width)
  {
    var ls := Fill([], words, width);
    if words == [] {
      var text := Refilled(words, width) + rest;
      assert JoinAll([[]]) == [""];
      assert text == [""] + rest && text[1..] == rest && text[..1] == [""];
      assert AllWords([""]) == [];
    } else {
      assert [] + words == words;
      FillIsGreedy([], words, width);
      PartsAreWords(ls);
      RefilledIsStable(prose, ls, rest, width);
    }
  }

  /** Reflowing is stable: doing it again changes nothing, whichever lines count as
      prose. */
  lemma {:induction false} ReflowIsStable(prose: string -> bool, lines: seq<string>, width: int)
    ensures Reflowed(prose, Reflowed(prose, lines, width), width) == Reflowed(prose, lines, width)
    decreases |lines|
  {
    if lines != [] {
      if Starts(prose, lines[0], width) {
        var k := 1 + Continued(prose, lines[1..]);
        var words, rest := AllWords(lines[..k]), Reflowed(prose, lines[k..], width);
        AllWordsAreWords(lines[..k]);
        ReflowIsStable(prose, lines[k..], width);
        ParagraphIsStable(prose, words, rest, width);
      } else {
        ReflowIsStable(prose, lines[1..], width);
        assert Reflowed(prose, lines, width)[1..] == Reflowed(prose, lines[1..], width);
      }
    }
  }

  /** No word is lost, added or moved. */
  lemma {:induction false} ReflowKeepsWords(prose: string -> bool, lines: seq<string>, width: int)
    ensures AllWords(Reflowed(prose, lines, width)) == AllWords(lines)
    decreases |lines|
  {
    if lines != [] {
      if Starts(prose, lines[0], width) {
        var k := 1 + Continued(prose, lines[1..]);
        var words, rest := AllWords(lines[..k]), Reflowed(prose, lines[k..], width);
        ReflowKeepsWords(prose, lines[k..], width);
        RefillKeepsWords(words, lines[..k], width);
        AllWordsAppend(Refilled(words, width), rest);
        AllWordsAppend(lines[..k], lines[k..]);
        assert lines[..k] + lines[k..] == lines;
      } else {
        ReflowKeepsWords(prose, lines[1..], width);
        assert Reflowed(prose, lines, width)[1..] == Reflowed(prose, lines[1..], width);
      }
    }
  }

  lemma RefillKeepsWords(words: seq<string>, lines: seq<string>, width: int)
    requires words == AllWords(lines)
    ensures AllWords(Refilled(words, width)) == words
  {
    AllWordsAreWords(lines);
    var ls := Fill([], words, width);
    if words == [] {
      assert JoinAll([[]]) == [""];
      assert AllWords([""]) == [];
    } else {
      assert [] + words == words;
      FillIsGreedy([], words, width);
      PartsAreWords(ls);
      AllWordsOfJoin(ls);
    }
  }

  /** Which of the lines that come out belong to refilled paragraphs. */
  function Refills(prose: string -> bool, lines: seq<string>, width: int): seq<bool>
    decreases |lines|
  {
    if lines == [] then []
    else if Starts(prose, lines[0], width) then
      var k := 1 + Continued(prose, lines[1..]);
      seq(|Refilled(AllWords(lines[..k]), width)|, _ => true) + Refills(prose, lines[k..], width)
    else [false] + Refills(prose, lines[1..], width)
  }

  /** A line of a refilled paragraph is short enough or a single word; every other
      line is one that starts no paragraph and was kept. */
  lemma {:induction false} ReflowedWidth(prose: string -> bool, lines: seq<string>, width: int, i: nat)
    requires i < |Reflowed(prose, lines, width)|
    ensures |Refills(prose, lines, width)| == |Reflowed(prose, lines, width)|
    ensures var l := Reflowed(prose, lines, width)[i];
      if Refills(prose, lines, width)[i] then |l| <= width || l == "" || IsWord(l)
      else l in lines && !Starts(prose, l, width)
    decreases |lines|
  {
    RefillsEach(prose, lines, width);
    if Starts(prose, lines[0], width) {
      var k := 1 + Continued(prose, lines[1..]);
      var part := Refilled(AllWords(lines[..k]), width);
      if i < |part| {
        RefilledWidth(AllWords(lines[..k]), lines[..k], width, part[i]);
      } else {
        ReflowedWidth(prose, lines[k..], width, i - |part|);
      }
    } else if i > 0 {
      ReflowedWidth(prose, lines[1..], width, i - 1);
    }
  }

  lemma {:induction false} RefillsEach(prose: string -> bool, lines: seq<string>, width: int)
    ensures |Refills(prose, lines, width)| == |Reflowed(prose, lines, width)|
    decreases |lines|
  {
    hide Starts, Continued, Refilled, AllWords;
    if lines != [] {
      if Starts(prose, lines[0], width) {
        RefillsEach(prose, lines[1 + Continued(prose, lines[1..])..], width);
      } else {
        RefillsEach(prose, lines[1..], width);
      }
    }
  }

  lemma RefilledWidth(words: seq<string>, lines: seq<string>, width: int, l: string)
    requires words == AllWords(lines) && l in Refilled(words, width)
    ensures |l| <= width || l == "" || IsWord(l)
  {
    AllWordsAreWords(lines);
    var ls := Fill([], words, width);
    if words != [] {
      assert [] + words == words;
      FillIsGreedy([], words, width);
      PartsAreWords(ls);
      var i :| 0 <= i < |ls| && l == Join(' ', ls[i]);
      LengthIsLength(ls[i]);
    }
  }

  // ----- Reflowing a text

  /** A letter, digit or underscore with nothing but other visible characters before it. */
  predicate Prose(l: string) {
    exists i :: 0 <= i < |l| && WordChar(l[i]) && forall j :: 0 <= j < i ==> l[j] != ' ' && !('\t' <= l[j] <= '\r')
  }

  /** What counts as prose: quoted and indented lines do not, lines of words do, after
      marks without blanks too. */
  lemma ProseMeaning(mark: string, c: char, more: string)
    requires forall i :: 0 <= i < |mark| ==> '!' <= mark[i] <= '/' || ':' <= mark[i] <= '@'
    ensures 'a' <= c <= 'z' || 'A' <= c <= 'Z' || '0' <= c <= '9' || c == '_' ==> Prose(mark + [c] + more)
    ensures c == ' ' || c == '\t' ==> !Prose(mark + [c] + more)
    ensures !Prose(mark)
  {
    var l := mark + [c] + more;
    assert l[|mark|] == c && forall i :: 0 <= i < |mark| ==> l[i] == mark[i];
  }

  predicate WordChar(c: char) {
    'a' <= c <= 'z' || 'A' <= c <= 'Z' || '0' <= c <= '9' || c == '_'
  }

  function LineLen(t: string): (n: nat)
    ensures n <= |t| && (forall i :: 0 <= i < n ==> !Break(t[i])) && (n < |t| ==> Break(t[n]))
  {
    if t == "" || Break(t[0]) then 0 else 1 + LineLen(t[1..])
  }

  function BreakLen(t: string): (n: nat)
    requires t != ""
    ensures 1 <= n <= |t|
  {
    if |t| >= 2 && t[0] == '\r' && t[1] == '\n' then 2 else 1
  }

  predicate NoBreaks(lines: seq<string>) {
    forall l, c :: l in lines && c in l ==> !Break(c)
  }

  function SplitLines(t: string): (lines: seq<string>)
    ensures NoBreaks(lines)
    decreases |t|
  {
    if t == "" then []
    else
      var n := LineLen(t);
      if n == |t| then [t] else [t[..n]] + SplitLines(t[n + BreakLen(t[n..])..])
  }

  function ReflowedText(text: string, width: int): string {
    Join('\n', Reflowed(Prose, SplitLines(text), width))
  }

  method ReflowText(text: string, quoting: bool, targetWidth: int) returns (out: string)
    ensures out == ReflowedText(text, if quoting then targetWidth - 2 else targetWidth)
  {
    hide *;
    var width := if quoting then targetWidth - 2 else targetWidth;
    var inlines, outlines := SplitLines(text), [];
    ghost var all := inlines;
    assert [] + Reflowed(Prose, all, width) == Reflowed(Prose, all, width);
    while inlines != []
      invariant outlines + Reflowed(Prose, inlines, width) == Reflowed(Prose, all, width)
      decreases |inlines|
    {
      ghost var before, kept := inlines, outlines;
      var thisline := inlines[0];
      inlines := inlines[1..];
      if Starts(Prose, thisline, width) {
        var para := Words(thisline);
        ghost var k := 1;
        ParagraphStart(before);
        while inlines != [] && Continues(Prose, inlines[0])
          invariant 1 <= k <= |before| && inlines == before[k..] && para == AllWords(before[..k])
          invariant forall i :: 1 <= i < k ==> Continues(Prose, before[i])
          decreases |inlines|
        {
          ParagraphMore(before, k);
          para := para + Words(inlines[0]);
          inlines := inlines[1..];
          k := k + 1;
        }
        var paralines := FillLines(para, width);
        ParagraphEnd(before, k, width);
        outlines := outlines + JoinAll(paralines);
        assert kept + (Refilled(para, width) + Reflowed(Prose, inlines, width))
            == outlines + Reflowed(Prose, inlines, width);
      } else {
        KeptLine(before, width);
        outlines := outlines + [thisline];
        assert kept + ([thisline] + Reflowed(Prose, inlines, width)) == outlines + Reflowed(Prose, inlines, width);
      }
    }
    NothingLeft(outlines, width, text);
    out := Join('\n', outlines);
  }

  /** Put the words on lines, one after the other. */
  method FillLines(para: seq<string>, width: int) returns (paralines: seq<seq<string>>)
    ensures paralines == Fill([], para, width)
    ensures JoinAll(paralines) == Refilled(para, width)
  {
    hide Length, Fill, JoinAll;
    paralines := [[]];
    var i := 0;
    assert para[0..] == para;
    while i < |para|
      invariant 0 <= i <= |para| && paralines != []
      invariant paralines[..|paralines| - 1] + Fill(paralines[|paralines| - 1], para[i..], width) == Fill([], para, width)
    {
      var last, word := |paralines| - 1, para[i];
      FillStep(paralines[..last], paralines[last], para, i, width);
      if Length(paralines[last] + [word]) <= width {
        paralines := paralines[last := paralines[last] + [word]];
      } else if |paralines[last]| == 0 {
        paralines := paralines[last := paralines[last] + [word]];
      } else {
        assert paralines == paralines[..last] + [paralines[last]];
        paralines := paralines + [[word]];
      }
      i := i + 1;
    }
    FillEnd(paralines[|paralines| - 1], width);
    assert para[i..] == [];
  }

  lemma FillEnd(line: seq<string>, width: int)
    ensures Fill(line, [], width) == [line]
  {}

  /** One round of the filling loop, after the lines in front. */
  lemma FillStep(front: seq<seq<string>>, line: seq<string>, para: seq<string>, i: nat, width: int)
    requires i < |para|
    ensures front + Fill(line, para[i..], width) ==
      if line == [] || Length(line + [para[i]]) <= width
      then front + Fill(line + [para[i]], para[i + 1..], width)
      else front + [line] + Fill([para[i]], para[i + 1..], width)
  {
    assert para[i..][1..] == para[i + 1..];
  }

  lemma NothingLeft(outlines: seq<string>, width: int, text: string)
    ensures outlines + Reflowed(Prose, [], width) == outlines
    ensures ReflowedText(text, width) == Join('\n', Reflowed(Prose, SplitLines(text), width))
  {}

  lemma ParagraphStart(lines: seq<string>)
    requires lines != []
    ensures AllWords(lines[..1]) == Words(lines[0])
  {
    assert lines[..1] == [lines[0]] && AllWords([]) == [];
  }

  lemma ParagraphMore(lines: seq<string>, k: nat)
    requires k < |lines|
    ensures AllWords(lines[..k + 1]) == AllWords(lines[..k]) + Words(lines[k])
    ensures lines[k..][0] == lines[k] && lines[k..][1..] == lines[k + 1..]
  {
    AllWordsAppend(lines[..k], [lines[k]]);
    ParagraphStart([lines[k]]);
    assert [lines[k]][..1] == [lines[k]];
    assert lines[..k + 1] == lines[..k] + [lines[k]];
  }

  lemma ContinuedIs(prose: string -> bool, lines: seq<string>, k: nat)
    requires k <= |lines| && (forall i :: 0 <= i < k ==> Continues(prose, lines[i]))
    requires k < |lines| ==> !Continues(prose, lines[k])
    ensures Continued(prose, lines) == k
  {}

  lemma ParagraphEnd(lines: seq<string>, k: nat, width: int)
    requires 1 <= k <= |lines| && Starts(Prose, lines[0], width)
    requires forall i :: 1 <= i < k ==> Continues(Prose, lines[i])
    requires k < |lines| ==> !Continues(Prose, lines[k..][0])
    ensures Reflowed(Prose, lines, width) == Refilled(AllWords(lines[..k]), width) + Reflowed(Prose, lines[k..], width)
  {
    hide Continues;
    ContinuedIs(Prose, lines[1..], k - 1);
    ReflowedStep(Prose, lines, width);
  }

  lemma KeptLine(lines: seq<string>, width: int)
    requires lines != [] && !Starts(Prose, lines[0], width)
    ensures Reflowed(Prose, lines, width) == [lines[0]] + Reflowed(Prose, lines[1..], width)
  {
    ReflowedStep(Prose, lines, width);
    assert lines[..1] == [lines[0]];
  }

  // ----- When a text is stable

  predicate EndsEmpty(lines: seq<string>) {
    lines != [] && lines[|lines| - 1] == ""
  }

  lemma LineLenIs(t: string, n: nat)
    requires n <= |t| && (forall i :: 0 <= i < n ==> !Break(t[i])) && (n < |t| ==> Break(t[n]))
    ensures LineLen(t) == n
  {}

  lemma SplitStep(l: string, more: string)
    requires forall c :: c in l ==> !Break(c)
    ensures SplitLines(l + ['\n'] + more) == [l] + SplitLines(more)
    ensures SplitLines(l) == if l == "" then [] else [l]
  {
    var t := l + ['\n'] + more;
    assert forall i :: 0 <= i < |l| ==> t[i] == l[i] && l[i] in l;
    BlankSpace();
    hide Break;
    LineLenIs(t, |l|);
    LineLenIs(l, |l|);
    assert t[..|l|] == l && t[|l|..] == ['\n'] + more;
    assert t[|l| + 1..] == more;
  }

  lemma {:induction false} SplitOfJoin(lines: seq<string>)
    requires NoBreaks(lines)
    ensures SplitLines(Join('\n', lines)) == if EndsEmpty(lines) then lines[..|lines| - 1] else lines
  {
    hide Break, SplitLines;
    if lines == [] {
      SplitStep("", "");
    } else if |lines| == 1 {
      SplitStep(lines[0], "");
      assert lines == [lines[0]] && lines[..0] == [];
    } else {
      SplitOfJoin(lines[1..]);
      SplitStep(lines[0], Join('\n', lines[1..]));
      assert lines == [lines[0]] + lines[1..];
      assert lines[..|lines| - 1] == [lines[0]] + lines[1..][..|lines| - 2];
    }
  }

  lemma {:induction false} JoinHasNoBreaks(ws: seq<string>)
    requires AreWords(ws)
    ensures forall c :: c in Join(' ', ws) ==> !Break(c)
    ensures ws != [] ==> Join(' ', ws) != ""
  {
    hide Break;
    BlankSpace();
    if ws != [] {
      assert IsWord(ws[0]);
      JoinHasNoBreaks(ws[1..]);
      assert forall c :: c in ws[0] ==> !Break(c);
    }
  }

  /** A refilled paragraph has no line breaks in its lines, and no empty line at its
      end unless it has no words. */
  lemma RefilledLines(words: seq<string>, width: int)
    requires AreWords(words)
    ensures NoBreaks(Refilled(words, width)) && Refilled(words, width) != []
    ensures words != [] ==> !EndsEmpty(Refilled(words, width))
  {
    hide Break, Length;
    var ls := Fill([], words, width);
    if words == [] {
      assert JoinAll([[]]) == [""];
    } else {
      assert [] + words == words;
      FillIsGreedy([], words, width);
      PartsAreWords(ls);
      forall i | 0 <= i < |ls| ensures ls[i] != [] && Join(' ', ls[i]) != ""
                               ensures forall c :: c in Join(' ', ls[i]) ==> !Break(c)
      {
        assert Fits(ls[i], width);
        JoinHasNoBreaks(ls[i]);
      }
    }
  }

  lemma {:induction false} ReflowedHasNoBreaks(prose: string -> bool, lines: seq<string>, width: int)
    requires NoBreaks(lines)
    ensures NoBreaks(Reflowed(prose, lines, width))
    decreases |lines|
  {
    hide Starts, Break;
    if lines != [] {
      var k := ParagraphSize(prose, lines, width);
      ReflowedStep(prose, lines, width);
      AllWordsAreWords(lines[..k]);
      RefilledLines(AllWords(lines[..k]), width);
      ReflowedHasNoBreaks(prose, lines[k..], width);
    }
  }

  lemma ProseHasWords(l: string)
    requires Prose(l)
    ensures Words(l) != []
  {
    var i :| 0 <= i < |l| && WordChar(l[i]);
    NotAllBlank(l, i);
  }

  lemma {:induction false} NotAllBlank(l: string, i: nat)
    requires i < |l| && !Blank(l[i])
    ensures Words(l) != []
    decreases |l|
  {
    hide Blank;
    if Blank(l[0]) { NotAllBlank(l[1..], i - 1); }
  }

  /** An empty last line stays the last line, and the others are reflowed as if it
      were not there. */
  lemma {:induction false} EmptyLineStaysLast(lines: seq<string>, width: int)
    requires EndsEmpty(lines)
    ensures Reflowed(Prose, lines, width) == Reflowed(Prose, lines[..|lines| - 1], width) + [""]
    decreases |lines|
  {
    hide Prose, Reflowed, Starts, Refilled, AllWords, ParagraphSize;
    EmptyIsNoProse();
    var front := lines[..|lines| - 1];
    if front == [] {
      assert lines == [""];
      EmptyLineAlone(width);
    } else {
      var k := ParagraphSize(Prose, lines, width);
      ReflowedStep(Prose, lines, width);
      SameParagraph(front, width);
      assert lines == front + [""];
      ReflowedStep(Prose, front, width);
      assert lines[..k] == front[..k];
      assert lines[k..][..|lines[k..]| - 1] == front[k..];
      EmptyLineStaysLast(lines[k..], width);
    }
  }

  lemma EmptyLineAlone(width: int)
    ensures Reflowed(Prose, [""], width) == Reflowed(Prose, [], width) + [""]
  {
    EmptyIsNoProse();
    assert [""][1..] == [];
  }

  lemma EmptyIsNoProse()
    ensures !Prose("")
  {}

  lemma SameParagraph(front: seq<string>, width: int)
    requires front != [] && !Prose("")
    ensures ParagraphSize(Prose, front + [""], width) == ParagraphSize(Prose, front, width)
  {
    hide Prose;
    var lines := front + [""];
    var k := Continued(Prose, front[1..]);
    assert lines[1..] == front[1..] + [""];
    ContinuedIs(Prose, lines[1..], k);
  }

  lemma {:induction false} LastLineStaysFull(lines: seq<string>, width: int)
    requires lines != [] && !EndsEmpty(lines)
    ensures Reflowed(Prose, lines, width) != [] && !EndsEmpty(Reflowed(Prose, lines, width))
    decreases |lines|
  {
    var k := ParagraphSize(Prose, lines, width);
    ReflowedStep(Prose, lines, width);
    if k < |lines| {
      hide *;
      RestIsFull(lines, k);
      LastLineStaysFull(lines[k..], width);
    } else {
      assert lines[k..] == [] && lines[..k] == lines;
      if Starts(Prose, lines[0], width) {
        AllWordsAreWords(lines);
        ProseHasWords(lines[0]);
        hide Prose, Refilled, Words;
        RefilledLines(AllWords(lines), width);
      }
    }
  }

  lemma RestIsFull(lines: seq<string>, k: nat)
    requires !EndsEmpty(lines) && k < |lines|
    ensures lines[k..] != [] && !EndsEmpty(lines[k..])
    ensures forall a: seq<string>, b: seq<string> :: b != [] && !EndsEmpty(b) ==> a + b != [] && !EndsEmpty(a + b)
  {}

  /** Joined up again, a text is stable exactly when it does not end in an empty line
      after others: each time it is split into lines, one such line is dropped. */
  lemma TextIsStable(text: string, width: int)
    ensures ReflowedText(ReflowedText(text, width), width) == ReflowedText(text, width) <==>
      |SplitLines(text)| <= 1 || !EndsEmpty(SplitLines(text))
  {
    var lines := SplitLines(text);
    var out := Reflowed(Prose, lines, width);
    ReflowedHasNoBreaks(Prose, lines, width);
    SplitOfJoin(out);
    ReflowIsStable(Prose, lines, width);
    if EndsEmpty(lines) {
      EmptyLineStaysLast(lines, width);
      EmptyLineIsLost(lines[..|lines| - 1], width);
    } else if lines != [] {
      LastLineStaysFull(lines, width);
    }
  }

  lemma EmptyLineIsLost(front: seq<string>, width: int)
    ensures var out := Reflowed(Prose, front, width);
            && Reflowed(Prose, out, width) == out && (out + [""])[..|out|] == out
            && (Join('\n', out) == Join('\n', out + [""]) <==> front == [])
  {
    var out := Reflowed(Prose, front, width);
    ReflowIsStable(Prose, front, width);
    JoinGrows(out);
    if front != [] { ReflowedNotEmpty(front, width); }
  }

  lemma ReflowedNotEmpty(lines: seq<string>, width: int)
    requires lines != []
    ensures Reflowed(Prose, lines, width) != []
  {
    var k := ParagraphSize(Prose, lines, width);
    ReflowedStep(Prose, lines, width);
    AllWordsAreWords(lines[..k]);
    RefilledLines(AllWords(lines[..k]), width);
  }

  lemma {:induction false} JoinGrows(lines: seq<string>)
    ensures |Join('\n', lines + [""])| == |Join('\n', lines)| + if lines == [] then 0 else 1
  {
    if lines != [] {
      JoinGrows(lines[1..]);
      assert (lines + [""])[1..] == lines[1..] + [""];
    }
  }

  /** Such a text, at any width. */
  lemma EmptyLastLineIsUnstable(width: int)
    ensures var text := "a\n\n"; ReflowedText(ReflowedText(text, width), width) != ReflowedText(text, width)
  {
    var text := "a\n\n";
    assert text == "a" + ['\n'] + "\n" && "" + ['\n'] + "" == "\n" && SplitLines("") == [];
    SplitStep("a", "\n");
    SplitStep("", "");
    assert SplitLines(text) == ["a", ""];
    TextIsStable(text, width);
  }
}
