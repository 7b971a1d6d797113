/** Finding the messages of an mbox file that is read in chunks.

    The end of each chunk is kept for a line start that the next one completes. */
module MboxScan {

  const DELIM: string := "\nFrom "
  const KEEP: nat := 128

  // ----- What is to be found

  predicate DelimAt(s: string, i: nat) {
    i + |DELIM| <= |s| && s[i..i + |DELIM|] == DELIM
  }

  /** A line of the file starts here with "From ". */
  predicate MessageAt(file: string, q: nat) {
    && q + 5 <= |file| && file[q..q + 5] == "From "
    && (q == 0 || file[q - 1] == '\n')
  }

  /** The delimiters that start from first on and before end, in order. */
  function Delims(s: string, first: nat, end: nat): seq<nat>
    decreases end
  {
    if end <= first then []
    else Delims(s, first, end - 1) + if DelimAt(s, end - 1) then [end - 1] else []
  }

  /** The starts of all messages of the file, in order. */
  function Messages(file: string, end: nat): seq<nat> {
    if end == 0 then [] else Messages(file, end - 1) + if MessageAt(file, end - 1) then [end - 1] else []
  }

  /** With a line break put before the file, a message starts where a delimiter does. */
  lemma MessageIsDelim(file: string, q: nat)
    ensures MessageAt(file, q) <==> DelimAt("\n" + file, q)
  {
    var s := "\n" + file;
    if q + 6 <= |s| {
      assert s[1..] == file;
      assert s[q..q + 6] == [s[q]] + s[1..][q..q + 5];
      assert DELIM == ['\n'] + "From ";
      assert s[q] == if q == 0 then '\n' else file[q - 1];
      assert s[q..q + 6][1..] == file[q..q + 5] && DELIM[1..] == "From ";
    }
  }

  lemma {:induction false} MessagesAreDelims(file: string, end: nat)
    ensures Messages(file, end) == Delims("\n" + file, 0, end)
  {
    if end > 0 {
      MessagesAreDelims(file, end - 1);
      MessageIsDelim(file, end - 1);
    }
  }

  // ----- Splitting

  function FirstDelim(s: string, i: nat): (k: nat)
    requires i <= |s|
    ensures i <= k <= |s| && (forall j :: i <= j < k ==> !DelimAt(s, j)) && (k < |s| ==> DelimAt(s, k))
    decreases |s| - i
  {
    if i == |s| || DelimAt(s, i) then i else FirstDelim(s, i + 1)
  }

  /** The pieces between delimiters. */
  function Split(s: string): (pieces: seq<string>)
    ensures pieces != []
    decreases |s|
  {
    var k := FirstDelim(s, 0);
    if k == |s| then [s] else [s[..k]] + Split(s[k + |DELIM|..])
  }

  /** The length of the text that was split. */
  function Length(pieces: seq<string>): nat
    requires pieces != []
  {
    if |pieces| == 1 then |pieces[0]| else |pieces[0]| + |DELIM| + Length(pieces[1..])
  }

  /** Where the delimiters between the pieces are, if the first piece is at base. */
  function Cuts(pieces: seq<string>, base: nat): seq<nat>
    requires pieces != []
  {
    if |pieces| == 1 then [] else [base + |pieces[0]|] + Cuts(pieces[1..], base + |pieces[0]| + |DELIM|)
  }

  function Last(pieces: seq<string>): string
    requires pieces != []
  {
    pieces[|pieces| - 1]
  }

  lemma {:induction false} NoDelims(s: string, first: nat, end: nat)
    requires forall i :: first <= i < end ==> !DelimAt(s, i)
    ensures Delims(s, first, end) == []
    decreases end
  {
    if first < end { NoDelims(s, first, end - 1); }
  }

  lemma {:induction false} DelimsJoin(s: string, a: nat, b: nat, c: nat)
    requires a <= b <= c
    ensures Delims(s, a, c) == Delims(s, a, b) + Delims(s, b, c)
    decreases c
  {
    if b == c {
      assert Delims(s, a, b) + [] == Delims(s, a, b);
    } else {
      DelimsJoin(s, a, b, c - 1);
      var more := if DelimAt(s, c - 1) then [c - 1] else [];
      assert Delims(s, a, b) + (Delims(s, b, c - 1) + more) == Delims(s, a, b) + Delims(s, b, c - 1) + more;
    }
  }

  function Shifted(s: seq<nat>, n: nat): seq<nat> {
    seq(|s|, i requires 0 <= i < |s| => s[i] + n)
  }

  /** Delimiters in the rest of a text, counted from its beginning. */
  lemma {:induction false} DelimsOfRest(s: string, p: nat, end: nat)
    requires p + end <= |s|
    ensures Delims(s, p, p + end) == Shifted(Delims(s[p..], 0, end), p)
    decreases end
  {
    hide DelimAt;
    if end > 0 {
      DelimsOfRest(s, p, end - 1);
      RestDelim(s, p, end - 1);
      var before := Delims(s[p..], 0, end - 1);
      assert p + end - 1 == p + (end - 1);
      assert Shifted(before + [end - 1], p) == Shifted(before, p) + [p + end - 1];
      assert before + [] == before && Shifted(before, p) + [] == Shifted(before, p);
      hide Shifted;
    }
  }

  lemma RestDelim(s: string, p: nat, i: nat)
    requires p <= |s|
    ensures DelimAt(s[p..], i) <==> DelimAt(s, p + i)
  {
    if p + i + |DELIM| <= |s| {
      assert s[p..][i..i + |DELIM|] == s[p + i..p + i + |DELIM|];
    }
  }

  /** Delimiters do not overlap. */
  lemma NoOverlap(s: string, i: nat, j: nat)
    requires DelimAt(s, i) && i < j < i + |DELIM|
    ensures !DelimAt(s, j)
  {
    assert s[i..i + |DELIM|][j - i] == s[j];
    assert DELIM[1] != '\n' && DELIM[2] != '\n' && DELIM[3] != '\n' && DELIM[4] != '\n' && DELIM[5] != '\n';
    assert j + |DELIM| <= |s| ==> s[j..j + |DELIM|][0] == s[j];
  }

  lemma {:induction false} CutsShift(pieces: seq<string>, base: nat)
    requires pieces != []
    ensures Cuts(pieces, base) == Shifted(Cuts(pieces, 0), base)
    decreases |pieces|
  {
    if |pieces| > 1 {
      var n := |pieces[0]| + |DELIM|;
      CutsShift(pieces[1..], base + n);
      CutsShift(pieces[1..], n);
      var rest := Cuts(pieces[1..], n);
      assert Shifted([|pieces[0]|] + rest, base) == [base + |pieces[0]|] + Shifted(rest, base);
    }
  }

  lemma AroundDelim(s: string, k: nat)
    requires k == FirstDelim(s, 0) < |s|
    ensures k + |DELIM| <= |s| && Delims(s, 0, k) == [] && Delims(s, k + 1, k + |DELIM|) == []
  {
    forall i | k < i < k + |DELIM| ensures !DelimAt(s, i) { NoOverlap(s, k, i); }
    NoDelims(s, 0, k);
    NoDelims(s, k + 1, k + |DELIM|);
  }

  /** The first delimiter, and those after it. */
  lemma DelimsStep(s: string, k: nat)
    requires k == FirstDelim(s, 0) < |s|
    ensures k + |DELIM| <= |s|
    ensures Delims(s, 0, |s|) == [k] + Shifted(Delims(s[k + |DELIM|..], 0, |s| - k - |DELIM|), k + |DELIM|)
  {
    hide Delims, DelimAt, Shifted, FirstDelim;
    var n := k + |DELIM|;
    AroundDelim(s, k);
    OneDelim(s, k);
    DelimsOfRest(s, n, |s| - n);
    DelimsJoin(s, 0, k, |s|);
    DelimsJoin(s, k, k + 1, |s|);
    DelimsJoin(s, k + 1, n, |s|);
    assert n + (|s| - n) == |s|;
    assert [] + ([k] + ([] + Delims(s, n, |s|))) == [k] + Delims(s, n, |s|);
  }

  /** What the text after the last delimiter is. */
  ghost predicate IsLast(s: string, last: string) {
    && |last| <= |s| && last == s[|s| - |last|..]
    && (|last| < |s| ==> |last| + |DELIM| <= |s| && DelimAt(s, |s| - |last| - |DELIM|))
    && forall i :: |s| - |last| <= i < |s| ==> !DelimAt(s, i)
  }

  /** Splitting finds all delimiters, and keeps the text after the last one. */
  lemma {:induction false} SplitFindsDelims(s: string)
    ensures Cuts(Split(s), 0) == Delims(s, 0, |s|) && Length(Split(s)) == |s| && IsLast(s, Last(Split(s)))
    decreases |s|
  {
    hide DelimAt, Delims, Shifted, IsLast;
    var k := FirstDelim(s, 0);
    if k < |s| {
      DelimsStep(s, k);
      var n := k + |DELIM|;
      SplitFindsDelims(s[n..]);
      CutsShift(Split(s[n..]), n);
      LastOfRest(s, k);
    } else {
      NothingToSplit(s);
    }
  }

  lemma NothingToSplit(s: string)
    requires FirstDelim(s, 0) == |s|
    ensures Delims(s, 0, |s|) == [] && IsLast(s, s)
  {
    NoDelims(s, 0, |s|);
  }

  lemma OneDelim(s: string, k: nat)
    requires DelimAt(s, k)
    ensures Delims(s, k, k + 1) == [k]
  {
    assert Delims(s, k, k) == [];
  }

  lemma LastOfRest(s: string, k: nat)
    requires k == FirstDelim(s, 0) < |s| && k + |DELIM| <= |s|
    requires IsLast(s[k + |DELIM|..], Last(Split(s[k + |DELIM|..])))
    ensures IsLast(s, Last(Split(s)))
  {
    hide DelimAt, IsLast;
    var rest := s[k + |DELIM|..];
    FirstIsDelim(s);
    assert Split(s) == [s[..k]] + Split(rest);
    assert Last([s[..k]] + Split(rest)) == Last(Split(rest));
    hide Split, Last, FirstDelim;
    LastIsLast(s, k + |DELIM|, Last(Split(rest)));
  }

  lemma LastIsLast(s: string, n: nat, last: string)
    requires |DELIM| <= n <= |s| && DelimAt(s, n - |DELIM|) && IsLast(s[n..], last)
    ensures IsLast(s, last)
  {
    hide DelimAt;
    var rest := s[n..];
    assert rest[|rest| - |last|..] == s[|s| - |last|..];
    if |last| < |rest| { RestDelim(s, n, |rest| - |last| - |DELIM|); }
    forall i | |s| - |last| <= i < |s| ensures !DelimAt(s, i) { RestDelim(s, n, i - n); }
  }

  lemma FirstIsDelim(s: string)
    ensures FirstDelim(s, 0) < |s| ==> DelimAt(s, FirstDelim(s, 0))
  {}

  // ----- Reading in chunks

  function Joined(chunks: seq<string>): string {
    if chunks == [] then "" else Joined(chunks[..|chunks| - 1]) + chunks[|chunks| - 1]
  }

  /** Whatever is read next, no delimiter will turn out to start before p that is not
      there already. */
  ghost predicate Settled(s: string, p: nat) {
    forall i: nat, x: string :: i < p && DelimAt(s + x, i) ==> DelimAt(s, i)
  }

  /** The state between chunks: s is what was read, with a line break before it, and the
      text from p on is kept. */
  ghost predicate Scanned(s: string, p: nat, messages: seq<nat>) {
    && p <= |s| && messages == Delims(s, 0, |s|) && Settled(s, p)
    && forall i :: p <= i < |s| ==> !DelimAt(s, i)
  }

  lemma DelimMore(s: string, x: string, i: nat)
    ensures DelimAt(s, i) ==> DelimAt(s + x, i)
    ensures i + |DELIM| <= |s| ==> (DelimAt(s + x, i) <==> DelimAt(s, i))
  {
    if i + |DELIM| <= |s| { assert (s + x)[i..i + |DELIM|] == s[i..i + |DELIM|]; }
  }

  lemma {:induction false} DelimsMore(s: string, x: string, p: nat, end: nat)
    requires Settled(s, p) && end <= p
    ensures Delims(s + x, 0, end) == Delims(s, 0, end)
    decreases end
  {
    hide DelimAt;
    if end > 0 {
      DelimsMore(s, x, p, end - 1);
      DelimMore(s, x, end - 1);
    }
  }

  /** All delimiters are those found before and those found by splitting what was kept
      and the new chunk. */
  lemma ChunkFindsDelims(s: string, p: nat, messages: seq<nat>, chunk: string)
    requires Scanned(s, p, messages)
    ensures var all, window := s + chunk, s[p..] + chunk;
            && Length(Split(window)) == |window| == |all| - p
            && messages + Cuts(Split(window), p) == Delims(all, 0, |all|)
  {
    hide DelimAt, Delims, Split, Length, Cuts, Settled, Shifted;
    var all, window := s + chunk, s[p..] + chunk;
    assert all[p..] == window;
    SplitFindsDelims(window);
    CutsShift(Split(window), p);
    DelimsOfRest(all, p, |window|);
    DelimsJoin(all, 0, p, |all|);
    DelimsMore(s, chunk, p, p);
    DelimsJoin(s, 0, p, |s|);
    NoDelims(s, p, |s|);
    assert Delims(s, 0, p) + [] == Delims(s, 0, p);
    assert p + |window| == |all|;
  }

  /** Keeping the last 128 characters after the last delimiter is enough. */
  lemma ChunkIsSettled(s: string, p: nat, messages: seq<nat>, chunk: string, p': nat)
    requires Scanned(s, p, messages)
    requires var last := Last(Split(s[p..] + chunk));
             |last| <= |s + chunk| && p' == |s + chunk| - if |last| < KEEP then |last| else KEEP
    ensures Settled(s + chunk, p') && forall i :: p' <= i < |s + chunk| ==> !DelimAt(s + chunk, i)
  {
    hide DelimAt, Delims, Split;
    var all, window := s + chunk, s[p..] + chunk;
    var last := Last(Split(window));
    assert all[p..] == window;
    SplitFindsDelims(window);
    forall i | p' <= i < |all| ensures !DelimAt(all, i) { RestDelim(all, p, i - p); }
    forall i: nat, x: string | i < p' && DelimAt(all + x, i) ensures DelimAt(all, i) {
      DelimMore(all, x, i);
      if i + |DELIM| > |all| {
        LateDelim(s, p, messages, chunk, x, i);
      }
    }
  }

  /** A delimiter that reaches beyond what was read does not start before the text that
      is kept: it would overlap the last delimiter. */
  lemma LateDelim(s: string, p: nat, messages: seq<nat>, chunk: string, x: string, i: nat)
    requires Scanned(s, p, messages) && i + |DELIM| > |s + chunk|
    requires IsLast(s[p..] + chunk, Last(Split(s[p..] + chunk)))
    requires i < |s + chunk| - |Last(Split(s[p..] + chunk))|
    ensures !DelimAt(s + chunk + x, i) || DelimAt(s + chunk, i)
  {
    hide DelimAt, Delims, Split, IsLast, Settled;
    var all, window := s + chunk, s[p..] + chunk;
    var last := Last(Split(window));
    assert all[p..] == window;
    LastDelim(window, last);
    if |last| < |window| {
      var d := |window| - |last| - |DELIM|;
      RestDelim(all, p, d);
      LateOverlap(all, x, p + d, i);
    } else {
      assert all + x == s + (chunk + x);
      SettledMeans(s, p, chunk + x, i);
      DelimMore(s, chunk, i);
    }
  }

  lemma LastDelim(window: string, last: string)
    requires IsLast(window, last)
    ensures |last| <= |window|
    ensures |last| < |window| ==> |last| + |DELIM| <= |window| && DelimAt(window, |window| - |last| - |DELIM|)
  {}

  lemma LateOverlap(all: string, x: string, d: nat, i: nat)
    requires DelimAt(all, d) && d < i < d + |DELIM|
    ensures !DelimAt(all + x, i)
  {
    hide DelimAt;
    DelimMore(all, x, d);
    NoOverlap(all + x, d, i);
  }

  lemma SettledMeans(s: string, p: nat, x: string, i: nat)
    requires Settled(s, p) && i < p
    ensures DelimAt(s + x, i) ==> DelimAt(s, i)
  {}

  /** The positions at which messages start.  Chunks are what reading the file gives,
      which is empty only at its end. */
  method Scan(chunks: seq<string>) returns (messages: seq<nat>)
    requires forall i :: 0 <= i < |chunks| ==> chunks[i] != ""
    ensures var file := Joined(chunks); messages == Messages(file, |file| + 1)
  {
    hide Scanned, Split, Messages, Joined;
    var buf := "\n";
    var pos: int := -1;
    messages := [];
    var i := 0;
    ghost var file := "";
    NothingRead(chunks);
    while i < |chunks|
      invariant 0 <= i <= |chunks| && file == Joined(chunks[..i])
      invariant -1 <= pos <= |file| && pos + |buf| == |file|
      invariant Scanned("\n" + file, pos + 1, messages) && buf == ("\n" + file)[pos + 1..]
    {
      buf, pos, messages := ReadChunk(chunks[i], buf, pos, messages, "\n" + file);
      assert "\n" + (file + chunks[i]) == "\n" + file + chunks[i];
      JoinedNext(chunks, i);
      file := file + chunks[i];
      i := i + 1;
    }
    assert chunks[..i] == chunks;
    AllFound(file, pos + 1, messages);
  }

  /** Look through one chunk, after what was kept of the ones before. */
  method ReadChunk(chunk: string, kept: string, start: int, before: seq<nat>, ghost s: string)
    returns (buf: string, pos: int, messages: seq<nat>)
    requires -1 <= start < |s| && Scanned(s, start + 1, before) && kept == s[start + 1..]
    ensures -1 <= pos < |s + chunk| && Scanned(s + chunk, pos + 1, messages) && buf == (s + chunk)[pos + 1..]
  {
    hide Scanned, Split, Cuts, Length, Last;
    ghost var p := start + 1;
    buf := kept + chunk;
    ChunkFindsDelims(s, p, before, chunk);
    LastFits(buf);
    var splits := Split(buf);
    buf, pos, messages := NoteMessages(splits, start, before);
    var keep := if |buf| < KEEP then |buf| else KEEP;
    pos := pos + |buf| - keep;
    KeepEnd(s, p, chunk, buf, keep);
    ChunkIsScanned(s, p, before, chunk, pos + 1, messages);
    buf := buf[|buf| - keep..];
  }

  lemma LastFits(window: string)
    ensures var last := Last(Split(window)); |last| <= |window| && last == window[|window| - |last|..]
  {
    SplitFindsDelims(window);
  }

  /** Note the start of every piece but the first. */
  method NoteMessages(splits: seq<string>, start: int, before: seq<nat>)
    returns (buf: string, pos: int, messages: seq<nat>)
    requires splits != [] && start >= -1
    ensures buf == Last(splits) && pos + |buf| == start + Length(splits) && pos >= start
    ensures messages == before + Cuts(splits, start + 1)
  {
    buf, pos, messages := splits[0], start, before;
    var j := 1;
    assert splits[0..] == splits;
    while j < |splits|
      invariant 1 <= j <= |splits| && pos >= start
      invariant buf == splits[j - 1] && pos + Length(splits[j - 1..]) == start + Length(splits)
      invariant messages + Cuts(splits[j - 1..], pos + 1) == before + Cuts(splits, start + 1)
    {
      assert splits[j - 1..][1..] == splits[j..];
      pos := pos + |buf| + |DELIM|;
      buf := splits[j];
      messages := messages + [pos - |DELIM| + 1];
      j := j + 1;
    }
    assert splits[j - 1..] == [Last(splits)];
  }

  lemma NothingRead(chunks: seq<string>)
    ensures Joined(chunks[..0]) == "" && Scanned("\n", 0, []) && "\n" + "" == "\n" && "\n"[0..] == "\n"
  {
    assert !DelimAt("\n", 0);
    assert Delims("\n", 0, 0) == [];
  }

  lemma JoinedNext(chunks: seq<string>, i: nat)
    requires i < |chunks|
    ensures Joined(chunks[..i + 1]) == Joined(chunks[..i]) + chunks[i]
  {
    assert chunks[..i + 1][..i] == chunks[..i];
  }

  lemma KeepEnd(s: string, p: nat, chunk: string, last: string, keep: nat)
    requires p <= |s| && keep <= |last| && |last| <= |s[p..] + chunk|
    requires last == (s[p..] + chunk)[|s[p..] + chunk| - |last|..]
    ensures last[|last| - keep..] == (s + chunk)[|s + chunk| - keep..]
  {
    assert s[p..] + chunk == (s + chunk)[p..];
  }

  lemma ChunkIsScanned(s: string, p: nat, before: seq<nat>, chunk: string, p': nat, messages: seq<nat>)
    requires Scanned(s, p, before) && messages == before + Cuts(Split(s[p..] + chunk), p)
    requires var last := Last(Split(s[p..] + chunk));
             |last| <= |s + chunk| && p' == |s + chunk| - if |last| < KEEP then |last| else KEEP
    ensures Scanned(s + chunk, p', messages)
  {
    ChunkFindsDelims(s, p, before, chunk);
    ChunkIsSettled(s, p, before, chunk, p');
    hide Settled, DelimAt;
  }

  lemma AllFound(file: string, p: nat, messages: seq<nat>)
    requires Scanned("\n" + file, p, messages)
    ensures messages == Messages(file, |file| + 1)
  {
    MessagesAreDelims(file, |file| + 1);
  }

  /** The list has the start of every message, each once, in order. */
  lemma {:induction false} MessagesMeaning(file: string, end: nat)
    ensures forall q: nat :: q in Messages(file, end) <==> q < end && MessageAt(file, q)
    ensures forall i, j :: 0 <= i < j < |Messages(file, end)| ==> Messages(file, end)[i] < Messages(file, end)[j]
  {
    if end > 0 {
      MessagesMeaning(file, end - 1);
      var before := Messages(file, end - 1);
      assert forall i :: 0 <= i < |before| ==> before[i] in before;
    }
  }
}
