/** The metadata index and its file: a snapshot followed by appended sections. */
module MetadataLog {
  // Saving runs in one thread while others go on editing the index, so a save is a
  // number of steps here, and edits may come between them.
  import opened Wrappers

  /** One line of the file.  Mark starts an appended section; Note is a comment, a
      blank line or a line that loading rejects. */
  datatype Record = Mark | Note | Email(eid: nat, text: string) | Msg(pos: nat, line: string)

  const MIN_ITEMS_PER_INCREMENT: nat := 200
  const MIN_ITEMS_PER_DUPLICATE: nat := 10
  const ITEM_COUNT_OFFSET: nat := 5000

  // ----- Replaying the file

  /** The last line for message i. */
  function Found(log: seq<Record>, i: nat): Option<string> {
    if log == [] then None
    else
      var last := log[|log| - 1];
      if last.Msg? && last.pos == i then Some(last.line) else Found(log[..|log| - 1], i)
  }

  function FoundEmail(log: seq<Record>, e: nat): Option<string> {
    if log == [] then None
    else
      var last := log[|log| - 1];
      if last.Email? && last.eid == e then Some(last.text) else FoundEmail(log[..|log| - 1], e)
  }

  function OrBlank(o: Option<string>): string {
    if o.Some? then o.value else ""
  }

  function LineAt(file: Option<seq<Record>>, i: nat): string {
    if file.Some? then OrBlank(Found(file.value, i)) else ""
  }

  function EmailAt(file: Option<seq<Record>>, e: nat): string {
    if file.Some? then OrBlank(FoundEmail(file.value, e)) else ""
  }

  lemma {:induction false} FoundAppend(a: seq<Record>, b: seq<Record>, i: nat)
    ensures Found(a + b, i) == if Found(b, i).Some? then Found(b, i) else Found(a, i)
    ensures FoundEmail(a + b, i) == if FoundEmail(b, i).Some? then FoundEmail(b, i) else FoundEmail(a, i)
    decreases |b|
  {
    if b == [] {
      assert a + b == a;
    } else {
      assert (a + b)[..|a + b| - 1] == a + b[..|b| - 1];
      FoundAppend(a, b[..|b| - 1], i);
    }
  }

  lemma FoundOne(r: Record, i: nat)
    ensures Found([r], i) == if r.Msg? && r.pos == i then Some(r.line) else None
    ensures FoundEmail([r], i) == if r.Email? && r.eid == i then Some(r.text) else None
  {
    assert [r][..0] == [];
  }

  // ----- The state

  /** What a save in progress remembers: the modified messages it took over and the
      number of e-mail addresses that were saved before, to be put back if it fails.
      When a full save has begun, later holds the addresses renamed before that. */
  datatype Phase =
    | Idle
    | Chosen(mods: set<nat>, was: nat)
    | Appending(mods: set<nat>, was: nat, todo: set<nat>, data: seq<Record>)
    | Rewriting(mods: set<nat>, was: nat, next: nat, size: nat, data: seq<Record>, earlier: set<nat>, backedUp: bool)

  /** A file that was written no more than these seconds ago is not backed up. */
  const MIN_AGE_DELTA: real := 10.0

  predicate IsYoung(age: real) {
    age <= MIN_AGE_DELTA
  }

  /** renamed is not part of the program, which does not keep track of it: the saved
      addresses that have got another name since. */
  datatype State = State(index: seq<string>, modified: set<nat>, emails: seq<string>, saved: nat, renamed: set<nat>,
                         changes: nat, lines: nat, file: Option<seq<Record>>, phase: Phase)

  datatype Event =
    | Edit(i: nat, line: string)
    | AddEmail(text: string)
    | Rename(e: nat, text: string)
    | BeginChanges(quitting: bool)
    | BeginSave
    | EnterSave
    | Read(pos: nat)
    | BackUp(age: real)
    | Finish
    | Fail(n: nat, torn: seq<Record>)

  const START := State([], {}, [], 0, {}, 0, 0, None, Idle)

  function Extended(index: seq<string>, n: nat): seq<string>
    ensures |Extended(index, n)| >= n && index <= Extended(index, n)
    ensures |index| >= n ==> Extended(index, n) == index
    ensures |index| < n ==> |Extended(index, n)| == n && forall i :: |index| <= i < n ==> Extended(index, n)[i] == ""
  {
    index + seq(if n > |index| then n - |index| else 0, i => "")
  }

  function EmailRecords(emails: seq<string>, first: nat, end: nat): seq<Record>
    requires first <= end && end <= |emails|
    decreases end
  {
    if first == end then [] else EmailRecords(emails, first, end - 1) + [Email(end - 1, emails[end - 1])]
  }

  /** When the file has many appended sections or outdated lines, it is rewritten. */
  predicate Rewrites(items: nat, changes: nat, lines: nat, hasFile: bool, quitting: bool) {
    || !hasFile
    || (!quitting &&
        (|| changes > (items + ITEM_COUNT_OFFSET) / MIN_ITEMS_PER_INCREMENT
         || lines > items + (items + ITEM_COUNT_OFFSET) / MIN_ITEMS_PER_DUPLICATE))
  }

  function Rewrite(s: State, mods: set<nat>, was: nat): State
  {
    var data := [Note, Note] + EmailRecords(s.emails, 0, |s.emails|);
    s.(modified := {}, saved := |s.emails|, renamed := {},
       phase := Rewriting(mods, was, 0, |s.index|, data, s.renamed, false))
  }

  function LineRecord(pos: nat, line: string): Record {
    if line == "" then Note else Msg(pos, line)
  }

  function PutBack(s: State): State
    requires !s.phase.Idle?
  {
    s.(modified := s.modified + s.phase.mods, saved := s.phase.was,
       renamed := s.renamed + (if s.phase.Rewriting? then s.phase.earlier else {}), phase := Idle)
  }

  /** A write that fails may leave the first n records and part of the next one, which
      is then rejected or read as a record for the same message or address. */
  predicate Torn(data: seq<Record>, n: nat, torn: seq<Record>) {
    && n <= |data| && |torn| <= 1
    && (torn != [] ==> n < |data| && SameSlot(data[n], torn[0]))
  }

  predicate SameSlot(a: Record, b: Record) {
    || b.Note? || b.Mark?
    || (a.Msg? && b.Msg? && a.pos == b.pos && b.line != "")
    || (a.Email? && b.Email? && a.eid == b.eid)
  }

  predicate Enabled(s: State, e: Event) {
    match e
    case Edit(i, line) => line != ""
    case AddEmail(_) => true
    case Rename(n, _) => n < |s.emails|
    case BeginChanges(_) => s.phase.Idle? && s.saved <= |s.emails|
    case BeginSave => s.phase.Idle?
    case EnterSave => s.phase.Chosen?
    case Read(pos) =>
      pos < |s.index| &&
      (|| (s.phase.Appending? && pos in s.phase.todo)
       || (s.phase.Rewriting? && pos == s.phase.next < s.phase.size))
    case BackUp(_) => s.phase.Rewriting? && s.phase.next == s.phase.size && !s.phase.backedUp
    case Finish =>
      || (s.phase.Appending? && s.phase.todo == {} && s.phase.was <= s.saved)
      || (s.phase.Rewriting? && s.phase.backedUp)
    case Fail(n, torn) =>
      && !s.phase.Idle?
      && if s.phase.Appending? && s.phase.todo == {} then Torn(s.phase.data, n, torn) else n == 0 && torn == []
  }

  function Next(s: State, e: Event): State
    requires Enabled(s, e)
  {
    match e
    case Edit(i, line) => s.(index := Extended(s.index, i + 1)[i := line], modified := s.modified + {i})
    case AddEmail(text) => s.(emails := s.emails + [text])
    case Rename(n, text) =>
      s.(emails := s.emails[n := text], renamed := if n < s.saved then s.renamed + {n} else s.renamed)
    case BeginChanges(quitting) =>
      if s.saved == |s.emails| && s.modified == {} then s
      else if Rewrites(|s.emails| + |s.index|, s.changes, s.lines, s.file.Some?, quitting) then s.(modified := {}, phase := Chosen(s.modified, s.saved))
      else
        var data := [Mark] + EmailRecords(s.emails, s.saved, |s.emails|);
        s.(modified := {}, saved := |s.emails|, phase := Appending(s.modified, s.saved, s.modified, data))
    case BeginSave => Rewrite(s, s.modified, s.saved)
    case EnterSave => Rewrite(s, s.phase.mods + s.modified, s.phase.was)
    case Read(pos) =>
      if s.phase.Appending? then
        s.(phase := s.phase.(todo := s.phase.todo - {pos}, data := s.phase.data + [Msg(pos, s.index[pos])]))
      else
        s.(phase := s.phase.(next := pos + 1, data := s.phase.data + [LineRecord(pos, s.index[pos])]))
    case BackUp(age) =>
      s.(file := if IsYoung(age) then s.file else None, phase := s.phase.(backedUp := true))
    case Finish =>
      if s.phase.Appending? then
        s.(file := Some(if s.file.Some? then s.file.value + s.phase.data else s.phase.data),
           changes := s.changes + 1, lines := s.lines + (s.saved - s.phase.was) + |s.phase.mods|, phase := Idle)
      else
        s.(file := Some(s.phase.data), changes := 0, lines := s.saved + s.phase.size, phase := Idle)
    case Fail(n, torn) =>
      if s.phase.Appending? && s.phase.todo == {} then
        PutBack(s).(file := if s.file.Some? then Some(s.file.value + s.phase.data[..n] + torn) else
                            if n == 0 && torn == [] then None else Some(s.phase.data[..n] + torn))
      else PutBack(s)
  }

  ghost predicate Possible(s: State, events: seq<Event>)
    decreases |events|
  {
    events != [] ==> Enabled(s, events[0]) && Possible(Next(s, events[0]), events[1..])
  }

  function Run(s: State, events: seq<Event>): State
    requires Possible(s, events)
    decreases |events|
  {
    if events == [] then s else Run(Next(s, events[0]), events[1..])
  }

  // ----- The invariant

  /** The message is marked as modified, or a save has taken it over. */
  predicate IsPending(s: State, i: nat) {
    i in s.modified || (!s.phase.Idle? && i in s.phase.mods)
  }

  predicate IsRenamed(s: State, e: nat) {
    e in s.renamed || (s.phase.Rewriting? && e in s.phase.earlier)
  }

  /** The number of addresses the file holds. */
  function Saved(s: State): nat {
    if s.phase.Idle? then s.saved else s.phase.was
  }

  function LiveLine(s: State, i: nat): string {
    if i < |s.index| then s.index[i] else ""
  }

  predicate EndsFull(index: seq<string>) {
    index != [] ==> index[|index| - 1] != ""
  }

  ghost predicate Shape(s: State) {
    && (forall i: nat :: IsPending(s, i) ==> LiveLine(s, i) != "")
    && s.saved <= |s.emails| && Saved(s) <= s.saved
    && EndsFull(s.index)
  }

  /** Replaying the file gives the line of every message that is not pending. */
  ghost predicate FileLines(s: State) {
    s.file.Some? ==>
      forall i: nat :: !IsPending(s, i) ==> OrBlank(Found(s.file.value, i)) == LiveLine(s, i)
  }

  ghost predicate FileEmails(s: State) {
    s.file.Some? ==>
      forall e: nat :: e < Saved(s) && e < |s.emails| && !IsRenamed(s, e) ==>
        OrBlank(FoundEmail(s.file.value, e)) == s.emails[e]
  }

  /** What the data of an append in progress says about messages and addresses. */
  ghost predicate AppendData(s: State)
    requires s.phase.Appending?
  {
    var p := s.phase;
    && p.todo <= p.mods && s.file.Some?
    && (forall i: nat :: Found(p.data, i).Some? <==> i in p.mods && i !in p.todo)
    && (forall i: nat :: i in p.mods && i !in p.todo && i !in s.modified ==> Found(p.data, i) == Some(LiveLine(s, i)))
    && (forall e: nat :: FoundEmail(p.data, e).Some? <==> p.was <= e < s.saved)
    && (forall e: nat :: p.was <= e < s.saved && e < |s.emails| && e !in s.renamed ==>
          FoundEmail(p.data, e) == Some(s.emails[e]))
  }

  ghost predicate RewriteData(s: State)
    requires s.phase.Rewriting?
  {
    var p := s.phase;
    && p.next <= p.size <= |s.index| && (p.backedUp ==> p.next == p.size)
    && (forall i: nat :: p.next <= i ==> Found(p.data, i) == None)
    && (forall i: nat :: i < p.next && i !in s.modified ==> OrBlank(Found(p.data, i)) == LiveLine(s, i))
    && (forall i: nat :: p.size <= i && i !in s.modified ==> LiveLine(s, i) == "")
    && (forall e: nat :: e < s.saved && e < |s.emails| && e !in s.renamed ==>
          OrBlank(FoundEmail(p.data, e)) == s.emails[e])
  }

  ghost predicate Data(s: State) {
    && (s.phase.Appending? ==> AppendData(s))
    && (s.phase.Rewriting? ==> RewriteData(s))
  }

  ghost predicate Inv(s: State) {
    Shape(s) && FileLines(s) && FileEmails(s) && Data(s)
  }

  lemma {:induction false} EmailRecordsMeaning(emails: seq<string>, first: nat, end: nat, e: nat)
    requires first <= end && end <= |emails|
    ensures FoundEmail(EmailRecords(emails, first, end), e) == if first <= e < end then Some(emails[e]) else None
    ensures Found(EmailRecords(emails, first, end), e) == None
    decreases end
  {
    if first < end {
      EmailRecordsMeaning(emails, first, end - 1, e);
      FoundAppend(EmailRecords(emails, first, end - 1), [Email(end - 1, emails[end - 1])], e);
      FoundOne(Email(end - 1, emails[end - 1]), e);
    }
  }

  /** A section that starts with notes and e-mail addresses. */
  lemma HeaderMeaning(head: seq<Record>, emails: seq<string>, first: nat, e: nat)
    requires first <= |emails| && (head == [Mark] || head == [Note, Note])
    ensures var data := head + EmailRecords(emails, first, |emails|);
            && FoundEmail(data, e) == (if first <= e < |emails| then Some(emails[e]) else None)
            && Found(data, e) == None
  {
    EmailRecordsMeaning(emails, first, |emails|, e);
    FoundAppend(head, EmailRecords(emails, first, |emails|), e);
    if head == [Note, Note] {
      FoundAppend([Note], [Note], e);
      FoundOne(Note, e);
      assert [Note] + [Note] == head;
    } else {
      FoundOne(Mark, e);
    }
  }

  lemma EditKeeps(s: State, i: nat, line: string)
    requires Inv(s) && line != ""
    ensures Inv(Next(s, Edit(i, line)))
  {
    hide Found, FoundEmail;
    var t := Next(s, Edit(i, line));
    EditMeaning(s, i, line);
    hide Next, LiveLine;
    assert Shape(t);
    assert FileLines(t) && FileEmails(t);
    assert Data(t);
  }

  lemma EditMeaning(s: State, i: nat, line: string)
    requires line != ""
    ensures var t := Next(s, Edit(i, line));
            && t == s.(index := t.index, modified := t.modified) && |t.index| >= |s.index|
            && (forall j: nat :: LiveLine(t, j) == if j == i then line else LiveLine(s, j))
            && (forall j: nat :: IsPending(t, j) <==> j == i || IsPending(s, j))
            && (forall j: nat :: j in t.modified <==> j == i || j in s.modified)
            && (EndsFull(s.index) ==> EndsFull(t.index))
  {}

  lemma AddEmailKeeps(s: State, text: string)
    requires Inv(s)
    ensures Inv(Next(s, AddEmail(text)))
  {
    hide Found, FoundEmail;
    var t := Next(s, AddEmail(text));
    assert forall i: nat :: LiveLine(t, i) == LiveLine(s, i) && (IsPending(t, i) <==> IsPending(s, i));
    assert forall e: nat :: IsRenamed(t, e) <==> IsRenamed(s, e);
    hide LiveLine;
    assert Shape(t);
    assert FileLines(t) && FileEmails(t);
    assert Data(t);
  }

  lemma RenameKeeps(s: State, n: nat, text: string)
    requires Inv(s) && n < |s.emails|
    ensures Inv(Next(s, Rename(n, text)))
  {
    hide Found, FoundEmail;
    var t := Next(s, Rename(n, text));
    assert forall i: nat :: LiveLine(t, i) == LiveLine(s, i) && (IsPending(t, i) <==> IsPending(s, i));
    assert forall e: nat :: IsRenamed(t, e) <==> IsRenamed(s, e) || (e == n && n < s.saved);
    hide LiveLine;
    assert Shape(t);
    assert FileLines(t) && FileEmails(t);
    assert Data(t);
  }

  lemma BeginChangesKeeps(s: State, quitting: bool)
    requires Inv(s) && s.phase.Idle?
    ensures Inv(Next(s, BeginChanges(quitting)))
  {
    hide Found, FoundEmail;
    forall e: nat
      ensures var data := [Mark] + EmailRecords(s.emails, s.saved, |s.emails|);
              && FoundEmail(data, e) == (if s.saved <= e < |s.emails| then Some(s.emails[e]) else None)
              && Found(data, e) == None
    {
      HeaderMeaning([Mark], s.emails, s.saved, e);
    }
    var t := Next(s, BeginChanges(quitting));
    hide EmailRecords, Rewrites;
    assert forall i: nat :: LiveLine(t, i) == LiveLine(s, i) && (IsPending(t, i) <==> IsPending(s, i));
    assert forall e: nat :: IsRenamed(t, e) <==> IsRenamed(s, e);
    hide LiveLine;
    assert Shape(t);
    assert FileLines(t) && FileEmails(t);
    assert Data(t);
  }

  lemma RewriteKeeps(s: State, mods: set<nat>, was: nat)
    requires Inv(s) && !s.phase.Appending? && !s.phase.Rewriting?
    requires (forall i: nat :: i in mods <==> IsPending(s, i)) && was == Saved(s)
    ensures Inv(Rewrite(s, mods, was))
  {
    hide Found, FoundEmail;
    forall e: nat
      ensures var data := [Note, Note] + EmailRecords(s.emails, 0, |s.emails|);
              && FoundEmail(data, e) == (if e < |s.emails| then Some(s.emails[e]) else None)
              && Found(data, e) == None
    {
      HeaderMeaning([Note, Note], s.emails, 0, e);
    }
    var t := Rewrite(s, mods, was);
    hide EmailRecords;
    assert forall i: nat :: LiveLine(t, i) == LiveLine(s, i) && (IsPending(t, i) <==> IsPending(s, i));
    assert forall e: nat :: IsRenamed(t, e) <==> IsRenamed(s, e);
    assert Shape(t);
    assert FileLines(t) && FileEmails(t);
    assert Data(t);
  }

  lemma ReadKeeps(s: State, pos: nat)
    requires Inv(s) && Enabled(s, Read(pos))
    ensures Inv(Next(s, Read(pos)))
  {
    hide Found, FoundEmail;
    var r := if s.phase.Appending? then Msg(pos, s.index[pos]) else LineRecord(pos, s.index[pos]);
    forall i: nat
      ensures Found(s.phase.data + [r], i) ==
                if r.Msg? && r.pos == i then Some(r.line) else Found(s.phase.data, i)
      ensures FoundEmail(s.phase.data + [r], i) == FoundEmail(s.phase.data, i)
    {
      FoundAppend(s.phase.data, [r], i);
      FoundOne(r, i);
    }
    var t := Next(s, Read(pos));
    assert forall i: nat :: LiveLine(t, i) == LiveLine(s, i) && (IsPending(t, i) <==> IsPending(s, i));
    assert forall e: nat :: IsRenamed(t, e) <==> IsRenamed(s, e);
    assert Shape(t);
    assert FileLines(t) && FileEmails(t);
    assert Data(t);
  }

  lemma FinishKeeps(s: State)
    requires Inv(s) && Enabled(s, Finish)
    ensures Inv(Next(s, Finish))
  {
    hide Found, FoundEmail;
    var t := Next(s, Finish);
    if s.phase.Appending? {
      forall i: nat
        ensures Found(t.file.value, i) ==
                  if Found(s.phase.data, i).Some? then Found(s.phase.data, i) else Found(s.file.value, i)
        ensures FoundEmail(t.file.value, i) ==
                  if FoundEmail(s.phase.data, i).Some? then FoundEmail(s.phase.data, i) else FoundEmail(s.file.value, i)
      {
        FoundAppend(s.file.value, s.phase.data, i);
      }
    }
    FinishMeaning(s);
    hide Next, LiveLine;
    assert Shape(t);
    assert FileLines(t);
    assert FileEmails(t);
  }

  lemma FinishMeaning(s: State)
    requires Enabled(s, Finish)
    ensures var t := Next(s, Finish);
            && t == s.(file := t.file, changes := t.changes, lines := t.lines, phase := Idle)
            && t.file.Some? && (s.phase.Rewriting? ==> t.file.value == s.phase.data)
            && (forall i: nat :: LiveLine(t, i) == LiveLine(s, i))
            && (forall i: nat :: IsPending(t, i) <==> i in s.modified)
            && (forall e: nat :: IsRenamed(t, e) <==> e in s.renamed)
  {}

  /** What is left of a failed write concerns only messages and addresses that are
      put back. */
  lemma TornIsHarmless(data: seq<Record>, n: nat, torn: seq<Record>, i: nat)
    requires Torn(data, n, torn)
    ensures Found(data, i) == None ==> Found(data[..n] + torn, i) == None
    ensures FoundEmail(data, i) == None ==> FoundEmail(data[..n] + torn, i) == None
  {
    hide Found, FoundEmail;
    FoundAppend(data[..n], torn, i);
    FoundAppend(data[..n], data[n..], i);
    assert data[..n] + data[n..] == data;
    if torn == [] {
      assert data[..n] + torn == data[..n];
    } else {
      FoundAppend([data[n]], data[n + 1..], i);
      FoundOne(data[n], i);
      FoundOne(torn[0], i);
      assert torn == [torn[0]] && [data[n]] + data[n + 1..] == data[n..];
    }
  }

  lemma PutBackKeeps(s: State)
    requires Inv(s) && !s.phase.Idle?
    ensures Inv(PutBack(s))
  {
    hide Found, FoundEmail, Data;
    var t := PutBack(s);
    assert forall i: nat :: LiveLine(t, i) == LiveLine(s, i) && (IsPending(t, i) <==> IsPending(s, i));
    assert forall e: nat :: IsRenamed(t, e) <==> IsRenamed(s, e);
    hide LiveLine, IsPending, IsRenamed;
    assert Shape(t);
    assert FileLines(t) && FileEmails(t);
    assert Data(t) by { NoData(t); }
  }

  lemma NoData(s: State)
    requires s.phase.Idle?
    ensures Data(s)
  {}

  lemma BackUpKeeps(s: State, age: real)
    requires Inv(s) && Enabled(s, BackUp(age))
    ensures Inv(Next(s, BackUp(age)))
  {
    hide Found, FoundEmail;
    var t := Next(s, BackUp(age));
    assert forall i: nat :: LiveLine(t, i) == LiveLine(s, i) && (IsPending(t, i) <==> IsPending(s, i));
    assert forall e: nat :: IsRenamed(t, e) <==> IsRenamed(s, e);
    hide LiveLine;
    assert Shape(t);
    assert FileLines(t) && FileEmails(t);
    assert Data(t);
  }

  lemma FailKeeps(s: State, n: nat, torn: seq<Record>)
    requires Inv(s) && Enabled(s, Fail(n, torn))
    ensures Inv(Next(s, Fail(n, torn)))
  {
    PutBackKeeps(s);
    hide Found, FoundEmail, Torn;
    if s.phase.Appending? && s.phase.todo == {} {
      var t, part := Next(s, Fail(n, torn)), s.phase.data[..n] + torn;
      assert s.file.value + s.phase.data[..n] + torn == s.file.value + part;
      assert t == PutBack(s).(file := Some(s.file.value + part));
      forall i: nat
        ensures Found(s.phase.data, i) == None ==> Found(s.file.value + part, i) == Found(s.file.value, i)
        ensures FoundEmail(s.phase.data, i) == None ==> FoundEmail(s.file.value + part, i) == FoundEmail(s.file.value, i)
      {
        TornIsHarmless(s.phase.data, n, torn, i);
        FoundAppend(s.file.value, part, i);
      }
      hide Next, LiveLine;
      assert Shape(t) by { SameShape(PutBack(s), t); }
      assert FileLines(t) && FileEmails(t);
      assert Data(t);
    } else {
      hide Inv;
    }
  }

  lemma SameShape(s: State, t: State)
    requires Shape(s) && t == s.(file := t.file)
    ensures Shape(t) && forall i: nat :: LiveLine(t, i) == LiveLine(s, i)
  {
    assert forall i: nat :: IsPending(t, i) <==> IsPending(s, i);
  }

  /** Every step keeps the invariant, whatever edits come between the steps of a save
      and wherever it fails. */
  lemma StepKeepsInv(s: State, e: Event)
    requires Inv(s) && Enabled(s, e)
    ensures Inv(Next(s, e))
  {
    match e
    case Edit(i, line) => EditKeeps(s, i, line);
    case AddEmail(text) => AddEmailKeeps(s, text);
    case Rename(n, text) => RenameKeeps(s, n, text);
    case BeginChanges(quitting) => BeginChangesKeeps(s, quitting);
    case BeginSave => RewriteKeeps(s, s.modified, s.saved);
    case EnterSave =>
      RewriteKeeps(s, s.phase.mods + s.modified, s.phase.was);
    case Read(pos) => ReadKeeps(s, pos);
    case BackUp(age) => BackUpKeeps(s, age);
    case Finish => FinishKeeps(s);
    case Fail(n, torn) => FailKeeps(s, n, torn);
  }

  lemma {:induction false} RunKeepsInv(s: State, events: seq<Event>)
    requires Inv(s) && Possible(s, events)
    ensures Inv(Run(s, events))
    decreases |events|
  {
    if events != [] {
      StepKeepsInv(s, events[0]);
      RunKeepsInv(Next(s, events[0]), events[1..]);
    }
  }

  // ----- What the file holds

  /** Whatever happened, replaying the file gives the line of every message that is
      not marked as modified or being saved, and every saved address that was not
      renamed. */
  lemma ReplayGivesIndex(events: seq<Event>)
    requires Possible(START, events) && Run(START, events).file.Some?
    ensures var s := Run(START, events);
            && (forall i :: 0 <= i < |s.index| && !IsPending(s, i) ==> LineAt(s.file, i) == s.index[i])
            && (forall e :: 0 <= e < Saved(s) <= |s.emails| && !IsRenamed(s, e) ==> EmailAt(s.file, e) == s.emails[e])
  {
    StartHasInv();
    hide Found, FoundEmail;
    RunKeepsInv(START, events);
  }

  lemma StartHasInv()
    ensures Inv(START)
  {}

  /** Between saves the index can be read back, up to the modified messages, exactly
      when the file is there, or there is nothing else to read. */
  lemma ReplayGivesIndexExactly(s: State)
    requires Inv(s) && s.phase.Idle?
    ensures (forall i :: 0 <= i < |s.index| && i !in s.modified ==> LineAt(s.file, i) == s.index[i]) <==>
            s.file.Some? || forall i :: 0 <= i < |s.index| && i !in s.modified ==> s.index[i] == ""
  {
    hide Found;
  }

  /** The file goes away only when a full save moves it out of the way, and is back
      when that save gets through. */
  lemma FileIsMovedByBackUp(s: State, e: Event)
    requires Inv(s) && Enabled(s, e)
    ensures s.file.Some? && Next(s, e).file.None? <==> s.file.Some? && e.BackUp? && !IsYoung(e.age)
    ensures e.Finish? ==> Next(s, e).file.Some?
  {}

  lemma {:induction false} RunSnoc(s: State, events: seq<Event>, e: Event)
    requires Possible(s, events) && Enabled(Run(s, events), e)
    ensures Possible(s, events + [e]) && Run(s, events + [e]) == Next(Run(s, events), e)
    decreases |events|
  {
    hide Enabled, Next;
    if events == [] {
      assert (events + [e])[0] == e && (events + [e])[1..] == [];
    } else {
      RunSnoc(Next(s, events[0]), events[1..], e);
      assert (events + [e])[1..] == events[1..] + [e];
    }
  }

  /** A full save that fails after the old file was moved away leaves no file behind,
      and messages that were saved before are not marked to be saved again: they are
      lost until the next full save.  That happens exactly if the old file was old
      enough to be backed up. */
  lemma FailedSaveLosesFile(s: State, age: real)
    requires Inv(s) && Enabled(s, BackUp(age)) && s.file.Some?
    ensures var r := Next(Next(s, BackUp(age)), Fail(0, []));
            && r.phase.Idle? && r.index == s.index && (forall i: nat :: i in r.modified <==> IsPending(s, i))
            && (r.file.Some? <==> IsYoung(age))
            && ((forall i :: 0 <= i < |r.index| && i !in r.modified ==> LineAt(r.file, i) == r.index[i]) <==>
                IsYoung(age) || forall i :: 0 <= i < |r.index| && i !in r.modified ==> r.index[i] == "")
  {
    var r1 := Next(s, BackUp(age));
    var r := Next(r1, Fail(0, []));
    StepKeepsInv(s, BackUp(age));
    StepKeepsInv(r1, Fail(0, []));
    ReplayGivesIndexExactly(r);
    hide Inv, LineAt;
  }

  /** Addresses that are in the file already are never appended again, so a renamed
      one is read back with its old name until the next full save. */
  lemma AppendKeepsSavedEmails(s: State, e: nat)
    requires Inv(s) && Enabled(s, Finish) && s.phase.Appending? && e < s.phase.was
    ensures EmailAt(Next(s, Finish).file, e) == EmailAt(s.file, e)
  {
    FoundAppend(s.file.value, s.phase.data, e);
    hide Found, FoundEmail;
  }

  // ----- Loading

  /** The index as loading it from a file builds it, line by line. */
  function Loaded(log: seq<Record>): seq<string> {
    if log == [] then []
    else
      var before, last := Loaded(log[..|log| - 1]), log[|log| - 1];
      if last.Msg? then Extended(before, last.pos + 1)[last.pos := last.line] else before
  }

  function LoadedEmails(log: seq<Record>): seq<string> {
    if log == [] then []
    else
      var before, last := LoadedEmails(log[..|log| - 1]), log[|log| - 1];
      if last.Email? then Extended(before, last.eid + 1)[last.eid := last.text] else before
  }

  lemma {:induction false} LoadedLines(log: seq<Record>, i: nat)
    ensures OrBlank(Found(log, i)) == if i < |Loaded(log)| then Loaded(log)[i] else ""
    ensures OrBlank(FoundEmail(log, i)) == if i < |LoadedEmails(log)| then LoadedEmails(log)[i] else ""
    ensures i >= |Loaded(log)| ==> Found(log, i) == None
    ensures i >= |LoadedEmails(log)| ==> FoundEmail(log, i) == None
  {
    if log != [] { LoadedLines(log[..|log| - 1], i); }
  }

  lemma {:induction false} LoadedSize(log: seq<Record>)
    ensures Loaded(log) != [] ==> Found(log, |Loaded(log)| - 1).Some?
  {
    if log != [] {
      LoadedSize(log[..|log| - 1]);
    }
  }

  ghost predicate NoBlankLines(log: seq<Record>) {
    forall k :: 0 <= k < |log| && log[k].Msg? ==> log[k].line != ""
  }

  ghost predicate WritesNoBlankLines(s: State) {
    && (s.file.Some? ==> NoBlankLines(s.file.value))
    && (s.phase.Appending? || s.phase.Rewriting? ==> NoBlankLines(s.phase.data))
  }

  lemma {:induction false} EmailRecordsHaveNoLines(emails: seq<string>, first: nat, end: nat)
    requires first <= end && end <= |emails|
    ensures NoBlankLines(EmailRecords(emails, first, end))
    decreases end
  {
    if first < end { EmailRecordsHaveNoLines(emails, first, end - 1); }
  }

  lemma StepWritesNoBlankLines(s: State, e: Event)
    requires Inv(s) && Enabled(s, e) && WritesNoBlankLines(s)
    ensures WritesNoBlankLines(Next(s, e))
  {
    hide Found, FoundEmail, AppendData, FileLines, FileEmails;
    EmailRecordsHaveNoLines(s.emails, 0, |s.emails|);
    EmailRecordsHaveNoLines(s.emails, s.saved, |s.emails|);
    if e.Read? && s.phase.Appending? { TodoIsPending(s, e.pos); }
  }

  lemma TodoIsPending(s: State, pos: nat)
    requires Inv(s) && s.phase.Appending? && pos in s.phase.todo
    ensures pos < |s.index| && s.index[pos] != ""
  {
    hide Found, FoundEmail;
    assert IsPending(s, pos);
  }

  lemma {:induction false} RunWritesNoBlankLines(s: State, events: seq<Event>)
    requires Inv(s) && Possible(s, events) && WritesNoBlankLines(s)
    ensures WritesNoBlankLines(Run(s, events))
    decreases |events|
  {
    hide Inv, WritesNoBlankLines, Enabled, Next;
    if events != [] {
      StepKeepsInv(s, events[0]);
      StepWritesNoBlankLines(s, events[0]);
      RunWritesNoBlankLines(Next(s, events[0]), events[1..]);
    }
  }

  lemma {:induction false} FoundIsWritten(log: seq<Record>, i: nat)
    requires NoBlankLines(log)
    ensures Found(log, i) != Some("")
  {
    if log != [] {
      FoundIsWritten(log[..|log| - 1], i);
    }
  }

  /** Whenever a save has left nothing modified, loading the file gives the index back,
      whichever way it was written and whatever failed before. */
  lemma SaveThenLoad(events: seq<Event>)
    requires Possible(START, events)
    ensures var s := Run(START, events);
            s.phase.Idle? && s.file.Some? && s.modified == {} ==> Loaded(s.file.value) == s.index
  {
    var s := Run(START, events);
    StartHasInv();
    RunKeepsInv(START, events);
    RunWritesNoBlankLines(START, events);
    hide Run, Possible;
    if s.phase.Idle? && s.file.Some? && s.modified == {} {
      LoadedIsIndex(s);
    }
  }

  lemma LoadedIsIndex(s: State)
    requires Inv(s) && WritesNoBlankLines(s) && s.phase.Idle? && s.file.Some? && s.modified == {}
    ensures Loaded(s.file.value) == s.index
  {
    var log := s.file.value;
    hide Found, Loaded, FoundEmail;
    LoadedSize(log);
    forall i: nat
      ensures OrBlank(Found(log, i)) == if i < |Loaded(log)| then Loaded(log)[i] else ""
      ensures i >= |Loaded(log)| ==> Found(log, i) == None
      ensures Found(log, i) != Some("")
    {
      LoadedLines(log, i);
      FoundIsWritten(log, i);
    }
    assert forall i: nat :: OrBlank(Found(log, i)) == LiveLine(s, i);
    assert s.index != [] ==> LiveLine(s, |s.index| - 1) != "";
    assert |Loaded(log)| == |s.index|;
  }

  // ----- The object

  /** What comes of writing data: all of it, or the first n records and part of the
      next. */
  datatype Written = All | Part(n: nat, torn: seq<Record>)

  /** What happens to a full save: writing the new file, then backing up the old one
      (which is left alone while its age is small), then moving the new file into place. */
  datatype Weather = Weather(written: bool, age: real, moved: bool)

  /** A disk that writes all of the data or leaves a torn end. */
  ghost predicate HonestDisk(disk: seq<Record> -> Written) {
    forall data :: disk(data).Part? ==> Torn(data, disk(data).n, disk(data).torn)
  }

  /** The events are a run from s to t. */
  ghost predicate Leads(s: State, events: seq<Event>, t: State) {
    Possible(s, events) && Run(s, events) == t && Inv(t)
  }

  lemma LeadsNowhere(s: State)
    requires Inv(s)
    ensures Leads(s, [], s)
  {
    hide Inv;
  }

  lemma LeadsToValid(s: State, events: seq<Event>, t: State)
    requires Leads(s, events, t)
    ensures Inv(t)
  {
    hide Inv, Possible, Run;
  }

  lemma LeadsOn(s: State, events: seq<Event>, t: State, e: Event)
    requires Leads(s, events, t) && Enabled(t, e)
    ensures Leads(s, events + [e], Next(t, e))
  {
    hide Inv, Possible, Run, Next, Enabled;
    RunSnoc(s, events, e);
    StepKeepsInv(t, e);
  }

  /** phase stands for the local variables of a save in progress. */
  class MetadataIndex {
    var index: seq<string>
    var modified: set<nat>
    var emails: seq<string>
    var emailsSaved: nat
    var savedChanges: nat
    var savedLines: nat
    var file: Option<seq<Record>>
    ghost var renamed: set<nat>
    ghost var phase: Phase

    ghost function Value(): State
      reads this
    {
      State(index, modified, emails, emailsSaved, renamed, savedChanges, savedLines, file, phase)
    }

    ghost predicate Valid()
      reads this
    {
      Inv(Value()) && phase.Idle?
    }

    constructor ()
      ensures Valid() && Value() == START
    {
      index, modified, emails, emailsSaved := [], {}, [], 0;
      savedChanges, savedLines, file, renamed, phase := 0, 0, None, {}, Idle;
      StartHasInv();
    }

    /** Put a message in the index, after blank lines if it is beyond the end. */
    method SetMsg(i: nat, line: string)
      requires Valid() && line != ""
      modifies this`index, this`modified
      ensures Valid() && Value() == Next(old(Value()), Edit(i, line))
      ensures |index| == (if i < |old(index)| then |old(index)| else i + 1) && modified == old(modified) + {i}
      ensures forall k :: 0 <= k < |index| ==>
        index[k] == if k == i then line else if k < |old(index)| then old(index)[k] else ""
    {
      StepKeepsInv(Value(), Edit(i, line));
      hide Inv;
      ghost var before := index;
      while |index| <= i
        modifies this`index
        invariant before <= index && |index| <= if |before| > i + 1 then |before| else i + 1
        invariant forall k :: |before| <= k < |index| ==> index[k] == ""
      {
        index := index + [""];
      }
      assert index == Extended(before, i + 1);
      index := index[i := line];
      modified := modified + {i};
    }

    /** Add an address, or give the one in slot n another name. */
    method SetEmail(n: Option<nat>, text: string)
      requires Valid() && (n.Some? ==> n.value < |emails|)
      modifies this`emails, this`renamed
      ensures Valid()
      ensures Value() == Next(old(Value()), if n.Some? then Rename(n.value, text) else AddEmail(text))
      ensures emails == if n.Some? then old(emails)[n.value := text] else old(emails) + [text]
      ensures renamed == if n.Some? && n.value < emailsSaved then old(renamed) + {n.value} else old(renamed)
    {
      StepKeepsInv(Value(), if n.Some? then Rename(n.value, text) else AddEmail(text));
      hide Inv;
      if n.Some? {
        emails := emails[n.value := text];
        renamed := if n.value < emailsSaved then renamed + {n.value} else renamed;
      } else {
        emails := emails + [text];
      }
    }

    /** Append what was modified to the file, or rewrite the file if it has too many
        sections or outdated lines: a run of the steps above with no edits in between. */
    method SaveChanges(quitting: bool, disk: seq<Record> -> Written, weather: Weather)
      returns (ok: bool, ghost events: seq<Event>)
      requires Valid() && HonestDisk(disk)
      modifies this
      ensures Valid() && index == old(index) && emails == old(emails)
      ensures Leads(old(Value()), events, Value())
      ensures ok ==> modified == {} && emailsSaved == |emails|
      ensures !ok ==> modified == old(modified) && emailsSaved == old(emailsSaved)
      ensures (forall data :: disk(data).All?) && weather.written && weather.moved ==> ok
      ensures ok && file.Some? ==> forall i :: 0 <= i < |index| ==> LineAt(file, i) == index[i]
      ensures old(modified) == {} && old(emailsSaved) == |emails| ==> ok && file == old(file)
      ensures old(modified) != {} || old(emailsSaved) != |emails| ==>
        if Rewrites(|emails| + |index|, old(savedChanges), old(savedLines), old(file).Some?, quitting) then
          && (ok <==> weather.written && weather.moved)
          && if ok then
               file.Some? && |file.value| == 2 + |emails| + |index| && savedChanges == 0 && savedLines == |emails| + |index|
             else
               && savedChanges == old(savedChanges) && savedLines == old(savedLines)
               && file == if weather.written && weather.age > 10.0 then None else old(file)
        else
          && old(file).Some? && file.Some? && old(file.value) <= file.value
          && (ok ==> |file.value| == |old(file.value)| + 1 + (|emails| - old(emailsSaved)) + |old(modified)|)
          && savedChanges == old(savedChanges) + (if ok then 1 else 0)
          && savedLines == old(savedLines) + if ok then |emails| - old(emailsSaved) + |old(modified)| else 0
    {
      hide Inv, Possible, Run, Next, Leads, Enabled, Rewrites, EmailRecords, HonestDisk, LineAt, IsYoung;
      ghost var s := Value();
      var mods, was, total := modified, emailsSaved, |emails|;
      LeadsNowhere(s);
      BeginIsEnabled(s, quitting);
      LeadsOn(s, [], s, BeginChanges(quitting));
      events := [] + [BeginChanges(quitting)];
      BeginNext(s, quitting);
      if was == total && mods == {} {
        LeadsToFile(s, events, Value());
        return true, events;
      }
      if Rewrites(total + |index|, savedChanges, savedLines, file.Some?, quitting) {
        modified := {};
        phase := Chosen(mods, was);
        ok, events := WriteAll(weather, mods, s, events);
        if !ok {
          modified := modified + mods;
          emailsSaved := was;
        }
      } else {
        ok, events := AppendChanges(disk, s, events);
      }
      LeadsToValid(s, events, Value());
      LeadsToFile(s, events, Value());
    }

    /** Append a section with what was modified. */
    method AppendChanges(disk: seq<Record> -> Written, ghost s: State, ghost before: seq<Event>)
      returns (ok: bool, ghost events: seq<Event>)
      requires HonestDisk(disk) && phase == Idle && emailsSaved <= |emails|
      requires Leads(s, before, Value().(modified := {}, saved := |emails|, phase :=
        Appending(modified, emailsSaved, modified, [Mark] + EmailRecords(emails, emailsSaved, |emails|))))
      modifies this
      ensures Leads(s, events, Value()) && phase.Idle? && index == old(index) && emails == old(emails)
      ensures ok ==> modified == {} && emailsSaved == |emails|
      ensures !ok ==> modified == old(modified) && emailsSaved == old(emailsSaved)
      ensures (forall data :: disk(data).All?) ==> ok
      ensures old(file).Some? && file.Some? && old(file.value) <= file.value
      ensures ok ==> |file.value| == |old(file.value)| + 1 + (|emails| - old(emailsSaved)) + |old(modified)|
      ensures savedChanges == old(savedChanges) + if ok then 1 else 0
      ensures savedLines == old(savedLines) + if ok then |emails| - old(emailsSaved) + |old(modified)| else 0
    {
      hide Inv, Possible, Run, Next, Leads, Enabled, EmailRecords, HonestDisk;
      var mods, was := modified, emailsSaved;
      modified := {};
      var data := EmailLines(was);
      data := [Mark] + data;
      emailsSaved := |emails|;
      phase := Appending(mods, was, mods, data);
      data, events := ReadLines(mods, was, data, s, before);
      ok, events := Append(mods, was, data, disk, s, events);
      assert {} + mods == mods;
    }

    /** Write the whole index to the file. */
    method Save(weather: Weather) returns (ok: bool, ghost events: seq<Event>)
      requires Valid()
      modifies this
      ensures Valid() && index == old(index) && emails == old(emails)
      ensures Leads(old(Value()), events, Value())
      ensures ok <==> weather.written && weather.moved
      ensures ok ==> modified == {} && emailsSaved == |emails|
      ensures !ok ==> modified == old(modified) && emailsSaved == old(emailsSaved)
      ensures ok ==> file.Some? && |file.value| == 2 + |emails| + |index|
      ensures ok ==> forall i :: 0 <= i < |index| ==> LineAt(file, i) == index[i]
      ensures !ok ==> file == if weather.written && weather.age > 10.0 then None else old(file)
      ensures ok ==> savedChanges == 0 && savedLines == |emails| + |index|
    {
      hide Inv, Possible, Run, Next, Enabled, LineAt;
      LeadsNowhere(Value());
      ok, events := WriteAll(weather, {}, Value(), []);
      assert modified + {} == modified;
      LeadsToFile(old(Value()), events, Value());
    }

    /** Write the whole index to the file.  SaveChanges, when it comes to this, has
        taken over some modified messages before, and puts them back itself. */
    method WriteAll(weather: Weather, ghost taken: set<nat>, ghost s: State, ghost before: seq<Event>)
      returns (ok: bool, ghost events: seq<Event>)
      requires Leads(s, before, Value()) && ((phase == Idle && taken == {}) || phase == Chosen(taken, emailsSaved))
      modifies this
      ensures index == old(index) && emails == old(emails) && phase == Idle
      ensures ok <==> weather.written && weather.moved
      ensures ok ==> Leads(s, events, Value()) && modified == {} && emailsSaved == |emails|
      ensures !ok ==> Leads(s, events, Value().(modified := modified + taken))
      ensures !ok ==> modified == old(modified) && emailsSaved == old(emailsSaved)
      ensures ok ==> file.Some? && |file.value| == 2 + |emails| + |index|
      ensures !ok ==> file == if weather.written && weather.age > 10.0 then None else old(file)
      ensures savedChanges == (if ok then 0 else old(savedChanges))
      ensures savedLines == (if ok then |emails| + |index| else old(savedLines))
    {
      hide Inv, Possible, Run, Leads, Next, Enabled, EmailRecords, IsYoung;
      var mods, was := modified, emailsSaved;
      ghost var earlier := renamed;
      events := EnterRewrite(s, before, Value(), taken);
      modified := {};
      renamed := {};
      var data := EmailLines(0);
      data := [Note, Note] + data;
      emailsSaved := |emails|;
      phase := Rewriting(taken + mods, was, 0, |index|, data, earlier, false);
      data, events := AllLines(data, s, events);
      ok, events := Install(data, weather, s, events);
      if !ok {
        modified := modified + mods;
        emailsSaved := was;
        renamed := renamed + earlier;
        assert modified + taken == {} + (taken + mods);
        phase := Idle;
      }
    }

    /** The lines of all messages, after the header. */
    method AllLines(header: seq<Record>, ghost s: State, ghost before: seq<Event>)
      returns (data: seq<Record>, ghost events: seq<Event>)
      requires Leads(s, before, Value()) && phase.Rewriting?
      requires phase.next == 0 && phase.size == |index| && phase.data == header && !phase.backedUp
      modifies this`phase
      ensures Leads(s, events, Value()) && phase == old(phase).(next := |index|, data := data)
      ensures |data| == |header| + |index|
    {
      hide Inv, Possible, Run, Leads, Next, Enabled;
      data, events := header, before;
      var i, size := 0, |index|;
      while i < size
        invariant i <= size == |index|
        invariant Leads(s, events, Value()) && phase == old(phase).(next := i, data := data) && |data| == |header| + i
      {
        events := RewriteRead(s, events, Value());
        data := data + [LineRecord(i, index[i])];
        i := i + 1;
        phase := phase.(next := i, data := data);
      }
    }

    /** Write the new file and put it in the place of the old one. */
    method Install(data: seq<Record>, weather: Weather, ghost s: State, ghost before: seq<Event>)
      returns (ok: bool, ghost events: seq<Event>)
      requires Leads(s, before, Value()) && phase.Rewriting? && modified == {}
      requires phase.next == phase.size == |index| && phase.data == data && !phase.backedUp
      modifies this`file, this`phase, this`savedChanges, this`savedLines
      ensures ok <==> weather.written && weather.moved
      ensures ok ==> Leads(s, events, Value()) && phase == Idle
      ensures !ok ==> phase.Rewriting? && phase == old(phase).(backedUp := phase.backedUp)
      ensures !ok ==> Leads(s, events, PutBack(Value()))
      ensures file == if ok then Some(data) else if weather.written && weather.age > 10.0 then None else old(file)
      ensures savedChanges == (if ok then 0 else old(savedChanges))
      ensures savedLines == (if ok then emailsSaved + |index| else old(savedLines))
    {
      hide Inv, Possible, Run, Leads, Next, Enabled;
      events := before;
      ok := weather.written;
      if ok {
        events := RewriteBackUp(s, events, Value(), weather.age);
        if file.Some? && !IsYoung(weather.age) {
          file := None;
        }
        phase := phase.(backedUp := true);
        ok := weather.moved;
      }
      if ok {
        events := RewriteFinish(s, events, Value());
        file := Some(data);
        savedChanges := 0;
        savedLines := emailsSaved + |index|;
        phase := Idle;
      } else {
        events := RewriteFail(s, events, Value());
      }
    }

    /** Read the file, line by line, into an object that is new. */
    method Load()
      requires modified == {} && index == [] && emails == [] && phase == Idle && renamed == {}
      requires file.Some? ==> NoBlankLines(file.value)
      modifies this`index, this`emails, this`emailsSaved, this`savedChanges, this`savedLines
      ensures Valid()
      ensures index == (if file.Some? then Loaded(file.value) else [])
      ensures emails == (if file.Some? then LoadedEmails(file.value) else []) && emailsSaved == |emails|
      ensures file.Some? ==>
        && savedChanges == old(savedChanges) + |Marks(file.value, |file.value|)|
        && savedLines == old(savedLines) + |Lines(file.value, |file.value|)|
    {
      hide Inv, Loaded, LoadedEmails, Marks, Lines;
      if file.Some? {
        var log, k := file.value, 0;
        LoadedNothing(log);
        CountedNothing(log);
        while k < |log|
          invariant 0 <= k <= |log|
          invariant index == Loaded(log[..k]) && emails == LoadedEmails(log[..k])
          invariant savedChanges == old(savedChanges) + |Marks(log, k)| && savedLines == old(savedLines) + |Lines(log, k)|
        {
          LoadedMore(log, k);
          CountedMore(log, k);
          match log[k] {
            case Mark => savedChanges := savedChanges + 1;
            case Note =>
            case Email(e, text) =>
              emails := Extended(emails, e + 1)[e := text];
              savedLines := savedLines + 1;
            case Msg(pos, line) =>
              index := Extended(index, pos + 1)[pos := line];
              savedLines := savedLines + 1;
          }
          k := k + 1;
        }
        assert log[..k] == log;
      }
      emailsSaved := |emails|;
      LoadedIsValid(Value());
    }

    /** The addresses from the given one on. */
    method EmailLines(first: nat) returns (data: seq<Record>)
      requires first <= |emails|
      ensures data == EmailRecords(emails, first, |emails|) && |data| == |emails| - first
    {
      data := [];
      var e := first;
      while e < |emails|
        invariant first <= e <= |emails| && data == EmailRecords(emails, first, e) && |data| == e - first
      {
        data := data + [Email(e, emails[e])];
        e := e + 1;
      }
    }

    /** The lines of the modified messages, in any order. */
    method ReadLines(mods: set<nat>, was: nat, header: seq<Record>, ghost s: State, ghost before: seq<Event>)
      returns (data: seq<Record>, ghost events: seq<Event>)
      requires Leads(s, before, Value()) && phase == Appending(mods, was, mods, header)
      modifies this`phase
      ensures Leads(s, events, Value()) && phase == Appending(mods, was, {}, data)
      ensures |data| == |header| + |mods|
    {
      hide Inv, Possible, Run, Next, Leads, Enabled;
      data, events := header, before;
      var todo := mods;
      while todo != {}
        invariant Leads(s, events, Value()) && phase == Appending(mods, was, todo, data)
        invariant |data| == |header| + |mods| - |todo|
        decreases todo
      {
        var pos :| pos in todo;
        ReadNext(s, events, Value(), pos);
        events := events + [Read(pos)];
        data := data + [Msg(pos, index[pos])];
        todo := todo - {pos};
        phase := Appending(mods, was, todo, data);
      }
    }

    /** Write the new section, or put back what was taken over. */
    method Append(mods: set<nat>, was: nat, data: seq<Record>, disk: seq<Record> -> Written,
                  ghost s: State, ghost before: seq<Event>)
      returns (ok: bool, ghost events: seq<Event>)
      requires Leads(s, before, Value()) && phase == Appending(mods, was, {}, data) && HonestDisk(disk)
      modifies this
      ensures Leads(s, events, Value()) && phase.Idle? && index == old(index) && emails == old(emails)
      ensures ok <==> disk(data).All?
      ensures ok ==> modified == old(modified) && emailsSaved == old(emailsSaved)
      ensures !ok ==> modified == old(modified) + mods && emailsSaved == was
      ensures old(file).Some? && file.Some? && old(file.value) <= file.value
      ensures ok ==> file.value == old(file.value) + data
      ensures savedChanges == old(savedChanges) + if ok then 1 else 0
      ensures savedLines == old(savedLines) + if ok then old(emailsSaved) - was + |mods| else 0
    {
      hide Inv, Possible, Run, Leads;
      AppendingFacts(s, before, Value());
      match disk(data) {
        case All =>
          LeadsOn(s, before, Value(), Finish);
          events := before + [Finish];
          file := Some(file.value + data);
          savedChanges := savedChanges + 1;
          savedLines := savedLines + (emailsSaved - was) + |mods|;
          ok := true;
        case Part(n, torn) =>
          LeadsOn(s, before, Value(), Fail(n, torn));
          events := before + [Fail(n, torn)];
          file := Some(file.value + data[..n] + torn);
          modified := modified + mods;
          emailsSaved := was;
          assert renamed + {} == renamed;
          ok := false;
      }
      phase := Idle;
    }
  }

  /** A save that gets through leaves every line in the file. */
  lemma LeadsToFile(s: State, events: seq<Event>, t: State)
    requires Leads(s, events, t)
    ensures t.phase.Idle? && t.modified == {} && t.file.Some? ==>
      forall i :: 0 <= i < |t.index| ==> LineAt(t.file, i) == t.index[i]
  {
    hide Found, FoundEmail, Possible, Run;
  }

  /** When a save rewrites the file: it is not there, or it has more sections than one
      for 200 items, or more lines than a tenth above the items, with 5000 items to spare. */
  lemma RewritesMeaning(items: nat, changes: nat, lines: nat, hasFile: bool, quitting: bool)
    ensures Rewrites(items, changes, lines, hasFile, quitting) <==>
      || !hasFile
      || (!quitting && (changes > (items + 5000) / 200 || lines > items + (items + 5000) / 10))
  {}

  lemma BeginIsEnabled(s: State, quitting: bool)
    requires Inv(s) && s.phase.Idle?
    ensures Enabled(s, BeginChanges(quitting)) && s.saved <= |s.emails|
  {
    hide Found, FoundEmail;
  }

  lemma BeginNext(s: State, quitting: bool)
    requires s.phase.Idle? && s.saved <= |s.emails|
    ensures var t := Next(s, BeginChanges(quitting));
            if s.saved == |s.emails| && s.modified == {} then t == s
            else if Rewrites(|s.emails| + |s.index|, s.changes, s.lines, s.file.Some?, quitting) then t == s.(modified := {}, phase := Chosen(s.modified, s.saved))
            else
              var data := [Mark] + EmailRecords(s.emails, s.saved, |s.emails|);
              t == s.(modified := {}, saved := |s.emails|, phase := Appending(s.modified, s.saved, s.modified, data))
  {
    hide Rewrites, EmailRecords;
  }

  lemma ReadNext(s: State, events: seq<Event>, t: State, pos: nat)
    requires Leads(s, events, t) && t.phase.Appending? && pos in t.phase.todo
    ensures pos < |t.index|
    ensures Leads(s, events + [Read(pos)],
                  t.(phase := t.phase.(todo := t.phase.todo - {pos}, data := t.phase.data + [Msg(pos, t.index[pos])])))
  {
    TodoIsPending(t, pos);
    LeadsOn(s, events, t, Read(pos));
    hide Inv, Possible, Run;
  }

  lemma AppendingFacts(s: State, events: seq<Event>, t: State)
    requires Leads(s, events, t) && t.phase.Appending?
    ensures t.file.Some? && t.phase.was <= t.saved
  {
    hide Found, FoundEmail;
  }

  lemma EnterRewrite(s: State, before: seq<Event>, t: State, taken: set<nat>) returns (events: seq<Event>)
    requires Leads(s, before, t)
    requires (t.phase == Idle && taken == {}) || t.phase == Chosen(taken, t.saved)
    ensures Leads(s, events, Rewrite(t, taken + t.modified, t.saved))
  {
    var e := if t.phase.Idle? then BeginSave else EnterSave;
    assert {} + t.modified == t.modified;
    LeadsOn(s, before, t, e);
    events := before + [e];
    hide Leads, Rewrite;
  }

  lemma RewritingFacts(s: State, events: seq<Event>, t: State)
    requires Leads(s, events, t) && t.phase.Rewriting?
    ensures t.phase.next <= t.phase.size <= |t.index|
  {
    hide Found, FoundEmail;
  }

  lemma RewriteRead(s: State, events: seq<Event>, t: State) returns (events': seq<Event>)
    requires Leads(s, events, t) && t.phase.Rewriting? && t.phase.next < t.phase.size
    ensures var i := t.phase.next;
            i < |t.index| &&
            Leads(s, events', t.(phase := t.phase.(next := i + 1, data := t.phase.data + [LineRecord(i, t.index[i])])))
  {
    RewritingFacts(s, events, t);
    LeadsOn(s, events, t, Read(t.phase.next));
    events' := events + [Read(t.phase.next)];
    hide Leads;
  }

  lemma RewriteBackUp(s: State, events: seq<Event>, t: State, age: real) returns (events': seq<Event>)
    requires Leads(s, events, t) && t.phase.Rewriting? && t.phase.next == t.phase.size && !t.phase.backedUp
    ensures Leads(s, events', t.(file := if IsYoung(age) then t.file else None, phase := t.phase.(backedUp := true)))
  {
    LeadsOn(s, events, t, BackUp(age));
    events' := events + [BackUp(age)];
    hide Leads;
  }

  lemma RewriteFinish(s: State, events: seq<Event>, t: State) returns (events': seq<Event>)
    requires Leads(s, events, t) && t.phase.Rewriting? && t.phase.backedUp
    ensures Leads(s, events', t.(file := Some(t.phase.data), changes := 0, lines := t.saved + t.phase.size, phase := Idle))
  {
    LeadsOn(s, events, t, Finish);
    events' := events + [Finish];
    hide Leads;
  }

  lemma RewriteFail(s: State, events: seq<Event>, t: State) returns (events': seq<Event>)
    requires Leads(s, events, t) && t.phase.Rewriting?
    ensures Leads(s, events', PutBack(t))
  {
    LeadsOn(s, events, t, Fail(0, []));
    events' := events + [Fail(0, [])];
    hide Leads;
  }

  lemma LoadedNothing(log: seq<Record>)
    ensures Loaded(log[..0]) == [] && LoadedEmails(log[..0]) == []
  {}

  /** The appended sections among the first k records. */
  function Marks(log: seq<Record>, k: nat): set<nat>
    requires k <= |log|
  {
    set j: nat | j < k && log[j].Mark?
  }

  /** The lines and addresses among the first k records. */
  function Lines(log: seq<Record>, k: nat): set<nat>
    requires k <= |log|
  {
    set j: nat | j < k && (log[j].Msg? || log[j].Email?)
  }

  lemma CountedNothing(log: seq<Record>)
    ensures Marks(log, 0) == {} && Lines(log, 0) == {}
  {}

  lemma CountedMore(log: seq<Record>, k: nat)
    requires k < |log|
    ensures |Marks(log, k + 1)| == |Marks(log, k)| + if log[k].Mark? then 1 else 0
    ensures |Lines(log, k + 1)| == |Lines(log, k)| + if log[k].Msg? || log[k].Email? then 1 else 0
  {
    hide Marks, Lines;
    MarksNext(log, k);
    LinesNext(log, k);
  }

  lemma MarksNext(log: seq<Record>, k: nat)
    requires k < |log|
    ensures k !in Marks(log, k) && Marks(log, k + 1) == if log[k].Mark? then Marks(log, k) + {k} else Marks(log, k)
  {}

  lemma LinesNext(log: seq<Record>, k: nat)
    requires k < |log|
    ensures k !in Lines(log, k)
    ensures Lines(log, k + 1) == if log[k].Msg? || log[k].Email? then Lines(log, k) + {k} else Lines(log, k)
  {}

  lemma LoadedMore(log: seq<Record>, k: nat)
    requires k < |log|
    ensures Loaded(log[..k + 1]) ==
              var before := Loaded(log[..k]);
              if log[k].Msg? then Extended(before, log[k].pos + 1)[log[k].pos := log[k].line] else before
    ensures LoadedEmails(log[..k + 1]) ==
              var before := LoadedEmails(log[..k]);
              if log[k].Email? then Extended(before, log[k].eid + 1)[log[k].eid := log[k].text] else before
  {
    assert log[..k + 1][..k] == log[..k];
  }

  lemma LoadedIsValid(s: State)
    requires s.phase.Idle? && s.modified == {} && s.renamed == {} && s.saved == |s.emails|
    requires s.index == (if s.file.Some? then Loaded(s.file.value) else [])
    requires s.emails == (if s.file.Some? then LoadedEmails(s.file.value) else [])
    requires s.file.Some? ==> NoBlankLines(s.file.value)
    ensures Inv(s)
  {
    hide Found, Loaded, FoundEmail, LoadedEmails;
    if s.file.Some? {
      var log := s.file.value;
      LoadedSize(log);
      forall i: nat
        ensures OrBlank(Found(log, i)) == if i < |s.index| then s.index[i] else ""
        ensures OrBlank(FoundEmail(log, i)) == if i < |s.emails| then s.emails[i] else ""
        ensures Found(log, i) != Some("")
      {
        LoadedLines(log, i);
        FoundIsWritten(log, i);
      }
    }
  }
}
