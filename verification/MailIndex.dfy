/** The mutable index: the methods that thread and unthread messages. */
module MailIndexThreads {
  import opened Wrappers
  import opened Base36
  import opened Threading

  /** Drop every copy of the id from the references and put it last. */
  function MoveToEnd<T(==)>(refs: seq<T>, id: T): seq<T> {
    WithoutId(refs, id) + [id]
  }

  function WithoutId<T(==)>(refs: seq<T>, id: T): (r: seq<T>)
    ensures id !in r
    ensures id !in refs ==> r == refs
  {
    if refs == [] then []
    else (if refs[0] == id then [] else [refs[0]]) + WithoutId(refs[1..], id)
  }

  /** `list.remove`. */
  function RemoveFirst<T(==)>(refs: seq<T>, id: T): (r: seq<T>)
    requires id in refs
    ensures |r| == |refs| - 1
  {
    if refs[0] == id then refs[1..] else [refs[0]] + RemoveFirst(refs[1..], id)
  }

  lemma {:induction false} WithoutOneCopy<T>(refs: seq<T>, id: T)
    requires id in refs
    ensures WithoutId(RemoveFirst(refs, id), id) == WithoutId(refs, id)
  {
    if refs[0] != id {
      WithoutOneCopy(refs[1..], id);
      assert RemoveFirst(refs, id)[1..] == RemoveFirst(refs[1..], id);
    }
  }

  function Lookup(msgids: map<MsgId, nat>, id: MsgId): Option<nat> {
    if id in msgids then Some(msgids[id]) else None
  }

  /** The position of the last reference to an unknown message. */
  function LastMissing(msgids: map<MsgId, nat>, refs: seq<MsgId>): (r: Option<nat>)
    ensures r.Some? ==> r.value < |refs| && refs[r.value] !in msgids
    ensures forall i :: 0 <= i < |refs| && refs[i] !in msgids ==> r.Some? && i <= r.value
  {
    if refs == [] then None
    else if refs[|refs| - 1] !in msgids then Some(|refs| - 1)
    else
      var r := LastMissing(msgids, refs[..|refs| - 1]);
      assert forall i :: 0 <= i < |refs| && refs[i] !in msgids ==> i < |refs| - 1 && refs[..|refs| - 1][i] == refs[i];
      r
  }

  /** The positions of the references, with the ghost standing in at its place. */
  function Resolve(msgids: map<MsgId, nat>, refs: seq<MsgId>, ghostAt: Option<nat>, ghostIdx: nat): seq<Option<nat>> {
    seq(|refs|, i requires 0 <= i < |refs| =>
      if ghostAt == Some(i) then Some(ghostIdx) else Lookup(msgids, refs[i]))
  }

  function Present(known: seq<Option<nat>>): seq<nat> {
    if known == [] then [] else
      var last := known[|known| - 1];
      Present(known[..|known| - 1]) + if last.Some? then [last.value] else []
  }

  lemma PresentInRange(known: seq<Option<nat>>, n: nat)
    requires forall i :: 0 <= i < |known| && known[i].Some? ==> known[i].value < n
    ensures forall i :: 0 <= i < |Present(known)| ==> Present(known)[i] < n
    ensures (exists i :: 0 <= i < |known| && known[i].Some?) ==> Present(known) != []
  {
    if known != [] {
      var front := known[..|known| - 1];
      assert forall i :: 0 <= i < |front| ==> front[i] == known[i];
      PresentInRange(front, n);
    }
  }

  /** In-Reply-To, when present, takes precedence over References. */
  function OrderedRefs(references: seq<MsgId>, inReplyTo: Option<MsgId>): seq<MsgId> {
    if inReplyTo.Some? then MoveToEnd(references, inReplyTo.value) else references
  }

  /** The index with the one ghost that stands for the closest missing ancestor. */
  function Grown(idx: Index, msgids: map<MsgId, nat>, refs: seq<MsgId>): Index {
    var missing := LastMissing(msgids, refs);
    if missing.Some? then idx + [Message(refs[missing.value], Alone(|idx|), [])] else idx
  }

  function RefIdxs(idx: Index, msgids: map<MsgId, nat>, refs: seq<MsgId>): seq<nat> {
    Present(Resolve(msgids, refs, LastMissing(msgids, refs), |idx|))
  }

  /** The immediate parent is the last reference, if it was known beforehand. */
  function ParentOf(msgids: map<MsgId, nat>, refs: seq<MsgId>): Option<nat> {
    if refs == [] then None else Lookup(msgids, refs[|refs| - 1])
  }

  // ----- What threading a message comes to, from its headers alone

  predicate Cited(references: seq<MsgId>, inReplyTo: Option<MsgId>, id: MsgId) {
    id in references || inReplyTo == Some(id)
  }

  /** x is in the conversation of m or of a message that m cites. */
  ghost predicate Linked(idx: Index, msgids: map<MsgId, nat>, references: seq<MsgId>, inReplyTo: Option<MsgId>, m: nat, x: nat)
    requires m < |idx| && x < |idx|
  {
    Same(idx, x, m) || exists id :: Cited(references, inReplyTo, id) && id in msgids && msgids[id] < |idx| && Same(idx, x, msgids[id])
  }

  /** In-Reply-To, or else the last reference. */
  function Immediate(references: seq<MsgId>, inReplyTo: Option<MsgId>): Option<MsgId> {
    if inReplyTo.Some? then inReplyTo
    else if references != [] then Some(references[|references| - 1]) else None
  }

  /** The message hangs under the message it replies to, if that is known, and else
      under its own root. */
  ghost predicate HungRight(msgids: map<MsgId, nat>, after: Index, m: nat, references: seq<MsgId>, inReplyTo: Option<MsgId>)
    requires m < |after|
  {
    var last := Immediate(references, inReplyTo);
    after[m].thread.Parent() ==
      if last.Some? && last.value in msgids then msgids[last.value] else after[m].thread.root
  }

  /** There is one more message exactly if a cited one is missing: its ghost, which
      joins the conversation, and is the message replied to if that is missing. */
  ghost predicate GhostRight(before: Index, msgids: map<MsgId, nat>, after: Index, m: nat,
                             references: seq<MsgId>, inReplyTo: Option<MsgId>)
    requires m < |before|
  {
    var last := Immediate(references, inReplyTo);
    if forall id :: Cited(references, inReplyTo, id) ==> id in msgids then |after| == |before|
    else
      && |after| == |before| + 1
      && after[|before|].id !in msgids && Cited(references, inReplyTo, after[|before|].id)
      && (last.Some? && last.value !in msgids ==> after[|before|].id == last.value)
      && Same(after, m, |before|)
  }

  /** Conversations are joined exactly if they are linked. */
  ghost predicate JoinedRight(before: Index, msgids: map<MsgId, nat>, after: Index, m: nat,
                              references: seq<MsgId>, inReplyTo: Option<MsgId>)
    requires m < |before| <= |after|
  {
    forall a, b :: 0 <= a < |before| && 0 <= b < |before| ==>
      (Same(after, a, b) <==>
         || Same(before, a, b)
         || (Linked(before, msgids, references, inReplyTo, m, a) && Linked(before, msgids, references, inReplyTo, m, b)))
  }

  lemma OrderedRefsMeaning(references: seq<MsgId>, inReplyTo: Option<MsgId>)
    ensures var refs := OrderedRefs(references, inReplyTo);
      && (forall id :: id in refs <==> Cited(references, inReplyTo, id))
      && Immediate(references, inReplyTo) == if refs == [] then None else Some(refs[|refs| - 1])
  {
    if inReplyTo.Some? {
      MoveToEndMembers(references, inReplyTo.value);
    }
  }

  lemma MoveToEndMembers(refs: seq<MsgId>, id: MsgId)
    ensures var r := MoveToEnd(refs, id);
      r != [] && r[|r| - 1] == id && forall x :: x in r <==> x in refs || x == id
  {
    WithoutIdMembers(refs, id);
  }

  lemma WithoutIdMembers(refs: seq<MsgId>, id: MsgId)
    ensures forall x :: x in WithoutId(refs, id) <==> x in refs && x != id
  {}

  lemma PresentMembers(known: seq<Option<nat>>, x: nat)
    ensures x in Present(known) <==> Some(x) in known
  {
    if known != [] {
      var front := known[..|known| - 1];
      PresentMembers(front, x);
      assert known == front + [known[|known| - 1]];
    }
  }

  /** x is the position of a known reference, or the one the ghost gets. */
  predicate IsRefIdx(idx: Index, msgids: map<MsgId, nat>, refs: seq<MsgId>, x: nat) {
    || (exists id :: id in refs && id in msgids && msgids[id] == x)
    || (x == |idx| && exists id :: id in refs && id !in msgids)
  }

  lemma RefIdxsMembers(idx: Index, msgids: map<MsgId, nat>, refs: seq<MsgId>, x: nat)
    ensures x in RefIdxs(idx, msgids, refs) <==> IsRefIdx(idx, msgids, refs, x)
  {
    var missing := LastMissing(msgids, refs);
    var known := Resolve(msgids, refs, missing, |idx|);
    PresentMembers(known, x);
    if Some(x) in known {
      var i :| 0 <= i < |known| && known[i] == Some(x);
      RefIsKnown(idx, msgids, refs, refs[i], x) by {
        assert refs[i] in refs;
      }
    }
    if IsRefIdx(idx, msgids, refs, x) {
      RefIsFound(idx, msgids, refs, x);
    }
    hide *;
  }

  lemma RefIsKnown(idx: Index, msgids: map<MsgId, nat>, refs: seq<MsgId>, id: MsgId, x: nat)
    requires id in refs && if id in msgids then msgids[id] == x else x == |idx|
    ensures IsRefIdx(idx, msgids, refs, x)
  {}

  lemma RefIsFound(idx: Index, msgids: map<MsgId, nat>, refs: seq<MsgId>, x: nat)
    requires IsRefIdx(idx, msgids, refs, x)
    ensures Some(x) in Resolve(msgids, refs, LastMissing(msgids, refs), |idx|)
  {
    var missing := LastMissing(msgids, refs);
    var known := Resolve(msgids, refs, missing, |idx|);
    if id :| id in refs && id in msgids && msgids[id] == x {
      var i :| 0 <= i < |refs| && refs[i] == id;
      assert known[i] == Some(x);
    } else {
      var id :| id in refs && id !in msgids;
      var i :| 0 <= i < |refs| && refs[i] == id;
      assert missing.Some? && known[missing.value] == Some(x);
    }
  }

  /** Among all that is cited, the first reference comes first: its conversation's
      root becomes the root, if it is known. */
  ghost predicate RootRight(before: Index, msgids: map<MsgId, nat>, after: Index, m: nat,
                            references: seq<MsgId>, inReplyTo: Option<MsgId>)
    requires m < |after|
  {
    references != [] && inReplyTo != Some(references[0]) && references[0] in msgids && msgids[references[0]] < |before| ==>
      after[m].thread.root == before[msgids[references[0]]].thread.root
  }

  lemma JoinedIsHungRight(idx: Index, msgids: map<MsgId, nat>, m: nat, references: seq<MsgId>, inReplyTo: Option<MsgId>)
    requires m < |idx|
    requires var refs := OrderedRefs(references, inReplyTo); InRange(RefIdxs(idx, msgids, refs), Grown(idx, msgids, refs))
    ensures var refs := OrderedRefs(references, inReplyTo);
      HungRight(msgids, Joined(Grown(idx, msgids, refs), m, RefIdxs(idx, msgids, refs), ParentOf(msgids, refs)), m,
                references, inReplyTo)
  {
    var refs := OrderedRefs(references, inReplyTo);
    OrderedRefsMeaning(references, inReplyTo);
    HungUnder(Grown(idx, msgids, refs), m, RefIdxs(idx, msgids, refs), ParentOf(msgids, refs)) by {
      GrownKeeps(idx, msgids, refs);
    }
    hide OrderedRefs, RefIdxs, Grown, Joined;
  }

  lemma HungUnder(idx: Index, m: nat, refs: seq<nat>, parent: Option<nat>)
    requires m < |idx| && InRange(refs, idx)
    ensures var thread := Joined(idx, m, refs, parent)[m].thread;
      thread.Parent() == if parent.Some? then parent.value else thread.root
  {
    if refs != [] {
      assert Joined(idx, m, refs, parent)[m] == JoinedAt(idx, m, refs, parent, m);
    }
  }

  lemma FirstRefIdx(idx: Index, msgids: map<MsgId, nat>, refs: seq<MsgId>)
    requires refs != [] && refs[0] in msgids
    ensures RefIdxs(idx, msgids, refs) != [] && RefIdxs(idx, msgids, refs)[0] == msgids[refs[0]]
  {
    var known := Resolve(msgids, refs, LastMissing(msgids, refs), |idx|);
    assert known[0] == Some(msgids[refs[0]]);
    PresentFirst(known);
  }

  lemma PresentFirst(known: seq<Option<nat>>)
    requires known != [] && known[0].Some?
    ensures Present(known) != [] && Present(known)[0] == known[0].value
  {
    if |known| > 1 { PresentFirst(known[..|known| - 1]); }
  }

  lemma FirstStaysFirst(references: seq<MsgId>, inReplyTo: Option<MsgId>)
    requires references != [] && inReplyTo != Some(references[0])
    ensures OrderedRefs(references, inReplyTo) != [] && OrderedRefs(references, inReplyTo)[0] == references[0]
  {}

  lemma JoinedHasRootRight(idx: Index, msgids: map<MsgId, nat>, m: nat, references: seq<MsgId>, inReplyTo: Option<MsgId>)
    requires m < |idx|
    requires var refs := OrderedRefs(references, inReplyTo); InRange(RefIdxs(idx, msgids, refs), Grown(idx, msgids, refs))
    ensures var refs := OrderedRefs(references, inReplyTo);
      RootRight(idx, msgids, Joined(Grown(idx, msgids, refs), m, RefIdxs(idx, msgids, refs), ParentOf(msgids, refs)), m,
                references, inReplyTo)
  {
    if references != [] && inReplyTo != Some(references[0]) && references[0] in msgids && msgids[references[0]] < |idx| {
      var refs := OrderedRefs(references, inReplyTo);
      FirstStaysFirst(references, inReplyTo);
      FirstRefIdx(idx, msgids, refs);
      hide OrderedRefs, RefIdxs, MergedAt, LastMissing;
    }
  }

  /** Touched by the join is what is linked, and the ghost. */
  lemma TouchedIsLinked(idx: Index, msgids: map<MsgId, nat>, m: nat, references: seq<MsgId>, inReplyTo: Option<MsgId>, x: nat)
    requires Inv(idx) && m < |idx| && x < |idx| && forall id :: id in msgids ==> msgids[id] < |idx|
    requires var refs := OrderedRefs(references, inReplyTo); InRange(RefIdxs(idx, msgids, refs), Grown(idx, msgids, refs))
    ensures var refs := OrderedRefs(references, inReplyTo);
      && |Grown(idx, msgids, refs)| >= |idx|
      && (Touched(Grown(idx, msgids, refs), m, RefIdxs(idx, msgids, refs), x) <==>
            Linked(idx, msgids, references, inReplyTo, m, x))
  {
    var refs := OrderedRefs(references, inReplyTo);
    var grown, refIdxs := Grown(idx, msgids, refs), RefIdxs(idx, msgids, refs);
    OrderedRefsMeaning(references, inReplyTo);
    GrownKeeps(idx, msgids, refs);
    forall r: nat ensures r in refIdxs <==> IsRefIdx(idx, msgids, refs, r) {
      RefIdxsMembers(idx, msgids, refs, r);
    }
    hide OrderedRefs, Grown, RefIdxs;
    assert RootOk(idx, x);
    if Touched(grown, m, refIdxs, x) && !Same(grown, x, m) {
      var r :| r in refIdxs && Same(grown, x, r);
      assert r != |idx|;
    }
    if Linked(idx, msgids, references, inReplyTo, m, x) && !Same(idx, x, m) {
      var id :| Cited(references, inReplyTo, id) && id in msgids && Same(idx, x, msgids[id]);
      assert id in refs && msgids[id] in refIdxs;
    }
  }

  lemma JoinedIsRight(idx: Index, msgids: map<MsgId, nat>, m: nat, references: seq<MsgId>, inReplyTo: Option<MsgId>)
    requires Inv(idx) && m < |idx| && forall id :: id in msgids ==> msgids[id] < |idx|
    requires var refs := OrderedRefs(references, inReplyTo);
      var grown, refIdxs := Grown(idx, msgids, refs), RefIdxs(idx, msgids, refs);
      m < |grown| && Inv(grown) && InRange(refIdxs, grown) && Joinable(grown, m, refIdxs)
    ensures var refs := OrderedRefs(references, inReplyTo);
      var after := Joined(Grown(idx, msgids, refs), m, RefIdxs(idx, msgids, refs), ParentOf(msgids, refs));
      && |after| >= |idx|
      && GhostRight(idx, msgids, after, m, references, inReplyTo)
      && JoinedRight(idx, msgids, after, m, references, inReplyTo)
  {
    var refs := OrderedRefs(references, inReplyTo);
    var grown, refIdxs, parent := Grown(idx, msgids, refs), RefIdxs(idx, msgids, refs), ParentOf(msgids, refs);
    GrownKeeps(idx, msgids, refs);
    hide OrderedRefs, Grown, RefIdxs, ParentOf, Joined, Inv, Joinable, Touched, Linked, GhostRight;
    forall a: nat, b: nat | a < |idx| && b < |idx|
      ensures Same(Joined(grown, m, refIdxs, parent), a, b) <==>
        || Same(idx, a, b)
        || (Linked(idx, msgids, references, inReplyTo, m, a) && Linked(idx, msgids, references, inReplyTo, m, b))
    {
      JoinIsUnion(grown, m, refIdxs, parent, a, b);
      TouchedIsLinked(idx, msgids, m, references, inReplyTo, a);
      TouchedIsLinked(idx, msgids, m, references, inReplyTo, b);
    }
    GhostIsRight(idx, msgids, m, references, inReplyTo);
  }

  lemma GhostIsRight(idx: Index, msgids: map<MsgId, nat>, m: nat, references: seq<MsgId>, inReplyTo: Option<MsgId>)
    requires m < |idx|
    requires var refs := OrderedRefs(references, inReplyTo);
      var grown, refIdxs := Grown(idx, msgids, refs), RefIdxs(idx, msgids, refs);
      m < |grown| && Inv(grown) && InRange(refIdxs, grown) && Joinable(grown, m, refIdxs)
    ensures var refs := OrderedRefs(references, inReplyTo);
      var after := Joined(Grown(idx, msgids, refs), m, RefIdxs(idx, msgids, refs), ParentOf(msgids, refs));
      GhostRight(idx, msgids, after, m, references, inReplyTo)
  {
    var refs := OrderedRefs(references, inReplyTo);
    var grown, refIdxs, parent := Grown(idx, msgids, refs), RefIdxs(idx, msgids, refs), ParentOf(msgids, refs);
    hide OrderedRefs, Grown, RefIdxs, ParentOf, Joined, Inv, Joinable, Touched, InRange, LastMissing, Present, Resolve;
    GrownKeeps(idx, msgids, refs);
    OrderedRefsMeaning(references, inReplyTo);
    RefIdxsMembers(idx, msgids, refs, |idx|);
    if |grown| > |idx| {
      GhostIsTouched(grown, m, refIdxs, |idx|);
      JoinIsUnion(grown, m, refIdxs, parent, m, |idx|);
      IdsStay(grown, m, refIdxs, parent, |idx|);
    }
  }

  lemma GhostIsTouched(idx: Index, m: nat, refs: seq<nat>, g: nat)
    requires m < |idx| && g < |idx| && InRange(refs, idx) && g in refs
    ensures Touched(idx, m, refs, g) && Touched(idx, m, refs, m)
  {}

  lemma IdsStay(idx: Index, m: nat, refs: seq<nat>, parent: Option<nat>, x: nat)
    requires m < |idx| && x < |idx| && InRange(refs, idx)
    ensures Joined(idx, m, refs, parent)[x].id == idx[x].id
  {}

  lemma GrownKeeps(idx: Index, msgids: map<MsgId, nat>, refs: seq<MsgId>)
    ensures var grown := Grown(idx, msgids, refs);
      && |idx| <= |grown| <= |idx| + 1 && (forall x :: 0 <= x < |idx| ==> grown[x] == idx[x])
      && (|grown| > |idx| <==> exists id :: id in refs && id !in msgids)
      && (|grown| > |idx| ==> grown[|idx|].thread.root == |idx| && grown[|idx|].id in refs && grown[|idx|].id !in msgids)
      && (refs != [] && refs[|refs| - 1] !in msgids ==> |grown| > |idx| && grown[|idx|].id == refs[|refs| - 1])
  {
    var missing := LastMissing(msgids, refs);
    if missing.Some? { assert refs[missing.value] in refs; }
  }

  lemma ReadyToMerge(idx: Index, refs: seq<nat>, conversations: set<nat>, t: nat)
    requires Inv(idx) && refs != [] && InRange(refs, idx) && t == idx[refs[0]].thread.root
    ensures t < |idx| && idx[t].thread.root == t && forall x :: x in Moved(idx, conversations, t) ==> x < |idx|
  {
    assert RootOk(idx, refs[0]);
    forall x | x in Moved(idx, conversations, t) ensures x < |idx| {
      MovedInRange(idx, conversations, t, x);
    }
  }

  lemma MovedInRange(idx: Index, conversations: set<nat>, target: nat, x: nat)
    requires Inv(idx) && x in Moved(idx, conversations, target)
    ensures x < |idx|
  {
    var c :| c in conversations && c < |idx| && x in [c] + idx[c].replies;
    assert RepliesOk(idx, c);
  }

  /** Every child of a gathered message is gathered or waiting, and both lists
      stay inside every closed set around p. */
  ghost predicate Explored(hasKids: map<nat, seq<nat>>, p: nat, family: seq<nat>, gather: seq<nat>) {
    && (forall x, k :: x in family && k in Kids(hasKids, x) ==> k in family || k in gather)
    && (forall c: set<nat> :: p in c && Closed(hasKids, c) ==> Elements(family) + Elements(gather) <= c)
  }

  lemma ExploreOne(hasKids: map<nat, seq<nat>>, p: nat, family: seq<nat>, gather: seq<nat>,
                   family': seq<nat>, gather': seq<nat>)
    requires Explored(hasKids, p, family, gather) && gather != []
    requires var r := gather[0];
      && Elements(family') == {r} + Elements(family)
      && gather' == gather[1..] + Without(Kids(hasKids, r), Elements(family') + Elements(gather[1..]))
    ensures Explored(hasKids, p, family', gather')
    ensures gather[0] in family ==> gather' == gather[1..]
    ensures forall x :: x in gather' ==> x in gather || x in Kids(hasKids, gather[0])
  {
    var r, rest := gather[0], gather[1..];
    var more := Without(Kids(hasKids, r), Elements(family') + Elements(rest));
    assert forall x :: x in gather <==> x == r || x in rest;
    assert forall x :: x in gather' <==> x in rest || x in more;
    assert forall x :: x in family' <==> x in Elements(family');
    assert more != [] ==> more[0] in more;
    forall c: set<nat> | p in c && Closed(hasKids, c) ensures Elements(family') + Elements(gather') <= c {
      assert r in Elements(gather);
    }
  }

  /** The member list of m's conversation, which its root keeps. */
  function ConversationOf(idx: Index, m: nat): seq<nat>
    requires m < |idx|
  {
    var root := idx[m].thread.root;
    if root < |idx| then idx[root].replies else []
  }

  /** m and its descendants left their conversation, and nothing else changed
      hands: two messages share a conversation when they did before and both or
      neither descend from m.  Parents stay, except that m becomes its own. */
  ghost predicate UnthreadedFrom(before: Index, after: Index, m: nat)
    requires m < |before| == |after| && InRange(ConversationOf(before, m), before)
  {
    var thread := ConversationOf(before, m);
    && after[m].thread == Alone(m)
    && (forall a :: 0 <= a < |after| && a != m ==> after[a].thread.Parent() == before[a].thread.Parent())
    && (forall a, b :: 0 <= a < |after| && 0 <= b < |after| ==>
          (Same(after, a, b) <==>
           Same(before, a, b) && (DescendsIn(before, thread, m, a) <==> DescendsIn(before, thread, m, b))))
  }

  /** The children of m in its conversation that are listed after m. */
  function LaterChildren(idx: Index, m: nat): seq<nat>
    requires m < |idx| && InRange(ConversationOf(idx, m), idx)
  {
    After(KidsOf(idx, ConversationOf(idx, m), m), m)
  }

  /** k is listed after m and names m as its parent. */
  ghost predicate ListedAfter(idx: Index, thread: seq<nat>, m: nat, k: nat)
    requires InRange(thread, idx)
  {
    exists j :: 0 <= j < |thread| && thread[j] == k && idx[k].thread.Parent() == m
                && forall i :: j <= i < |thread| ==> thread[i] != m
  }

  lemma {:induction false} AfterKids(idx: Index, thread: seq<nat>, m: nat, k: nat)
    requires InRange(thread, idx) && m < |idx| && idx[m].thread.Parent() == m
    ensures k in After(KidsOf(idx, thread, m), m) <==> ListedAfter(idx, thread, m, k)
  {
    hide KidsOf, After, ListedAfter;
    if thread == [] {
      AfterNothing(idx, m, k);
    } else {
      var init, last := thread[..|thread| - 1], thread[|thread| - 1];
      assert thread == init + [last];
      AfterKids(idx, init, m, k);
      ListedSnoc(idx, init, last, m, k);
      AfterSnoc(idx, init, last, m);
    }
  }

  lemma AfterNothing(idx: Index, m: nat, k: nat)
    ensures After(KidsOf(idx, [], m), m) == [] && !ListedAfter(idx, [], m, k)
  {}

  lemma AfterSnoc(idx: Index, init: seq<nat>, last: nat, m: nat)
    requires InRange(init, idx) && last < |idx| && InRange(init + [last], idx)
    ensures var kids, kids' := KidsOf(idx, init, m), KidsOf(idx, init + [last], m);
      After(kids', m) ==
        if idx[last].thread.Parent() != m then After(kids, m)
        else if last == m then [] else After(kids, m) + [last]
  {
    var kids := KidsOf(idx, init, m);
    assert (init + [last])[..|init|] == init;
    assert (kids + [last])[..|kids|] == kids && kids + [] == kids;
  }

  lemma ListedSnoc(idx: Index, init: seq<nat>, last: nat, m: nat, k: nat)
    requires InRange(init, idx) && last < |idx| && InRange(init + [last], idx)
    ensures ListedAfter(idx, init + [last], m, k) <==>
      last != m && (ListedAfter(idx, init, m, k) || (k == last && idx[k].thread.Parent() == m))
  {
    var thread := init + [last];
    assert thread[|init|] == last && forall i :: 0 <= i < |init| ==> thread[i] == init[i];
    if ListedAfter(idx, init, m, k) && last != m {
      var j :| 0 <= j < |init| && init[j] == k && forall i :: j <= i < |init| ==> init[i] != m;
      assert thread[j] == k;
    }
  }

  /** Which children are cut loose when a root is unthreaded. */
  lemma LaterMeaning(idx: Index, m: nat, k: nat)
    requires m < |idx| && InRange(ConversationOf(idx, m), idx) && idx[m].thread.Parent() == m
    ensures k in LaterChildren(idx, m) <==> ListedAfter(idx, ConversationOf(idx, m), m, k)
  {
    AfterKids(idx, ConversationOf(idx, m), m, k);
  }

  /** A conversation whose root sorts after its child: unthreading the root
      leaves the child where it is. */
  lemma UnthreadingRootMayChangeNothing()
    ensures var idx := [Message(1, Alone(1), []), Message(2, Alone(1), [0, 1])];
      Inv(idx) && LaterChildren(idx, 1) == [] && KidsOf(idx, ConversationOf(idx, 1), 1) == [0, 1]
  {
    var idx := [Message(1, Alone(1), []), Message(2, Alone(1), [0, 1])];
    assert RootOk(idx, 0) && RootOk(idx, 1) && RepliesOk(idx, 0) && RepliesOk(idx, 1);
    assert [0, 1][..1] == [0] && [0][..0] == [];
  }

  /** What unthreading a message that is its own parent does: the children listed
      after it head conversations of their descendants, while the children listed
      before it are put back, with theirs, since m itself is in the list and is
      processed as one of its own children. */
  ghost predicate ChildrenCut(before: Index, after: Index, m: nat)
    requires m < |before| == |after| && InRange(ConversationOf(before, m), before)
  {
    var thread := ConversationOf(before, m);
    var kids, later := KidsOf(before, thread, m), LaterChildren(before, m);
    && after[m].thread == Alone(m)
    && (forall k :: k in kids && k != m ==> after[k].thread.root == if k in later then k else m)
    && (forall k, x :: k in later && 0 <= x < |after| && DescendsIn(before, thread, k, x) ==> after[x].thread.root == k)
    && (forall x :: 0 <= x < |after| && DescendsIn(before, thread, m, x) && !(exists k :: k in later && DescendsIn(before, thread, k, x))
          ==> after[x].thread.root == m)
  }

  lemma HeadKeepsFamily(idx: Index, hasKids: map<nat, seq<nat>>, m: nat, family: seq<nat>)
    requires Inv(idx) && InRange(family, idx) && IsFamily(hasKids, m, Elements(family))
    ensures RootUnthreaded(Split(idx, m, family), hasKids, m, [])
  {
    assert m in Elements(family);
    forall x: nat | Descends(hasKids, m, x)
      ensures x < |idx| && RootAfter(hasKids, m, [], x, Split(idx, m, family)[x].thread.root)
    {
      FamilyIsDescendants(hasKids, m, Elements(family), x);
      assert x in family;
      SplitMeaning(idx, m, family, x);
    }
  }

  /** The state of the loop over the children of m. */
  ghost predicate CutSoFar(before: Index, idx: Index, hasKids: map<nat, seq<nat>>, m: nat, part: seq<nat>,
                           families: map<nat, set<nat>>)
    requires m < |before|
  {
    && |idx| == |before| && Confined(before, idx, m)
    && (forall k :: k in part ==> k in families && IsFamily(hasKids, k, families[k]))
    && (m in part ==> RootUnthreaded(idx, hasKids, m, After(part, m)))
  }

  lemma CutStart(before: Index, thread: seq<nat>, hasKids: map<nat, seq<nat>>, m: nat, families: map<nat, set<nat>>)
    requires Inv(before) && m < |before|
    ensures CutSoFar(before, before, hasKids, m, [], families)
  {
    forall a: nat | a < |before| && Same(before, a, m)
      ensures before[a].thread.root < |before| && Same(before, before[a].thread.root, m)
    {
      assert RootOk(before, a);
    }
  }

  lemma KidsOfMember(before: Index, thread: seq<nat>, hasKids: map<nat, seq<nat>>, m: nat, part: seq<nat>, k: nat)
    requires Inv(before) && m < |before|
    requires thread == ConversationOf(before, m) && InRange(thread, before) && IsParentMap(before, thread, hasKids)
    requires part + [k] <= Kids(hasKids, m)
    ensures forall c :: c in part || c == k ==> c in KidsOf(before, thread, m)
    ensures k < |before| && Same(before, k, m) && before[m].thread.root < |before|
  {
    assert RootOk(before, m) && RepliesOk(before, before[m].thread.root);
    assert forall c :: c in part || c == k ==> c in part + [k];
    assert k in KidsOf(before, thread, m);
  }

  lemma CutNext(before: Index, idx: Index, thread: seq<nat>, hasKids: map<nat, seq<nat>>, m: nat, part: seq<nat>,
                k: nat, family: seq<nat>, families: map<nat, set<nat>>)
    requires Inv(before) && Inv(idx) && m < |before| && before[m].thread.Parent() == m
    requires InRange(thread, before) && IsParentMap(before, thread, hasKids)
    requires forall c :: c in part || c == k ==> c in KidsOf(before, thread, m)
    requires InRange(family, idx) && IsFamily(hasKids, k, Elements(family))
    requires CutSoFar(before, idx, hasKids, m, part, families)
    requires forall t <- Elements(family) :: t < |before| && Same(before, t, m)
    ensures CutSoFar(before, Split(idx, k, family), hasKids, m, part + [k], families[k := Elements(family)])
  {
    assert forall t :: t in family ==> t in Elements(family);
    SplitStaysConfined(before, idx, m, k, family);
    var families' := families[k := Elements(family)];
    FamiliesGrow(hasKids, part, k, families, Elements(family));
    if m in part + [k] {
      CutListGrows(idx, before, thread, hasKids, m, part, k, family, families');
    }
  }

  lemma FamiliesGrow(hasKids: map<nat, seq<nat>>, part: seq<nat>, k: nat, families: map<nat, set<nat>>, family: set<nat>)
    requires forall c :: c in part ==> c in families && IsFamily(hasKids, c, families[c])
    requires IsFamily(hasKids, k, family)
    ensures var families' := families[k := family];
      forall c :: c in part + [k] ==> c in families' && IsFamily(hasKids, c, families'[c])
  {}

  lemma CutListGrows(idx: Index, before: Index, thread: seq<nat>, hasKids: map<nat, seq<nat>>, m: nat, part: seq<nat>,
                     k: nat, family: seq<nat>, families: map<nat, set<nat>>)
    requires Inv(idx) && m < |before| && before[m].thread.Parent() == m
    requires InRange(thread, before) && IsParentMap(before, thread, hasKids)
    requires forall c :: c in part || c == k ==> c in KidsOf(before, thread, m)
    requires forall c :: c in part + [k] ==> c in families && IsFamily(hasKids, c, families[c])
    requires InRange(family, idx) && k in families && families[k] == Elements(family)
    requires m in part ==> RootUnthreaded(idx, hasKids, m, After(part, m))
    requires m in part + [k]
    ensures RootUnthreaded(Split(idx, k, family), hasKids, m, After(part + [k], m))
  {
    assert k in part + [k] && forall c :: c in part ==> c in part + [k];
    assert (part + [k])[..|part|] == part;
    if k == m {
      HeadKeepsFamily(idx, hasKids, m, family);
    } else {
      CutOneMore(idx, before, thread, hasKids, m, After(part, m), k, family, families);
    }
  }

  lemma CutFinished(before: Index, idx: Index, thread: seq<nat>, hasKids: map<nat, seq<nat>>, m: nat,
                    families: map<nat, set<nat>>)
    requires Inv(before) && Inv(idx) && m < |before| && before[m].thread.Parent() == m
    requires thread == ConversationOf(before, m) && InRange(thread, before) && IsParentMap(before, thread, hasKids)
    requires CutSoFar(before, idx, hasKids, m, Kids(hasKids, m), families)
    requires Kids(hasKids, m) == [] ==> idx == before
    ensures var result := idx[m := idx[m].(thread := Alone(m))];
      Inv(result) && ChildrenCut(before, result, m) && Confined(before, result, m)
  {
    var kids := KidsOf(before, thread, m);
    assert Kids(hasKids, m) == kids;
    var cut := After(kids, m);
    StillRoot(before, idx, thread, hasKids, m, families);
    SettleSelf(idx, m);
    forall k | k in kids && k != m ensures idx[k].thread.root == if k in cut then k else m {
      assert m in kids by { MListed(before, thread, m, k); }
      KidIsCut(idx, before, thread, hasKids, m, cut, k, families);
    }
    forall k, x: nat | k in cut && x < |idx| && DescendsIn(before, thread, k, x)
      ensures idx[x].thread.root == k
    {
      assert m in kids by { MListed(before, thread, m, k); }
      CutTakesDescendants(before, idx, thread, hasKids, m, k, cut, x);
    }
    forall x: nat | x < |idx| && DescendsIn(before, thread, m, x) && !(exists k :: k in cut && DescendsIn(before, thread, k, x))
      ensures idx[x].thread.root == m
    {
      RestStays(before, idx, thread, hasKids, m, x, families);
    }
    assert RootOk(before, m);
  }

  lemma RestStays(before: Index, idx: Index, thread: seq<nat>, hasKids: map<nat, seq<nat>>, m: nat, x: nat,
                  families: map<nat, set<nat>>)
    requires Inv(before) && Inv(idx) && m < |before| && before[m].thread.Parent() == m
    requires thread == ConversationOf(before, m) && InRange(thread, before) && IsParentMap(before, thread, hasKids)
    requires CutSoFar(before, idx, hasKids, m, Kids(hasKids, m), families) && idx[m].thread.root == m
    requires x < |idx| && DescendsIn(before, thread, m, x)
    requires !(exists k :: k in After(KidsOf(before, thread, m), m) && DescendsIn(before, thread, k, x))
    ensures idx[x].thread.root == m
  {
    hide Inv, Confined, DescendsIn, Descends, ConversationOf, RootAfter, After;
    var kids := KidsOf(before, thread, m);
    assert Kids(hasKids, m) == kids;
    DescentInIndex(before, thread, hasKids, m, x);
    if kids == [] {
      Childless(hasKids, m, x);
    } else {
      MListed(before, thread, m, kids[0]);
      var root := idx[x].thread.root;
      assert RootAfter(hasKids, m, After(kids, m), x, root);
      DescentInIndex(before, thread, hasKids, root, x);
      RootIsCut(hasKids, m, After(kids, m), x, root);
    }
  }

  lemma Childless(hasKids: map<nat, seq<nat>>, m: nat, x: nat)
    requires Kids(hasKids, m) == [] && Descends(hasKids, m, x)
    ensures x == m
  {
    assert Closed(hasKids, {m});
  }

  lemma RootIsCut(hasKids: map<nat, seq<nat>>, m: nat, cut: seq<nat>, x: nat, root: nat)
    requires RootAfter(hasKids, m, cut, x, root)
    ensures root != m ==> root in cut && Descends(hasKids, root, x)
  {}

  lemma CutTakesDescendants(before: Index, idx: Index, thread: seq<nat>, hasKids: map<nat, seq<nat>>, m: nat, k: nat,
                            cut: seq<nat>, x: nat)
    requires InRange(thread, before) && IsParentMap(before, thread, hasKids)
    requires k in cut && k in KidsOf(before, thread, m) && RootUnthreaded(idx, hasKids, m, cut)
    requires x < |idx| && DescendsIn(before, thread, k, x)
    ensures idx[x].thread.root == k
  {
    DescentInIndex(before, thread, hasKids, k, x);
    assert RootAfter(hasKids, m, cut, x, idx[x].thread.root);
  }

  /** A message that is its own parent is listed whenever it has listed children. */
  lemma MListed(before: Index, thread: seq<nat>, m: nat, k: nat)
    requires Inv(before) && m < |before| && before[m].thread.Parent() == m
    requires thread == ConversationOf(before, m) && InRange(thread, before) && k in thread
    ensures m in KidsOf(before, thread, m)
  {
    assert RootOk(before, m) && RepliesOk(before, before[m].thread.root);
  }

  lemma StillRoot(before: Index, idx: Index, thread: seq<nat>, hasKids: map<nat, seq<nat>>, m: nat,
                  families: map<nat, set<nat>>)
    requires Inv(before) && m < |before| && before[m].thread.Parent() == m
    requires thread == ConversationOf(before, m) && InRange(thread, before) && IsParentMap(before, thread, hasKids)
    requires CutSoFar(before, idx, hasKids, m, Kids(hasKids, m), families)
    requires Kids(hasKids, m) == [] ==> idx == before
    ensures idx[m].thread.root == m
  {
    assert Kids(hasKids, m) == KidsOf(before, thread, m);
    var kids := KidsOf(before, thread, m);
    if kids != [] {
      assert kids[0] in kids;
      MListed(before, thread, m, kids[0]);
      SelfStaysRoot(idx, before, thread, hasKids, m, After(KidsOf(before, thread, m), m), families);
    } else {
      assert RootOk(before, m);
      assert m !in thread;
    }
  }

  lemma SettleSelf(idx: Index, m: nat)
    requires Inv(idx) && m < |idx| && idx[m].thread.root == m
    ensures Inv(idx[m := idx[m].(thread := Alone(m))])
  {
    var result := idx[m := idx[m].(thread := Alone(m))];
    forall a: nat | a < |idx| ensures RootOk(result, a) && RepliesOk(result, a) {
      assert RootOk(idx, a) && RepliesOk(idx, a);
    }
  }

  lemma ParentMapGrows(idx: Index, thread: seq<nat>, i: nat, hasKids: map<nat, seq<nat>>)
    requires InRange(thread, idx) && i < |thread| && IsParentMap(idx, thread[..i], hasKids)
    ensures var parent := idx[thread[i]].thread.Parent();
      IsParentMap(idx, thread[..i + 1], hasKids[parent := Kids(hasKids, parent) + [thread[i]]])
  {
    var parent := idx[thread[i]].thread.Parent();
    var hasKids' := hasKids[parent := Kids(hasKids, parent) + [thread[i]]];
    assert thread[..i + 1][..i] == thread[..i];
    forall p: nat ensures Kids(hasKids', p) == KidsOf(idx, thread[..i + 1], p) {
      assert Kids(hasKids, p) == KidsOf(idx, thread[..i], p);
    }
  }

  /** The index once part of the family has been rewritten. */
  ghost function FamilyRewritten(idx: Index, p: nat, family: seq<nat>, part: seq<nat>): (r: Index)
    ensures |r| == |idx|
  {
    seq(|idx|, x requires 0 <= x < |idx| => if x in part then FamilyAt(idx[x], p, family, x) else idx[x])
  }

  lemma OrphansInRange(idx: Index, family: seq<nat>)
    requires Inv(idx) && InRange(family, idx)
    ensures InRange(SortMids(Orphans(idx, family)), idx) && NoDuplicates(SortMids(Orphans(idx, family)))
  {
    var order := SortMids(Orphans(idx, family));
    forall i | 0 <= i < |order| ensures order[i] < |idx| {
      assert order[i] in order;
      OrphansAreStranded(idx, family, order[i]);
    }
  }

  lemma LeftRoots(idx: Index, family: seq<nat>)
    requires Inv(idx) && InRange(family, idx)
    ensures forall r <- RootsOf(idx, family) :: r < |idx| && r !in Orphans(idx, family)
  {
    forall r | r in RootsOf(idx, family) ensures r < |idx| && r !in Orphans(idx, family) {
      var t :| t in family && idx[t].thread.root == r;
      assert RootOk(idx, t);
      OrphansAreStranded(idx, family, r);
    }
  }

  lemma SplitInThreeSteps(idx: Index, p: nat, family: seq<nat>, first: Index, second: Index, third: Index)
    requires Inv(idx) && InRange(family, idx) && |third| == |second| == |idx|
    requires first == FamilyRewritten(idx, p, family, family)
    requires var orphans := SortMids(Orphans(idx, family));
      forall x :: 0 <= x < |idx| ==> second[x] == if x in orphans then OrphanAt(first[x], orphans, x) else first[x]
    requires var gone := Elements(family); var roots := RootsOf(idx, family) - gone;
      forall x :: 0 <= x < |idx| ==>
        third[x] == if x !in roots then second[x] else second[x].(replies := Pack(Without(second[x].replies, gone)))
    ensures third == Split(idx, p, family)
  {
    LeftRoots(idx, family);
    forall x: nat | x < |idx| ensures third[x] == SplitAt(idx, p, family, x) {
      OrphansAreStranded(idx, family, x);
    }
  }

  class MailIndex {
    var index: Index
    var msgids: map<MsgId, nat>

    ghost predicate Valid()
      reads this
    {
      && Inv(index)
      && MsgidsOk()
    }

    ghost predicate MsgidsOk()
      reads this
    {
      forall id :: id in msgids ==> msgids[id] < |index| && index[msgids[id]].id == id
    }

    constructor ()
      ensures Valid() && index == []
    {
      index, msgids := [], map[];
    }

    method SetMsg(i: nat, msg: Message)
      requires i < |index| && MsgidsOk() && msg.id == index[i].id
      modifies this
      ensures index == old(index)[i := msg]
      ensures MsgidsOk() && msgids == old(msgids)[msg.id := i]
    {
      index := index[i := msg];
      msgids := msgids[msg.id := i];
    }

    /** New messages and ghosts are their own root and list nobody. */
    method AddNewMsg(id: MsgId) returns (i: nat)
      requires Valid()
      modifies this
      ensures Valid()
      ensures i == |old(index)| && index == old(index) + [Message(id, Alone(i), [])]
      ensures msgids == old(msgids)[id := i]
    {
      i := |index|;
      ghost var before := index;
      index := index + [Message(id, Alone(i), [])];
      msgids := msgids[id := i];
      forall m: nat | m < |index| ensures RootOk(index, m) && RepliesOk(index, m) {
        if m < i { assert RootOk(before, m) && RepliesOk(before, m); }
      }
    }

    /** The roots and list owners among the references, and the root of the
        earliest one, found by walking the references from last to first. */
    method Discover(refs: seq<nat>) returns (conversations: set<nat>, target: Option<nat>)
      requires InRange(refs, index)
      ensures conversations == Conversations(index, refs)
      ensures target == if refs == [] then None else Some(index[refs[0]].thread.root)
    {
      conversations, target := {}, None;
      var i := |refs|;
      while i > 0
        invariant 0 <= i <= |refs|
        invariant conversations == Conversations(index, refs[i..])
        invariant target == if i == |refs| then None else Some(index[refs[i]].thread.root)
      {
        i := i - 1;
        var info := index[refs[i]];
        assert refs[i..] == [refs[i]] + refs[i + 1..];
        if info.replies != [] {
          conversations := conversations + {refs[i]};
        }
        target := Some(info.thread.root);
        conversations := conversations + {info.thread.root};
      }
      assert refs[0..] == refs;
    }

    /** Move the members of the other conversations under the target. */
    method Merge(moved: set<nat>, target: nat)
      requires MsgidsOk() && forall x <- moved :: x < |index|
      modifies this
      ensures |index| == |old(index)| && MsgidsOk() && old(msgids).Keys <= msgids.Keys
      ensures forall x :: 0 <= x < |index| ==>
        index[x] == (if x in moved then old(index[x]).(thread := old(index[x]).thread.(root := target), replies := [])
        else old(index[x]))
    {
      var todo := moved;
      while todo != {}
        invariant todo <= moved && |index| == |old(index)| && MsgidsOk() && old(msgids).Keys <= msgids.Keys
        invariant forall x :: 0 <= x < |index| ==>
          index[x] == (if x in moved - todo then old(index[x]).(thread := old(index[x]).thread.(root := target), replies := [])
          else old(index[x]))
        decreases todo
      {
        var x :| x in todo;
        SetMsg(x, index[x].(thread := index[x].thread.(root := target), replies := []));
        todo := todo - {x};
      }
    }

    method OrderReferences(references: seq<MsgId>, inReplyTo: Option<MsgId>) returns (refs: seq<MsgId>)
      ensures refs == OrderedRefs(references, inReplyTo)
    {
      refs := references;
      if inReplyTo.Some? {
        var id := inReplyTo.value;
        while id in refs
          invariant WithoutId(refs, id) == WithoutId(references, id)
          decreases |refs|
        {
          WithoutOneCopy(refs, id);
          refs := RemoveFirst(refs, id);
        }
        refs := refs + [id];
      }
    }

    /** The positions of the references, and the last one that is unknown. */
    method LookUp(refs: seq<MsgId>) returns (known: seq<Option<nat>>, missing: Option<nat>)
      ensures |known| == |refs| && forall i :: 0 <= i < |refs| ==> known[i] == Lookup(msgids, refs[i])
      ensures missing == LastMissing(msgids, refs)
    {
      var ids := msgids;
      known := seq(|refs|, i requires 0 <= i < |refs| => Lookup(ids, refs[i]));
      missing := None;
      var i := 0;
      while i < |refs|
        invariant 0 <= i <= |refs|
        invariant missing == LastMissing(msgids, refs[..i])
      {
        assert refs[..i + 1][..i] == refs[..i];
        if known[i].None? {
          missing := Some(i);
        }
        i := i + 1;
      }
      assert refs[..|refs|] == refs;
    }

    /** The positions that are known, in order. */
    method Collect(known: seq<Option<nat>>) returns (refIdxs: seq<nat>)
      ensures refIdxs == Present(known)
    {
      refIdxs := [];
      var i := 0;
      while i < |known|
        invariant 0 <= i <= |known|
        invariant refIdxs == Present(known[..i])
      {
        assert known[..i + 1][..i] == known[..i];
        if known[i].Some? {
          refIdxs := refIdxs + [known[i].value];
        }
        i := i + 1;
      }
      assert known[..|known|] == known;
    }

    /** Look the references up, adding a ghost for the last one that is unknown. */
    method ResolveReferences(refs: seq<MsgId>) returns (refIdxs: seq<nat>)
      requires Valid()
      modifies this
      ensures Valid() && old(msgids).Keys <= msgids.Keys
      ensures index == Grown(old(index), old(msgids), refs)
      ensures refIdxs == RefIdxs(old(index), old(msgids), refs)
      ensures InRange(refIdxs, index) && (refs != [] ==> refIdxs != [])
    {
      var known, missing := LookUp(refs);
      if missing.Some? {
        var ghostIdx := AddNewMsg(refs[missing.value]);
        known := known[missing.value := Some(ghostIdx)];
      }
      assert known == Resolve(old(msgids), refs, missing, |old(index)|);
      refIdxs := Collect(known);
      PresentInRange(known, |index|);
    }

    method MergeConversations(m: nat, refs: seq<nat>, t: nat, conversations: set<nat>)
      requires Valid() && m < |index| && refs != [] && InRange(refs, index)
      requires t == index[refs[0]].thread.root && conversations == Conversations(index, refs) + {m}
      modifies this
      ensures |index| == |old(index)| && MsgidsOk() && old(msgids).Keys <= msgids.Keys
      ensures forall x :: 0 <= x < |index| ==> index[x] == MergedAt(old(index), m, refs, x)
    {
      hide Inv, RootOk, RepliesOk, Moved, Conversations, SortMids;
      ReadyToMerge(index, refs, conversations, t);
      var root := index[t];
      var moved := Moved(index, conversations, t);
      Merge(moved, t);
      var members := Elements(root.replies) + moved + {m} + Elements(refs);
      assert members == Members(old(index), m, refs, moved, t);
      SetMsg(t, root.(replies := SortMids(members)));
    }

    method JoinConversations(m: nat, refs: seq<nat>, parent: Option<nat>)
      requires Valid() && m < |index| && InRange(refs, index)
      modifies this
      ensures MsgidsOk() && old(msgids).Keys <= msgids.Keys
      ensures index == Joined(old(index), m, refs, parent)
    {
      var conversations, target := Discover(refs);
      if target.Some? {
        MergeConversations(m, refs, target.value, conversations + {m});
      }
      var threadMid := if target.Some? then target.value else m;
      var thread := if parent.Some? && parent.value != threadMid then Under(threadMid, parent.value) else Alone(threadMid);
      SetMsg(m, index[m].(thread := thread));
    }

    /** Thread message m: find or create the messages it refers to, then merge
        their conversations with its own. */
    method SetConversationIds(m: nat, references: seq<MsgId>, inReplyTo: Option<MsgId>)
      requires Valid() && m < |index|
      modifies this
      ensures MsgidsOk() && old(msgids).Keys <= msgids.Keys
      ensures
        var refs := OrderedRefs(references, inReplyTo);
        var grown := Grown(old(index), old(msgids), refs);
        var refIdxs := RefIdxs(old(index), old(msgids), refs);
        && InRange(refIdxs, grown) && Inv(grown)
        && index == Joined(grown, m, refIdxs, ParentOf(old(msgids), refs))
        && (Valid() <==> Joinable(grown, m, refIdxs))
      ensures old(index[m].thread.root) == m ==> Valid()
      ensures |index| >= |old(index)|
      ensures HungRight(old(msgids), index, m, references, inReplyTo)
      ensures RootRight(old(index), old(msgids), index, m, references, inReplyTo)
      ensures Valid() ==>
        && GhostRight(old(index), old(msgids), index, m, references, inReplyTo)
        && JoinedRight(old(index), old(msgids), index, m, references, inReplyTo)
    {
      hide OrderedRefs, Grown, RefIdxs, ParentOf, Joined, HungRight, RootRight, GhostRight, JoinedRight;
      ghost var before, known := index, msgids;
      var refs := OrderReferences(references, inReplyTo);
      var parent := ParentOf(msgids, refs);
      var refIdxs := ResolveReferences(refs);
      GrownKeeps(before, known, refs);
      JoinKeepsInvariantExactly(index, m, refIdxs, parent);
      JoinedIsHungRight(before, known, m, references, inReplyTo);
      JoinedHasRootRight(before, known, m, references, inReplyTo);
      if Joinable(index, m, refIdxs) {
        JoinedIsRight(before, known, m, references, inReplyTo);
      }
      JoinConversations(m, refIdxs, parent);
    }

    // ----- Unthreading

    /** Collect the parent/child relationships of a conversation. */
    method CollectKids(thread: seq<nat>) returns (hasKids: map<nat, seq<nat>>)
      requires InRange(thread, index)
      ensures IsParentMap(index, thread, hasKids)
    {
      hasKids := map[];
      var i := 0;
      while i < |thread|
        invariant 0 <= i <= |thread|
        invariant IsParentMap(index, thread[..i], hasKids)
      {
        var t := thread[i];
        var parent := index[t].thread.Parent();
        ParentMapGrows(index, thread, i, hasKids);
        hasKids := hasKids[parent := Kids(hasKids, parent) + [t]];
        i := i + 1;
      }
      assert thread[..|thread|] == thread;
    }

    /** Gather a message and all its descendants, breadth first. */
    method Family(p: nat, hasKids: map<nat, seq<nat>>) returns (family: seq<nat>)
      ensures IsFamily(hasKids, p, Elements(family)) && NoDuplicates(family) && family != [] && family[0] == p
    {
      family := [p];
      var gather := Kids(hasKids, p);
      ghost var universe := {p} + set q, k | q in hasKids && k in hasKids[q] :: k;
      while gather != []
        invariant NoDuplicates(family) && family != [] && family[0] == p
        invariant Explored(hasKids, p, family, gather)
        invariant Elements(family) + Elements(gather) <= universe
        decreases universe - Elements(family), |gather|
      {
        var r := gather[0];
        ghost var waiting, before := gather, family;
        gather := gather[1..];
        if r !in family {
          family := family + [r];
        }
        assert Elements(waiting) == {r} + Elements(gather) && Elements(family) == {r} + Elements(before);
        if r in hasKids {
          gather := gather + Without(hasKids[r], Elements(family) + Elements(gather));
        }
        ExploreOne(hasKids, p, before, waiting, family, gather);
      }
    }

    /** Give the family of p a conversation of its own: rewrite the family, then
        the messages left without a root, then the lists of the conversations
        that were left. */
    method Reparent(p: nat, family: seq<nat>)
      requires Valid() && InRange(family, index) && family != [] && family[0] == p && NoDuplicates(family)
      modifies this
      ensures Valid() && old(msgids).Keys <= msgids.Keys
      ensures index == Split(old(index), p, family)
    {
      ghost var before := index;
      var oldRoots, orphans := RewriteFamily(p, family);
      ghost var first := index;
      var order := SortMids(orphans);
      OrphansInRange(before, family);
      RewriteOrphans(order);
      ghost var second := index;
      LeftRoots(before, family);
      CleanLists(oldRoots - Elements(family), Elements(family));
      SplitInThreeSteps(before, p, family, first, second, index);
      SplitKeepsInvariant(before, p, family);
    }

    method RewriteMember(t: nat, p: nat, family: seq<nat>)
      requires MsgidsOk() && t < |index|
      modifies this
      ensures MsgidsOk() && old(msgids).Keys <= msgids.Keys
      ensures index == old(index)[t := FamilyAt(old(index)[t], p, family, t)]
    {
      var info := index[t];
      if t == p {
        SetMsg(t, info.(thread := MakeThread(p, p), replies := Pack(family)));
      } else {
        SetMsg(t, info.(thread := info.thread.EditRoot(p), replies := []));
      }
    }

    method RewriteFamily(p: nat, family: seq<nat>) returns (oldRoots: set<nat>, orphans: set<nat>)
      requires MsgidsOk() && InRange(family, index) && NoDuplicates(family)
      modifies this
      ensures MsgidsOk() && |index| == |old(index)| && old(msgids).Keys <= msgids.Keys
      ensures orphans == Orphans(old(index), family)
      ensures oldRoots == RootsOf(old(index), family)
      ensures index == FamilyRewritten(old(index), p, family, family)
    {
      oldRoots, orphans := {}, {};
      ghost var before := index;
      var i := 0;
      while i < |family|
        invariant 0 <= i <= |family| && MsgidsOk() && |index| == |before| && old(msgids).Keys <= msgids.Keys
        invariant orphans == OrphansOf(before, family[..i], family)
        invariant oldRoots == RootsOf(before, family[..i])
        invariant index == FamilyRewritten(before, p, family, family[..i])
      {
        hide OrphansOf, RootsOf, FamilyAt;
        var t := family[i];
        ghost var part := family[..i];
        assert t !in part && index[t] == before[t];
        assert family[..i + 1] == part + [t];
        OneMoreMember(before, part, t, family);
        oldRoots := oldRoots + {index[t].thread.root};
        orphans := orphans + (Elements(index[t].replies) - Elements(family));
        RewriteMember(t, p, family);
        i := i + 1;
      }
      assert family[..|family|] == family;
    }

    method RewriteOrphans(orphans: seq<nat>)
      requires MsgidsOk() && InRange(orphans, index) && NoDuplicates(orphans)
      modifies this
      ensures MsgidsOk() && |index| == |old(index)| && old(msgids).Keys <= msgids.Keys
      ensures forall x :: 0 <= x < |index| ==>
        index[x] == if x in orphans then OrphanAt(old(index)[x], orphans, x) else old(index)[x]
    {
      var i := 0;
      while i < |orphans|
        invariant 0 <= i <= |orphans| && MsgidsOk() && |index| == |old(index)| && old(msgids).Keys <= msgids.Keys
        invariant forall x :: 0 <= x < |index| ==>
          index[x] == if x in orphans[..i] then OrphanAt(old(index)[x], orphans, x) else old(index)[x]
      {
        var o := orphans[i];
        assert o !in orphans[..i];
        if o == orphans[0] {
          SetMsg(o, index[o].(thread := index[o].thread.EditRoot(o), replies := Pack(orphans)));
        } else {
          SetMsg(o, index[o].(thread := index[o].thread.EditRoot(orphans[0])));
        }
        i := i + 1;
        assert orphans[..i] == orphans[..i - 1] + [o];
      }
      assert orphans[..|orphans|] == orphans;
    }

    method CleanLists(roots: set<nat>, gone: set<nat>)
      requires MsgidsOk() && forall r <- roots :: r < |index|
      modifies this
      ensures MsgidsOk() && |index| == |old(index)| && old(msgids).Keys <= msgids.Keys
      ensures forall x :: 0 <= x < |index| ==>
        index[x] == if x !in roots then old(index)[x] else
          old(index)[x].(replies := Pack(Without(old(index)[x].replies, gone)))
    {
      var todo := roots;
      while todo != {}
        invariant todo <= roots && MsgidsOk() && |index| == |old(index)| && old(msgids).Keys <= msgids.Keys
        invariant forall x :: 0 <= x < |index| ==>
          index[x] == if x !in roots - todo then old(index)[x] else
            old(index)[x].(replies := Pack(Without(old(index)[x].replies, gone)))
        decreases todo
      {
        var r :| r in todo;
        SetMsg(r, index[r].(replies := Pack(Without(index[r].replies, gone))));
        todo := todo - {r};
      }
    }

    /** Cut message m and its descendants loose from their conversation; if m
        is its own parent, cut its children loose instead. */
    method UnthreadMessage(m: nat)
      requires Valid() && m < |index|
      modifies this
      ensures Valid() && |index| == |old(index)| && old(msgids).Keys <= msgids.Keys
      ensures InRange(ConversationOf(old(index), m), old(index))
      ensures forall a :: 0 <= a < |index| && !Same(old(index), a, m) ==> index[a] == old(index)[a]
      ensures old(index)[m].thread.Parent() != m ==> UnthreadedFrom(old(index), index, m)
      ensures old(index)[m].thread.Parent() == m ==> ChildrenCut(old(index), index, m)
    {
      assert RootOk(index, m);
      var thread := index[index[m].thread.root].replies;
      assert RepliesOk(index, index[m].thread.root);
      assert forall i :: 0 <= i < |thread| ==> thread[i] in thread;
      var hasKids := CollectKids(thread);
      if index[m].thread.Parent() == m {
        CutChildren(m, thread, hasKids);
      } else {
        ghost var before := index;
        var family := Family(m, hasKids);
        FamilyInConversation(before, m, m, hasKids, Elements(family));
        assert forall i :: 0 <= i < |family| ==> family[i] in Elements(family);
        Reparent(m, family);
        forall a: nat | a < |index|
          ensures a in family <==> DescendsIn(before, thread, m, a)
          ensures !Same(before, a, m) ==> index[a] == before[a]
          ensures a != m ==> index[a].thread.Parent() == before[a].thread.Parent()
        {
          UnthreadIsSplit(before, m, hasKids, family, a, a);
          SplitIsPartition(before, m, family, a, a);
          FamilyIsDescendants(hasKids, m, Elements(family), a);
          DescentInIndex(before, thread, hasKids, m, a);
        }
        forall a: nat, b: nat | a < |index| && b < |index|
          ensures Same(index, a, b) <==> Same(before, a, b) && (a in family <==> b in family)
        {
          UnthreadIsSplit(before, m, hasKids, family, a, b);
        }
      }
    }

    method CutChildren(m: nat, thread: seq<nat>, hasKids: map<nat, seq<nat>>)
      requires Valid() && m < |index| && index[m].thread.Parent() == m
      requires thread == ConversationOf(index, m) && InRange(thread, index) && IsParentMap(index, thread, hasKids)
      modifies this
      ensures Valid() && |index| == |old(index)| && old(msgids).Keys <= msgids.Keys
      ensures Confined(old(index), index, m)
      ensures ChildrenCut(old(index), index, m)
    {
      hide IsParentMap, ConversationOf, CutSoFar, Kids, Elements, RootOk, RepliesOk;
      ghost var before := index;
      ghost var families: map<nat, set<nat>> := map[];
      var kids := Kids(hasKids, m);
      CutStart(before, thread, hasKids, m, families);
      var i := 0;
      while i < |kids|
        invariant 0 <= i <= |kids| && Valid() && old(msgids).Keys <= msgids.Keys
        invariant |index| == |before| && (i == 0 ==> index == before)
        invariant CutSoFar(before, index, hasKids, m, kids[..i], families)
      {
        assert kids[..i + 1] == kids[..i] + [kids[i]];
        families := CutOne(kids[i], hasKids, before, thread, m, kids[..i], families);
        i := i + 1;
      }
      assert kids[..|kids|] == kids;
      CutFinished(before, index, thread, hasKids, m, families);
      SetMsg(m, index[m].(thread := MakeThread(m, m)));
    }

    method CutOne(k: nat, hasKids: map<nat, seq<nat>>,
                  ghost before: Index, ghost thread: seq<nat>, ghost m: nat, ghost part: seq<nat>,
                  ghost families: map<nat, set<nat>>)
      returns (ghost families': map<nat, set<nat>>)
      requires Valid() && Inv(before) && m < |before| && before[m].thread.Parent() == m
      requires thread == ConversationOf(before, m) && InRange(thread, before) && IsParentMap(before, thread, hasKids)
      requires part + [k] <= Kids(hasKids, m)
      requires CutSoFar(before, index, hasKids, m, part, families)
      modifies this
      ensures Valid() && old(msgids).Keys <= msgids.Keys
      ensures |index| == |before| && CutSoFar(before, index, hasKids, m, part + [k], families')
    {
      var family := Family(k, hasKids);
      KidsOfMember(before, thread, hasKids, m, part, k);
      FamilyInConversation(before, m, k, hasKids, Elements(family));
      assert forall j :: 0 <= j < |family| ==> family[j] in Elements(family);
      CutNext(before, index, thread, hasKids, m, part, k, family, families);
      Reparent(k, family);
      families' := families[k := Elements(family)];
    }
  }
}
