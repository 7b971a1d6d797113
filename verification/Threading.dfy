/** Conversation threading in the metadata index. */
module Threading {
  // Every message names its conversation's root and its own immediate parent
  // ("root" or "root/parent"); a root that is not alone also lists the members
  // of its conversation.  The two fields together are a hand-made union-find
  // structure: adding a message joins conversations, unthreading splits one.
  import opened Wrappers
  import opened Base36

  /** Message-ID headers, encoded; only compared. */
  type MsgId = int

  /** The conversation field: "root" or "root/parent". */
  datatype Thread = Alone(root: nat) | Under(root: nat, parent: nat) {

    /** The last component, which is the root itself when there is only one. */
    function Parent(): nat {
      if Alone? then root else parent
    }

    /** How `edit_msg_info` writes a new root: a parent equal to it is dropped. */
    function EditRoot(newRoot: nat): Thread {
      MakeThread(newRoot, Parent())
    }
  }

  function MakeThread(root: nat, parent: nat): Thread {
    if root == parent then Alone(root) else Under(root, parent)
  }

  datatype Message = Message(id: MsgId, thread: Thread, replies: seq<nat>)

  type Index = seq<Message>

  /** How `edit_msg_info` writes a member list: a lone member is not listed. */
  function Pack(members: seq<nat>): seq<nat> {
    if |members| > 1 then members else []
  }

  function Without(s: seq<nat>, gone: set<nat>): (r: seq<nat>)
    ensures forall x :: x in r <==> x in s && x !in gone
  {
    if s == [] then []
    else if s[0] in gone then Without(s[1..], gone)
    else [s[0]] + Without(s[1..], gone)
  }

  // ----- The invariant

  ghost predicate RootOk(idx: Index, m: nat)
    requires m < |idx|
  {
    var r := idx[m].thread.root;
    r < |idx| && idx[r].thread.root == r && (m == r || m in idx[r].replies)
  }

  ghost predicate RepliesOk(idx: Index, m: nat)
    requires m < |idx|
  {
    && (forall x :: x in idx[m].replies ==> x < |idx| && idx[x].thread.root == m)
    && (idx[m].replies != [] ==> m in idx[m].replies)
  }

  /** A root is its own root and lists every other member; listed messages
      belong to the lister; a list that is not empty has its owner in it. */
  ghost predicate Inv(idx: Index) {
    && (forall m :: 0 <= m < |idx| ==> RootOk(idx, m))
    && (forall m :: 0 <= m < |idx| ==> RepliesOk(idx, m))
  }

  ghost predicate Same(idx: Index, a: nat, b: nat)
    requires a < |idx| && b < |idx|
  {
    idx[a].thread.root == idx[b].thread.root
  }

  ghost predicate InRange(s: seq<nat>, idx: Index) {
    forall i :: 0 <= i < |s| ==> s[i] < |idx|
  }

  // ----- Joining: the index after threading message m with its references

  /** Roots of the referenced messages, and referenced messages that own a list. */
  function Conversations(idx: Index, refs: seq<nat>): (c: set<nat>)
    requires InRange(refs, idx)
  {
    (set r | r in refs :: idx[r].thread.root) + (set r | r in refs && idx[r].replies != [])
  }

  /** The members of all the conversations other than the target. */
  function Moved(idx: Index, conversations: set<nat>, target: nat): (s: set<nat>) {
    set t, x | t in conversations && t != target && t < |idx| && x in [t] + idx[t].replies :: x
  }

  /** What the target lists in the end: its old list, the moved messages, the
      message itself and every reference. */
  function Members(idx: Index, m: nat, refs: seq<nat>, moved: set<nat>, target: nat): set<nat> {
    (if target < |idx| then Elements(idx[target].replies) else {}) + moved + {m} + Elements(refs)
  }

  /** Message x once the conversations are merged. */
  function MergedAt(idx: Index, m: nat, refs: seq<nat>, x: nat): (r: Message)
    requires x < |idx| && refs != [] && InRange(refs, idx)
  {
    var target := idx[refs[0]].thread.root;
    var moved := Moved(idx, Conversations(idx, refs) + {m}, target);
    var thread := if x in moved then idx[x].thread.(root := target) else idx[x].thread;
    var replies :=
      if x == target then SortMids(Members(idx, m, refs, moved, target))
      else if x in moved then [] else idx[x].replies;
    idx[x].(thread := thread, replies := replies)
  }

  /** Finally the message itself is hung under its parent. */
  function JoinedAt(idx: Index, m: nat, refs: seq<nat>, parent: Option<nat>, x: nat): (r: Message)
    requires x < |idx| && refs != [] && InRange(refs, idx)
  {
    var target := idx[refs[0]].thread.root;
    var merged := MergedAt(idx, m, refs, x);
    if x != m then merged
    else merged.(thread := if parent.Some? then MakeThread(target, parent.value) else Alone(target))
  }

  /** The index after `set_conversation_ids`, once the references are resolved. */
  function Joined(idx: Index, m: nat, refs: seq<nat>, parent: Option<nat>): (r: Index)
    requires m < |idx| && InRange(refs, idx)
    ensures |r| == |idx|
  {
    if refs == [] then
      idx[m := idx[m].(thread := if parent.Some? then MakeThread(m, parent.value) else Alone(m))]
    else
      seq(|idx|, x requires 0 <= x < |idx| => JoinedAt(idx, m, refs, parent, x))
  }

  /** The message is in a conversation that gets merged: it is its own root (as
      a newly added message is), or a reference belongs to its conversation. */
  ghost predicate Joinable(idx: Index, m: nat, refs: seq<nat>)
    requires m < |idx| && InRange(refs, idx)
  {
    idx[m].thread.root == m || exists r :: r in refs && Same(idx, r, m)
  }

  /** x is in the conversation of the message or of one of its references. */
  ghost predicate Touched(idx: Index, m: nat, refs: seq<nat>, x: nat)
    requires m < |idx| && x < |idx| && InRange(refs, idx)
  {
    Same(idx, x, m) || exists r :: r in refs && Same(idx, x, r)
  }

  lemma ConversationsAreRoots(idx: Index, refs: seq<nat>, c: nat)
    requires Inv(idx) && InRange(refs, idx) && c in Conversations(idx, refs)
    ensures c < |idx| && idx[c].thread.root == c
    ensures exists r :: r in refs && idx[r].thread.root == c
  {
    if c in refs && idx[c].replies != [] {
      assert RepliesOk(idx, c);
    } else {
      var r :| r in refs && idx[r].thread.root == c;
      assert RootOk(idx, r);
    }
  }

  /** The moved messages are the touched ones that are not yet in the target
      conversation, and the message itself. */
  lemma MovedAreTouched(idx: Index, m: nat, refs: seq<nat>, x: nat)
    requires Inv(idx) && m < |idx| && x < |idx| && refs != [] && InRange(refs, idx)
    requires Joinable(idx, m, refs)
    ensures refs[0] in refs
    ensures var target := idx[refs[0]].thread.root;
      x in Moved(idx, Conversations(idx, refs) + {m}, target)
      <==> (idx[x].thread.root != target && Touched(idx, m, refs, x)) || (x == m != target)
  {
    assert refs[0] in refs;
    var target := idx[refs[0]].thread.root;
    var conv := Conversations(idx, refs) + {m};
    var root := idx[x].thread.root;
    assert RootOk(idx, x);
    assert x in [root] + idx[root].replies;
    if root != target && Touched(idx, m, refs, x) {
      assert root in conv;
    }
    if x == m != target {
      assert x in [m] + idx[m].replies;
    }
    if x in Moved(idx, conv, target) {
      var t :| t in conv && t != target && t < |idx| && x in [t] + idx[t].replies;
      assert RepliesOk(idx, t);
      if t != m { ConversationsAreRoots(idx, refs, t); }
    }
  }

  /** Pointwise reading of the join. */
  lemma JoinedMeaning(idx: Index, m: nat, refs: seq<nat>, parent: Option<nat>, x: nat)
    requires Inv(idx) && m < |idx| && x < |idx| && refs != [] && InRange(refs, idx)
    requires Joinable(idx, m, refs)
    ensures refs[0] in refs
    ensures var target, x' := idx[refs[0]].thread.root, Joined(idx, m, refs, parent)[x];
      && x'.thread.root == (if Touched(idx, m, refs, x) then target else idx[x].thread.root)
      && (!Touched(idx, m, refs, x) ==> x' == idx[x])
      && (x != target && Touched(idx, m, refs, x) ==> x'.replies == [])
  {
    MovedAreTouched(idx, m, refs, x);
    assert RootOk(idx, refs[0]) && RootOk(idx, m) && RepliesOk(idx, x);
    assert Joined(idx, m, refs, parent)[x] == JoinedAt(idx, m, refs, parent, x);
  }

  lemma MembersAreTouched(idx: Index, m: nat, refs: seq<nat>, moved: set<nat>, target: nat, y: nat)
    requires Inv(idx) && m < |idx| && refs != [] && InRange(refs, idx) && Joinable(idx, m, refs)
    requires refs[0] in refs && target == idx[refs[0]].thread.root
    requires moved == Moved(idx, Conversations(idx, refs) + {m}, target)
    ensures y in Members(idx, m, refs, moved, target) <==> y < |idx| && Touched(idx, m, refs, y)
  {
    assert RootOk(idx, refs[0]) && RepliesOk(idx, target);
    if y in moved {
      var t :| t in Conversations(idx, refs) + {m} && t < |idx| && y in [t] + idx[t].replies;
      assert RepliesOk(idx, t);
    }
    if y < |idx| {
      MovedAreTouched(idx, m, refs, y);
      assert RootOk(idx, y);
      if y == target {
        assert target in idx[target].replies || refs[0] == target;
      }
    }
  }

  /** The target lists exactly the touched messages, each once and in order. */
  lemma JoinedMembers(idx: Index, m: nat, refs: seq<nat>, parent: Option<nat>, y: nat)
    requires Inv(idx) && m < |idx| && refs != [] && InRange(refs, idx)
    requires Joinable(idx, m, refs)
    ensures refs[0] in refs && idx[refs[0]].thread.root < |idx|
    ensures var members := Joined(idx, m, refs, parent)[idx[refs[0]].thread.root].replies;
      && (y in members <==> y < |idx| && Touched(idx, m, refs, y))
      && (forall i, j :: 0 <= i < j < |members| ==> members[i] != members[j] && MidBefore(members[i], members[j]))
  {
    assert refs[0] in refs && RootOk(idx, refs[0]);
    var target := idx[refs[0]].thread.root;
    assert Joined(idx, m, refs, parent)[target] == JoinedAt(idx, m, refs, parent, target);
    MembersAreTouched(idx, m, refs, Moved(idx, Conversations(idx, refs) + {m}, target), target, y);
  }

  lemma JoinKeepsInvariant(idx: Index, m: nat, refs: seq<nat>, parent: Option<nat>)
    requires Inv(idx) && m < |idx| && InRange(refs, idx) && Joinable(idx, m, refs)
    ensures Inv(Joined(idx, m, refs, parent))
  {
    var next := Joined(idx, m, refs, parent);
    if refs == [] {
      forall x: nat | x < |idx| ensures RootOk(next, x) && RepliesOk(next, x) {
        assert RootOk(idx, x) && RepliesOk(idx, x);
      }
    } else {
      assert refs[0] in refs && RootOk(idx, refs[0]);
      forall x: nat | x < |idx| ensures RootOk(next, x) && RepliesOk(next, x) {
        JoinedPointKeeps(idx, m, refs, parent, x);
      }
    }
  }

  lemma JoinedPointKeeps(idx: Index, m: nat, refs: seq<nat>, parent: Option<nat>, x: nat)
    requires Inv(idx) && m < |idx| && x < |idx| && refs != [] && InRange(refs, idx)
    requires Joinable(idx, m, refs)
    ensures RootOk(Joined(idx, m, refs, parent), x) && RepliesOk(Joined(idx, m, refs, parent), x)
  {
    var next := Joined(idx, m, refs, parent);
    assert refs[0] in refs && RootOk(idx, refs[0]);
    var target := idx[refs[0]].thread.root;
    assert RootOk(idx, x) && RepliesOk(idx, x) && RepliesOk(idx, target);
    JoinedMeaning(idx, m, refs, parent, x);
    JoinedMeaning(idx, m, refs, parent, target);
    JoinedMeaning(idx, m, refs, parent, idx[x].thread.root);
    JoinedMembers(idx, m, refs, parent, x);
    JoinedMembers(idx, m, refs, parent, target);
    forall y | y in next[x].replies ensures y < |idx| && next[y].thread.root == x {
      if x == target { JoinedMembers(idx, m, refs, parent, y); }
      if y < |idx| { JoinedMeaning(idx, m, refs, parent, y); }
    }
  }

  /** Threading is a union: two messages share a conversation afterwards exactly
      when they did before or both were touched.  Untouched messages keep every
      field, and every message but m keeps its parent unless that was its root. */
  lemma JoinIsUnion(idx: Index, m: nat, refs: seq<nat>, parent: Option<nat>, a: nat, b: nat)
    requires Inv(idx) && m < |idx| && InRange(refs, idx) && Joinable(idx, m, refs)
    requires a < |idx| && b < |idx|
    ensures var next := Joined(idx, m, refs, parent);
      && (Same(next, a, b) <==>
            Same(idx, a, b) || (Touched(idx, m, refs, a) && Touched(idx, m, refs, b)))
      && (a != m && !Touched(idx, m, refs, a) ==> next[a] == idx[a])
      && (a != m && idx[a].thread.Under? ==> next[a].thread.Parent() == idx[a].thread.Parent())
  {
    if refs != [] {
      assert refs[0] in refs && RootOk(idx, refs[0]);
      JoinedMeaning(idx, m, refs, parent, a);
      JoinedMeaning(idx, m, refs, parent, b);
    }
  }

  /** The two assumptions of the join are exact.  A message that already hangs
      under another root is threaded correctly only when some reference resolves
      into the conversation it is in: otherwise the old root still lists it. */
  lemma JoinKeepsInvariantExactly(idx: Index, m: nat, refs: seq<nat>, parent: Option<nat>)
    requires Inv(idx) && m < |idx| && InRange(refs, idx)
    ensures Inv(Joined(idx, m, refs, parent)) <==> Joinable(idx, m, refs)
  {
    if Joinable(idx, m, refs) {
      JoinKeepsInvariant(idx, m, refs, parent);
    } else {
      var next := Joined(idx, m, refs, parent);
      var left := idx[m].thread.root;
      assert RootOk(idx, m) && left != m && m in idx[left].replies && idx[left].thread.root == left;
      if refs != [] {
        assert refs[0] in refs && RootOk(idx, refs[0]);
        var conv := Conversations(idx, refs) + {m};
        if left in Moved(idx, conv, idx[refs[0]].thread.root) {
          var t :| t in conv && t < |idx| && left in [t] + idx[t].replies;
          assert RepliesOk(idx, t);
          if t != m { ConversationsAreRoots(idx, refs, t); }
          assert false;
        }
      }
      assert next[left].replies == idx[left].replies;
      assert !RepliesOk(next, left);
    }
  }

  /** A message filed under another root loses that root when it is joined to a third
      conversation: it goes alone, while its old conversation still lists it. */
  lemma JoinMayBreakInvariant()
    ensures var idx := [Message(0, Alone(0), [0, 1]), Message(1, Under(0, 0), []), Message(2, Alone(2), [])];
      Inv(idx) && !Joinable(idx, 1, [2]) && !Inv(Joined(idx, 1, [2], None))
  {
    var idx := [Message(0, Alone(0), [0, 1]), Message(1, Under(0, 0), []), Message(2, Alone(2), [])];
    forall m: nat | m < |idx| ensures RootOk(idx, m) && RepliesOk(idx, m) {}
    JoinKeepsInvariantExactly(idx, 1, [2], None);
  }

  // ----- Splitting: the index after cutting a family loose

  /** The messages that name p as their parent, in list order. */
  function KidsOf(idx: Index, thread: seq<nat>, p: nat): (kids: seq<nat>)
    requires InRange(thread, idx)
    ensures forall x :: x in kids <==> x in thread && idx[x].thread.Parent() == p
  {
    if thread == [] then []
    else
      var last := thread[|thread| - 1];
      assert thread == thread[..|thread| - 1] + [last];
      KidsOf(idx, thread[..|thread| - 1], p) + if idx[last].thread.Parent() == p then [last] else []
  }

  function Kids(hasKids: map<nat, seq<nat>>, p: nat): seq<nat> {
    if p in hasKids then hasKids[p] else []
  }

  /** s contains the children of all its elements. */
  ghost predicate Closed(hasKids: map<nat, seq<nat>>, s: set<nat>) {
    forall x, k :: x in s && k in Kids(hasKids, x) ==> k in s
  }

  ghost predicate NoDuplicates(s: seq<nat>) {
    forall i, j :: 0 <= i < j < |s| ==> s[i] != s[j]
  }

  /** s is p and its descendants: the least closed set around p. */
  ghost predicate IsFamily(hasKids: map<nat, seq<nat>>, p: nat, s: set<nat>) {
    && p in s && Closed(hasKids, s)
    && forall c: set<nat> :: p in c && Closed(hasKids, c) ==> s <= c
  }

  /** hasKids is the parent relation restricted to the messages in thread. */
  ghost predicate IsParentMap(idx: Index, thread: seq<nat>, hasKids: map<nat, seq<nat>>)
    requires InRange(thread, idx)
  {
    forall p :: Kids(hasKids, p) == KidsOf(idx, thread, p)
  }

  /** The members left behind by the family members that owned a list. */
  function Orphans(idx: Index, family: seq<nat>): (o: set<nat>)
    requires InRange(family, idx)
  {
    OrphansOf(idx, family, family)
  }

  function OrphansOf(idx: Index, part: seq<nat>, family: seq<nat>): (o: set<nat>)
    requires InRange(part, idx)
  {
    set t, x | t in part && x in idx[t].replies && x !in family :: x
  }

  /** The roots of the conversations the family was in. */
  function RootsOf(idx: Index, part: seq<nat>): (r: set<nat>)
    requires InRange(part, idx)
  {
    set t | t in part :: idx[t].thread.root
  }

  lemma OneMoreMember(idx: Index, part: seq<nat>, t: nat, family: seq<nat>)
    requires InRange(part, idx) && t < |idx|
    ensures OrphansOf(idx, part + [t], family) ==
            OrphansOf(idx, part, family) + (Elements(idx[t].replies) - Elements(family))
    ensures RootsOf(idx, part + [t]) == RootsOf(idx, part) + {idx[t].thread.root}
  {
    assert forall u :: u in part + [t] <==> u in part || u == t;
  }

  /** A family member after the split: p heads the family, the rest list nobody. */
  function FamilyAt(msg: Message, p: nat, family: seq<nat>, x: nat): Message {
    if x == p then msg.(thread := Alone(p), replies := Pack(family))
    else msg.(thread := msg.thread.EditRoot(p), replies := [])
  }

  /** A stranded message after the split: the first one heads them. */
  function OrphanAt(msg: Message, orphans: seq<nat>, x: nat): Message
    requires orphans != []
  {
    msg.(thread := msg.thread.EditRoot(orphans[0]), replies := if x == orphans[0] then Pack(orphans) else msg.replies)
  }

  function SplitAt(idx: Index, p: nat, family: seq<nat>, x: nat): (r: Message)
    requires x < |idx| && InRange(family, idx)
  {
    var orphans := SortMids(Orphans(idx, family));
    if x in family then FamilyAt(idx[x], p, family, x)
    else if x in orphans then OrphanAt(idx[x], orphans, x)
    else if exists t :: t in family && idx[t].thread.root == x then
      idx[x].(replies := Pack(Without(idx[x].replies, Elements(family))))
    else idx[x]
  }

  /** The index after `_reparent`. */
  function Split(idx: Index, p: nat, family: seq<nat>): (r: Index)
    requires InRange(family, idx)
    ensures |r| == |idx|
  {
    seq(|idx|, x requires 0 <= x < |idx| => SplitAt(idx, p, family, x))
  }

  /** The messages whose conversation lost its root to the family. */
  ghost predicate Stranded(idx: Index, family: seq<nat>, x: nat)
    requires x < |idx|
  {
    x !in family && idx[x].thread.root in family
  }

  lemma OrphansAreStranded(idx: Index, family: seq<nat>, x: nat)
    requires Inv(idx) && InRange(family, idx)
    ensures x in Orphans(idx, family) <==> x < |idx| && Stranded(idx, family, x)
  {
    if x in Orphans(idx, family) {
      var t :| t in family && x in idx[t].replies;
      assert RepliesOk(idx, t);
    }
    if x < |idx| && Stranded(idx, family, x) {
      assert RootOk(idx, x);
    }
  }

  /** Pointwise reading of the split. */
  lemma SplitMeaning(idx: Index, p: nat, family: seq<nat>, x: nat)
    requires Inv(idx) && InRange(family, idx) && p in family && x < |idx|
    ensures var orphans, root := SortMids(Orphans(idx, family)), Split(idx, p, family)[x].thread.root;
      && (x in family ==> root == p)
      && (Stranded(idx, family, x) ==> orphans != [] && root == orphans[0])
      && (x !in family && !Stranded(idx, family, x) ==> root == idx[x].thread.root)
  {
    OrphansAreStranded(idx, family, x);
    assert Split(idx, p, family)[x] == SplitAt(idx, p, family, x);
  }

  /** The member lists after the split, by kind of owner. */
  lemma SplitLists(idx: Index, p: nat, family: seq<nat>, x: nat)
    requires Inv(idx) && InRange(family, idx) && p in family && x < |idx|
    ensures var orphans, replies := SortMids(Orphans(idx, family)), Split(idx, p, family)[x].replies;
      if x == p then replies == Pack(family)
      else if x in family then replies == []
      else if Stranded(idx, family, x) then
        orphans != [] && replies == if x == orphans[0] then Pack(orphans) else []
      else replies == idx[x].replies || replies == Pack(Without(idx[x].replies, Elements(family)))
    ensures x !in family && !Stranded(idx, family, x) ==>
      forall y :: y in family ==> y !in Split(idx, p, family)[x].replies
  {
    OrphansAreStranded(idx, family, x);
    assert RepliesOk(idx, x) && RootOk(idx, x);
    assert Split(idx, p, family)[x] == SplitAt(idx, p, family, x);
  }

  lemma PackMeaning(s: seq<nat>, x: nat, y: nat)
    requires x in s
    ensures Pack(s) != [] ==> x in Pack(s)
    ensures y in Pack(s) ==> y in s
    ensures y in s && y != x ==> y in Pack(s)
  {}

  lemma SplitRootOk(idx: Index, p: nat, family: seq<nat>, x: nat)
    requires Inv(idx) && InRange(family, idx) && p in family && x < |idx|
    ensures RootOk(Split(idx, p, family), x)
  {
    var orphans := SortMids(Orphans(idx, family));
    SplitMeaning(idx, p, family, x);
    OrphansAreStranded(idx, family, x);
    if x in family {
      SplitMeaning(idx, p, family, p);
      SplitLists(idx, p, family, p);
      PackMeaning(family, p, x);
    } else if Stranded(idx, family, x) {
      var first := orphans[0];
      OrphansAreStranded(idx, family, first);
      SplitMeaning(idx, p, family, first);
      SplitLists(idx, p, family, first);
      PackMeaning(orphans, first, x);
    } else {
      assert RootOk(idx, x);
      var r := idx[x].thread.root;
      SplitMeaning(idx, p, family, r);
      SplitLists(idx, p, family, r);
      var stay := Without(idx[r].replies, Elements(family));
      if x != r {
        assert RepliesOk(idx, r) && r in stay;
        PackMeaning(stay, r, x);
      }
    }
  }

  lemma SplitRepliesOk(idx: Index, p: nat, family: seq<nat>, x: nat)
    requires Inv(idx) && InRange(family, idx) && p in family && x < |idx|
    ensures RepliesOk(Split(idx, p, family), x)
  {
    var orphans := SortMids(Orphans(idx, family));
    var next := Split(idx, p, family);
    SplitLists(idx, p, family, x);
    OrphansAreStranded(idx, family, x);
    assert RepliesOk(idx, x);
    forall y | y in next[x].replies ensures y < |idx| && next[y].thread.root == x {
      OrphansAreStranded(idx, family, y);
      if y < |idx| { SplitMeaning(idx, p, family, y); }
    }
    var stay := Without(idx[x].replies, Elements(family));
    if x !in family && idx[x].replies != [] { PackMeaning(stay, x, x); }
  }

  /** Splitting any family off keeps the invariant, whatever conversations its
      members came from. */
  lemma SplitKeepsInvariant(idx: Index, p: nat, family: seq<nat>)
    requires Inv(idx) && InRange(family, idx) && p in family
    ensures Inv(Split(idx, p, family))
  {
    forall x: nat | x < |idx|
      ensures RootOk(Split(idx, p, family), x) && RepliesOk(Split(idx, p, family), x)
    {
      SplitRootOk(idx, p, family, x);
      SplitRepliesOk(idx, p, family, x);
    }
  }

  /** Afterwards the family is one conversation rooted at p, the stranded
      messages are one conversation, and all other pairs are as before. */
  lemma SplitIsPartition(idx: Index, p: nat, family: seq<nat>, a: nat, b: nat)
    requires Inv(idx) && InRange(family, idx) && p in family && a < |idx| && b < |idx|
    ensures Same(Split(idx, p, family), a, b) <==>
      || (a in family && b in family)
      || (a !in family && b !in family
          && (Same(idx, a, b) || (Stranded(idx, family, a) && Stranded(idx, family, b))))
    ensures a in family ==> Split(idx, p, family)[a].thread.root == p
    ensures a !in family && (forall t :: t in family ==> !Same(idx, a, t)) ==> Split(idx, p, family)[a] == idx[a]
    ensures a != p ==> Split(idx, p, family)[a].thread.Parent() == idx[a].thread.Parent()
  {
    assert RootOk(idx, a) && RootOk(idx, b);
    SplitMeaning(idx, p, family, a);
    SplitMeaning(idx, p, family, b);
    var orphans := SortMids(Orphans(idx, family));
    OrphansAreStranded(idx, family, a);
    if orphans != [] { OrphansAreStranded(idx, family, orphans[0]); assert RootOk(idx, orphans[0]); }
    assert Split(idx, p, family)[a] == SplitAt(idx, p, family, a);
    if a !in family && forall t :: t in family ==> !Same(idx, a, t) {
      assert Same(idx, a, idx[a].thread.root);
      forall t | t in family ensures idx[t].thread.root != a {
        assert RootOk(idx, t) && !Same(idx, a, t);
      }
    }
  }

  /** Cutting a message loose splits its conversation into exactly the message
      with its descendants and the rest; all other conversations stay. */
  lemma UnthreadIsSplit(idx: Index, m: nat, hasKids: map<nat, seq<nat>>, family: seq<nat>, a: nat, b: nat)
    requires Inv(idx) && m < |idx| && InRange(family, idx) && a < |idx| && b < |idx|
    requires idx[m].thread.root < |idx| && InRange(idx[idx[m].thread.root].replies, idx)
    requires IsParentMap(idx, idx[idx[m].thread.root].replies, hasKids)
    requires IsFamily(hasKids, m, Elements(family))
    ensures a in family ==> Same(idx, a, m)
    ensures Same(Split(idx, m, family), a, b) <==> Same(idx, a, b) && (a in family <==> b in family)
    ensures !Same(idx, a, m) ==> Split(idx, m, family)[a] == idx[a]
  {
    FamilyInConversation(idx, m, m, hasKids, Elements(family));
    assert forall t :: t in family ==> t in Elements(family);
    assert RootOk(idx, a) && RootOk(idx, b);
    SplitIsPartition(idx, m, family, a, b);
  }

  lemma FamilyInConversation(idx: Index, m: nat, p: nat, hasKids: map<nat, seq<nat>>, family: set<nat>)
    requires Inv(idx) && m < |idx| && p < |idx| && Same(idx, p, m)
    requires idx[m].thread.root < |idx| && InRange(idx[idx[m].thread.root].replies, idx)
    requires IsParentMap(idx, idx[idx[m].thread.root].replies, hasKids)
    requires IsFamily(hasKids, p, family)
    ensures forall x <- family :: x < |idx| && Same(idx, x, m)
  {
    var conversation := set x: nat | x < |idx| && Same(idx, x, m);
    assert RepliesOk(idx, idx[m].thread.root);
    assert Closed(hasKids, conversation);
  }

  /** A family member other than its head has its parent, a different message,
      in the family. */
  lemma FamilyHasParents(idx: Index, thread: seq<nat>, hasKids: map<nat, seq<nat>>, p: nat, family: set<nat>, c: nat)
    requires InRange(thread, idx) && IsParentMap(idx, thread, hasKids) && IsFamily(hasKids, p, family)
    requires c in family && c != p
    ensures c < |idx| && idx[c].thread.Parent() in family && idx[c].thread.Parent() != c
  {
    forall x, k | x in family - {c} && k in Kids(hasKids, x) && k == c
      ensures c < |idx| && idx[c].thread.Parent() == x
    {
      assert c in KidsOf(idx, thread, x);
    }
    if !Closed(hasKids, family - {c}) {
      var x, k :| x in family - {c} && k in Kids(hasKids, x) && k !in family - {c};
      assert k in family;
    }
  }

  /** The children of m other than m itself have disjoint families. */
  lemma FamiliesAreDisjoint(idx: Index, thread: seq<nat>, hasKids: map<nat, seq<nat>>, m: nat,
                            k: nat, family: set<nat>, k': nat, family': set<nat>)
    requires InRange(thread, idx) && IsParentMap(idx, thread, hasKids)
    requires m < |idx| && idx[m].thread.Parent() == m
    requires k in KidsOf(idx, thread, m) && k' in KidsOf(idx, thread, m) && k != m && k' != m && k != k'
    requires IsFamily(hasKids, k, family) && IsFamily(hasKids, k', family')
    ensures m !in family && family !! family'
  {
    if m in family { FamilyHasParents(idx, thread, hasKids, k, family, m); }
    if m in family' { FamilyHasParents(idx, thread, hasKids, k', family', m); }
    if k in family' { FamilyHasParents(idx, thread, hasKids, k', family', k); }
    forall y, c | y in family - family' && c in Kids(hasKids, y) ensures c in family - family' {
      assert c in KidsOf(idx, thread, y);
      if c in family' { FamilyHasParents(idx, thread, hasKids, k', family', c); }
    }
    assert Closed(hasKids, family - family');
  }

  /** What follows the last occurrence of m. */
  function After(kids: seq<nat>, m: nat): (r: seq<nat>)
    ensures m !in r && (forall k :: k in r ==> k in kids)
  {
    if kids == [] || kids[|kids| - 1] == m then []
    else After(kids[..|kids| - 1], m) + [kids[|kids| - 1]]
  }

  /** x is p or one of its descendants. */
  ghost predicate Descends(hasKids: map<nat, seq<nat>>, p: nat, x: nat) {
    forall c: set<nat> :: p in c && Closed(hasKids, c) ==> x in c
  }

  lemma FamilyIsDescendants(hasKids: map<nat, seq<nat>>, p: nat, s: set<nat>, x: nat)
    requires IsFamily(hasKids, p, s)
    ensures x in s <==> Descends(hasKids, p, x)
  {}

  /** The same, said of the index alone: every set that has p and is closed under
      taking listed children has x. */
  ghost predicate DescendsIn(idx: Index, thread: seq<nat>, p: nat, x: nat)
    requires InRange(thread, idx)
  {
    forall c: set<nat> :: p in c && ClosedIn(idx, thread, c) ==> x in c
  }

  ghost predicate ClosedIn(idx: Index, thread: seq<nat>, c: set<nat>)
    requires InRange(thread, idx)
  {
    forall k :: k in thread && idx[k].thread.Parent() in c ==> k in c
  }

  lemma DescentInIndex(idx: Index, thread: seq<nat>, hasKids: map<nat, seq<nat>>, p: nat, x: nat)
    requires InRange(thread, idx) && IsParentMap(idx, thread, hasKids)
    ensures Descends(hasKids, p, x) <==> DescendsIn(idx, thread, p, x)
  {
    forall c: set<nat> ensures Closed(hasKids, c) <==> ClosedIn(idx, thread, c) {
      if Closed(hasKids, c) {
        forall k | k in thread && idx[k].thread.Parent() in c ensures k in c {
          assert k in KidsOf(idx, thread, idx[k].thread.Parent());
        }
      }
    }
  }

  /** The effect of unthreading a conversation's root m: each child in cut heads
      its descendants as a conversation of its own, everything else below m is
      rooted at m. */
  ghost predicate RootUnthreaded(idx: Index, hasKids: map<nat, seq<nat>>, m: nat, cut: seq<nat>) {
    forall x: nat :: Descends(hasKids, m, x) ==> x < |idx| && RootAfter(hasKids, m, cut, x, idx[x].thread.root)
  }

  ghost predicate RootAfter(hasKids: map<nat, seq<nat>>, m: nat, cut: seq<nat>, x: nat, root: nat) {
    && (forall k :: k in cut && Descends(hasKids, k, x) ==> root == k)
    && (root != m ==> root in cut && Descends(hasKids, root, x))
  }

  lemma DistinctCuts(before: Index, thread: seq<nat>, hasKids: map<nat, seq<nat>>, m: nat,
                     k: nat, family: set<nat>, c: nat, family': set<nat>, x: nat)
    requires InRange(thread, before) && IsParentMap(before, thread, hasKids)
    requires m < |before| && before[m].thread.Parent() == m
    requires c != m && c in KidsOf(before, thread, m) && k != m && k in KidsOf(before, thread, m) && k != c
    requires IsFamily(hasKids, k, family) && IsFamily(hasKids, c, family')
    ensures c !in family && (x in family ==> !Descends(hasKids, c, x))
  {
    FamiliesAreDisjoint(before, thread, hasKids, m, k, family, c, family');
    FamilyIsDescendants(hasKids, c, family', x);
    assert c in family';
  }

  lemma CutOneMore(idx: Index, before: Index, thread: seq<nat>, hasKids: map<nat, seq<nat>>, m: nat, cut: seq<nat>,
                   k: nat, family: seq<nat>, families: map<nat, set<nat>>)
    requires InRange(thread, before) && IsParentMap(before, thread, hasKids)
    requires m < |before| && before[m].thread.Parent() == m
    requires forall c :: c in cut || c == k ==> c != m && c in KidsOf(before, thread, m)
    requires forall c :: c in cut || c == k ==> c in families && IsFamily(hasKids, c, families[c])
    requires Inv(idx) && InRange(family, idx) && Elements(family) == families[k]
    requires RootUnthreaded(idx, hasKids, m, cut)
    ensures RootUnthreaded(Split(idx, k, family), hasKids, m, cut + [k])
  {
    assert k in families[k];
    if m in families[k] { FamilyHasParents(before, thread, hasKids, k, families[k], m); }
    forall x: nat | Descends(hasKids, m, x)
      ensures x < |idx| && RootAfter(hasKids, m, cut + [k], x, Split(idx, k, family)[x].thread.root)
    {
      var root := idx[x].thread.root;
      SplitMeaning(idx, k, family, x);
      FamilyIsDescendants(hasKids, k, families[k], x);
      assert RootAfter(hasKids, m, cut, x, root);
      if x in families[k] {
        forall c | c in cut && c != k ensures !Descends(hasKids, c, x) {
          DistinctCuts(before, thread, hasKids, m, k, families[k], c, families[c], x);
        }
      } else if root != m && root != k {
        DistinctCuts(before, thread, hasKids, m, k, families[k], root, families[root], x);
      }
    }
  }

  /** A child of m is cut loose exactly when m is listed before it. */
  lemma KidIsCut(idx: Index, before: Index, thread: seq<nat>, hasKids: map<nat, seq<nat>>, m: nat, cut: seq<nat>,
                 k: nat, families: map<nat, set<nat>>)
    requires InRange(thread, before) && IsParentMap(before, thread, hasKids)
    requires m < |before| && before[m].thread.Parent() == m && k != m && k in KidsOf(before, thread, m)
    requires forall c :: c in cut ==> c != m && c in KidsOf(before, thread, m)
    requires forall c :: c in cut || c == k ==> c in families && IsFamily(hasKids, c, families[c])
    requires RootUnthreaded(idx, hasKids, m, cut)
    ensures k < |idx| && idx[k].thread.root == if k in cut then k else m
  {
    assert k in Kids(hasKids, m);
    assert Descends(hasKids, m, k) by {
      forall c: set<nat> | m in c && Closed(hasKids, c) ensures k in c {}
    }
    assert Descends(hasKids, k, k);
    var root := idx[k].thread.root;
    assert RootAfter(hasKids, m, cut, k, root);
    if root != m && root != k {
      DistinctCuts(before, thread, hasKids, m, k, families[k], root, families[root], k);
    }
  }

  lemma SelfStaysRoot(idx: Index, before: Index, thread: seq<nat>, hasKids: map<nat, seq<nat>>, m: nat, cut: seq<nat>,
                      families: map<nat, set<nat>>)
    requires InRange(thread, before) && IsParentMap(before, thread, hasKids)
    requires m < |before| && before[m].thread.Parent() == m
    requires forall c :: c in cut ==> c != m && c in families && IsFamily(hasKids, c, families[c])
    requires RootUnthreaded(idx, hasKids, m, cut)
    ensures m < |idx| && idx[m].thread.root == m
  {
    assert Descends(hasKids, m, m);
    var root := idx[m].thread.root;
    assert RootAfter(hasKids, m, cut, m, root);
    if root != m {
      FamilyIsDescendants(hasKids, root, families[root], m);
      FamilyHasParents(before, thread, hasKids, root, families[root], m);
    }
  }

  /** Changes are confined to the conversation m was in: other messages are as
      before, and the roots of its messages lie inside. */
  ghost predicate Confined(before: Index, idx: Index, m: nat)
    requires m < |before| == |idx|
  {
    forall a :: 0 <= a < |idx| ==>
      if Same(before, a, m) then idx[a].thread.root < |idx| && Same(before, idx[a].thread.root, m)
      else idx[a] == before[a]
  }

  lemma SplitStaysConfined(before: Index, idx: Index, m: nat, k: nat, family: seq<nat>)
    requires Inv(before) && Inv(idx) && m < |before| == |idx| && Confined(before, idx, m)
    requires InRange(family, idx) && k in family && forall t :: t in family ==> Same(before, t, m)
    ensures Confined(before, Split(idx, k, family), m)
  {
    forall a: nat | a < |idx|
      ensures if Same(before, a, m) then Split(idx, k, family)[a].thread.root < |idx| && Same(before, Split(idx, k, family)[a].thread.root, m)
              else Split(idx, k, family)[a] == before[a]
    {
      assert RootOk(before, a);
      if Same(before, a, m) {
        SplitMeaning(idx, k, family, a);
        if Stranded(idx, family, a) {
          var first := SortMids(Orphans(idx, family))[0];
          OrphansAreStranded(idx, family, first);
          assert RootOk(before, first);
        }
      } else {
        SplitIsPartition(idx, k, family, a, a);
      }
    }
  }
}
