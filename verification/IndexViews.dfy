/** What the metadata index keeps beside its records.

    The views are which messages have a tag, the conversation of each message, and
    the sort keys.  Each can be computed from the records alone. */
module IndexViews {
  import opened Wrappers
  import opened Threading

  /** The fields of a message that the views depend on. */
  datatype Info = Info(root: int, replies: seq<nat>, tags: set<string>, date: int)

  /** Stands in for a message that is not there. */
  const BOGUS := Info(-1, [], {}, 0)

  type Infos = seq<Option<Info>>

  /** A record position, counted from the end if it is negative. */
  function Position(index: Infos, i: int): int {
    if i < 0 then |index| + i else i
  }

  predicate Present(index: Infos, i: int) {
    var p := Position(index, i);
    0 <= p < |index| && index[p].Some?
  }

  function InfoAt(index: Infos, i: int): Info {
    if Present(index, i) then index[Position(index, i)].value else BOGUS
  }

  /** The message at this position, if there is one. */
  function Mids(index: Infos, i: int): set<nat> {
    if Present(index, i) then {Position(index, i) as nat} else {}
  }

  /** The messages of the conversation that message i belongs to: its root, whatever
      the root lists, and the message itself. */
  function ConversationAt(index: Infos, i: int): set<nat> {
    var root := InfoAt(index, i).root;
    Mids(index, root) + Mids(index, i)
    + set r, j | r in InfoAt(index, root).replies && j in Mids(index, r) :: j
  }

  function Targets(index: Infos, ids: set<nat>, conversation: bool): set<nat> {
    ids + if conversation then set i, j | i in ids && j in ConversationAt(index, i) :: j else {}
  }

  /** The record after tagging or untagging.  Tags that are not configured are dropped
      when a record changes. */
  function Retagged(info: Info, tag: string, add: bool, configured: set<string>): Info {
    if !Changes(info, tag, add, configured) then info
    else info.(tags := if add then info.tags * configured + {tag} else info.tags * configured - {tag})
  }

  predicate Changes(info: Info, tag: string, add: bool, configured: set<string>) {
    add != (tag in info.tags * configured)
  }

  function TagSet(tags: map<string, set<nat>>, t: string): set<nat> {
    if t in tags then tags[t] else {}
  }

  predicate SortedBy(order: seq<int>, index: Infos, sorter: Info -> int) {
    && |order| == |index|
    && forall i :: 0 <= i < |index| ==> order[i] == if index[i].Some? then sorter(index[i].value) else 0
  }

  predicate ThreadView(thr: seq<int>, index: Infos) {
    && |thr| == |index|
    && forall i :: 0 <= i < |index| ==> thr[i] == InfoAt(index, i).root
  }

  predicate SortView(sort: map<string, seq<int>>, index: Infos, sorters: map<string, Info -> int>) {
    sort.Keys == sorters.Keys && forall o :: o in sort ==> SortedBy(sort[o], index, sorters[o])
  }

  predicate HasTag(index: Infos, i: nat, t: string) {
    i < |index| && t in InfoAt(index, i).tags
  }

  ghost predicate TagView(tags: map<string, set<nat>>, index: Infos, configured: set<string>) {
    forall t, i: nat :: t in configured ==> (i in TagSet(tags, t) <==> HasTag(index, i, t))
  }

  class Views {
    const configured: set<string>
    const sorters: map<string, Info -> int>
    var index: Infos
    var thr: seq<int>
    var sort: map<string, seq<int>>
    var tags: map<string, set<nat>>
    var modified: set<nat>

    /** The views agree with the records. */
    ghost predicate Valid()
      reads this
    {
      ThreadView(thr, index) && SortView(sort, index, sorters) && TagView(tags, index, configured)
    }

    constructor (configured: set<string>, sorters: map<string, Info -> int>)
      ensures Valid() && index == [] && modified == {}
      ensures this.configured == configured && this.sorters == sorters
    {
      this.configured, this.sorters := configured, sorters;
      index, thr, tags, modified := [], [], map[], {};
      sort := map o | o in sorters :: [];
    }

    /** Put a record in the index, after blank ones if it is beyond the end, and bring
        the views up to date. */
    method SetMsg(i: nat, info: Info, loading: bool)
      requires Valid()
      modifies this
      ensures Valid()
      ensures |index| == (if i < |old(index)| then |old(index)| else i + 1)
      ensures forall j :: 0 <= j < |index| ==>
        index[j] == if j == i then Some(info) else if j < |old(index)| then old(index)[j] else None
      ensures modified == if loading then old(modified) else old(modified) + {i}
    {
      hide TagView, SortView, ThreadView;
      while |index| <= i
        modifies this`index, this`thr, this`sort
        invariant Valid()
        invariant |old(index)| <= |index| && (|index| > |old(index)| ==> |index| <= i + 1)
        invariant forall j :: 0 <= j < |index| ==> index[j] == if j < |old(index)| then old(index)[j] else None
      {
        BlankKeepsViews(thr, sort, tags, index, sorters, configured);
        index := index + [None];
        thr := thr + [-1];
        sort := map o | o in sort :: sort[o] + [0];
      }
      ghost var before := index;
      ChangeThreads(thr, before, i, info);
      index := index[i := Some(info)];
      thr := thr[i := info.root];
      UpdateSorting(before, i, info);
      UpdateTags(before, i, info);
      if !loading {
        modified := modified + {i};
      }
    }

    method UpdateSorting(ghost before: Infos, i: nat, info: Info)
      requires i < |before| && index == before[i := Some(info)] && SortView(sort, before, sorters)
      modifies this`sort
      ensures SortView(sort, index, sorters)
    {
      ghost var was := sort;
      var todo := sorters.Keys;
      while todo != {}
        invariant todo <= sorters.Keys == sort.Keys
        invariant forall o :: o in sort && o in todo ==> sort[o] == was[o]
        invariant forall o :: o in sort && o !in todo ==> SortedBy(sort[o], index, sorters[o])
        decreases todo
      {
        var o :| o in todo;
        sort := sort[o := sort[o][i := sorters[o](info)]];
        todo := todo - {o};
      }
    }

    /** File the message under the tags it has now and under no others. */
    method UpdateTags(ghost before: Infos, i: nat, info: Info)
      requires i < |before| && index == before[i := Some(info)] && TagView(tags, before, configured)
      modifies this`tags
      ensures TagView(tags, index, configured)
    {
      hide TagView, TagSet;
      ghost var was := tags;
      var has := info.tags * configured;
      Unfile(i, tags.Keys - has);
      UnfiledSets(was, tags, i, has);
      File(i, has);
      FiledView(was, tags, before, i, info, configured);
    }

    method Unfile(i: nat, under: set<string>)
      requires under <= tags.Keys
      modifies this`tags
      ensures tags.Keys == old(tags).Keys
      ensures forall t :: t in tags ==> tags[t] == if t in under then old(tags)[t] - {i} else old(tags)[t]
    {
      var todo := under;
      while todo != {}
        invariant todo <= under && tags.Keys == old(tags).Keys
        invariant forall t :: t in tags ==> tags[t] == if t in under - todo then old(tags)[t] - {i} else old(tags)[t]
        decreases todo
      {
        var t :| t in todo;
        tags := tags[t := tags[t] - {i}];
        todo := todo - {t};
      }
    }

    method File(i: nat, under: set<string>)
      modifies this`tags
      ensures forall t :: TagSet(tags, t) == if t in under then TagSet(old(tags), t) + {i} else TagSet(old(tags), t)
    {
      var todo := under;
      while todo != {}
        invariant todo <= under
        invariant forall t ::
          TagSet(tags, t) == if t in under - todo then TagSet(old(tags), t) + {i} else TagSet(old(tags), t)
        decreases todo
      {
        var t :| t in todo;
        if t !in tags {
          tags := tags[t := {}];
        }
        tags := tags[t := tags[t] + {i}];
        todo := todo - {t};
      }
    }

    /** All messages to change, with the conversations they belong to if asked. */
    method Expand(ids: set<nat>, conversation: bool) returns (all: set<nat>)
      ensures all == Targets(index, ids, conversation)
    {
      all := ids;
      if conversation {
        var todo := ids;
        while todo != {}
          invariant todo <= ids
          invariant all == ids + set i, j | i in ids - todo && j in ConversationAt(index, i) :: j
          decreases todo
        {
          var i :| i in todo;
          all := all + ConversationAt(index, i);
          todo := todo - {i};
        }
        assert ids - {} == ids;
      }
    }

    /** Tag or untag messages, or their whole conversations. */
    method ChangeTag(tag: string, add: bool, ids: set<nat>, conversation: bool) returns (changed: set<nat>)
      requires Valid()
      modifies this
      ensures Valid() && |index| == |old(index)|
      ensures forall i: nat :: i in changed <==>
        && i in Targets(old(index), ids, conversation) && i < |index|
        && Changes(InfoAt(old(index), i), tag, add, configured)
      ensures RetaggedIndex(old(index), index, changed, tag, add, configured)
      ensures modified == old(modified) + changed
      ensures !conversation || Sound(old(index)) ==> forall i: nat :: i in changed <==>
        Reached(old(index), ids, conversation, i) && i < |index| && (add <==> !Carries(old(index), i, tag, configured))
    {
      hide TagView, SortView, ThreadView, Changes, Retagged, TagSet, Sound, Reached, Carries;
      ReachedAreChanged(index, tag, add, ids, conversation, configured);
      var all := Expand(ids, conversation);
      var todo, eids := all, {};
      changed := {};
      while todo != {}
        modifies this`index, this`sort, this`modified
        invariant todo <= all && RetaggedIndex(old(index), index, changed, tag, add, configured)
        invariant forall i :: i in eids <==> i in all && i !in todo && i < |index|
        invariant forall i :: i in changed <==> i in eids && Changes(InfoAt(old(index), i), tag, add, configured)
        invariant modified == old(modified) + changed
        invariant ThreadView(thr, index) && SortView(sort, index, sorters)
        decreases todo
      {
        var i :| i in todo;
        todo := todo - {i};
        if i < |index| {
          var info := InfoAt(index, i);
          if Changes(info, tag, add, configured) {
            ghost var before := index;
            info := Retagged(info, tag, add, configured);
            RetagOne(thr, index, i, tag, add, configured);
            index := index[i := Some(info)];
            modified := modified + {i};
            changed := changed + {i};
            UpdateSorting(before, i, info);
          }
          eids := eids + {i};
        }
      }
      RetagKeepsTagView(old(index), index, tags, eids, changed, tag, add, configured);
      FileAll(tag, add, eids);
    }

    method FileAll(tag: string, add: bool, eids: set<nat>)
      modifies this`tags
      ensures var files := if add then TagSet(old(tags), tag) + eids else TagSet(old(tags), tag) - eids;
              tags == old(tags)[tag := files] || (tags == old(tags) && tag !in tags && files == {})
    {
      if tag in tags {
        tags := tags[tag := if add then tags[tag] + eids else tags[tag] - eids];
      } else if add && eids != {} {
        assert {} + eids == eids;
        tags := tags[tag := eids];
      }
    }
  }

  lemma UnfiledSets(was: map<string, set<nat>>, tags: map<string, set<nat>>, i: nat, has: set<string>)
    requires tags.Keys == was.Keys
    requires forall t :: t in tags ==> tags[t] == if t in was.Keys - has then was[t] - {i} else was[t]
    ensures forall t :: TagSet(tags, t) == if t in has then TagSet(was, t) else TagSet(was, t) - {i}
  {}

  lemma FiledView(was: map<string, set<nat>>, tags: map<string, set<nat>>, index: Infos, i: nat, info: Info,
                  configured: set<string>)
    requires TagView(was, index, configured) && i < |index|
    requires forall t :: t in info.tags * configured ==> TagSet(tags, t) == TagSet(was, t) + {i}
    requires forall t :: t !in info.tags * configured ==> TagSet(tags, t) == TagSet(was, t) - {i}
    ensures TagView(tags, index[i := Some(info)], configured)
  {
    hide TagSet;
    forall t, j: nat | t in configured ensures j in TagSet(tags, t) <==> HasTag(index[i := Some(info)], j, t) {
      assert j in TagSet(was, t) <==> HasTag(index, j, t);
    }
  }

  /** The records with the changed ones retagged. */
  ghost predicate RetaggedIndex(before: Infos, after: Infos, changed: set<nat>, tag: string, add: bool,
                                configured: set<string>) {
    && |after| == |before|
    && forall i :: 0 <= i < |after| ==>
         after[i] == if i in changed then Some(Retagged(InfoAt(before, i), tag, add, configured)) else before[i]
  }

  lemma BlankKeepsViews(thr: seq<int>, sort: map<string, seq<int>>, tags: map<string, set<nat>>, index: Infos,
                        sorters: map<string, Info -> int>, configured: set<string>)
    ensures ThreadView(thr, index) ==> ThreadView(thr + [-1], index + [None])
    ensures SortView(sort, index, sorters) ==> SortView(map o | o in sort :: sort[o] + [0], index + [None], sorters)
    ensures TagView(tags, index, configured) ==> TagView(tags, index + [None], configured)
  {
    assert forall i: nat, t :: HasTag(index + [None], i, t) <==> HasTag(index, i, t);
  }

  lemma ChangeThreads(thr: seq<int>, index: Infos, i: nat, info: Info)
    requires ThreadView(thr, index) && i < |index|
    ensures |thr| == |index| && ThreadView(thr[i := info.root], index[i := Some(info)])
  {}

  lemma RetagOne(thr: seq<int>, index: Infos, i: nat, tag: string, add: bool, configured: set<string>)
    requires ThreadView(thr, index) && i < |index|
    ensures ThreadView(thr, index[i := Some(Retagged(InfoAt(index, i), tag, add, configured))])
  {}

  lemma RetagKeepsTagView(before: Infos, after: Infos, tags: map<string, set<nat>>, eids: set<nat>, changed: set<nat>,
                          tag: string, add: bool, configured: set<string>)
    requires RetaggedIndex(before, after, changed, tag, add, configured)
    requires TagView(tags, before, configured) && forall i :: i in eids ==> i < |after|
    requires forall i :: i in changed <==> i in eids && Changes(InfoAt(before, i), tag, add, configured)
    ensures var files := if add then TagSet(tags, tag) + eids else TagSet(tags, tag) - eids;
            && TagView(tags[tag := files], after, configured)
            && (tag !in tags && files == {} ==> TagView(tags, after, configured))
  {
    var files := if add then TagSet(tags, tag) + eids else TagSet(tags, tag) - eids;
    forall t, i: nat | t in configured
      ensures i in TagSet(tags[tag := files], t) <==> HasTag(after, i, t)
      ensures tag !in tags && files == {} ==> TagSet(tags, t) == TagSet(tags[tag := files], t)
    {
      assert i in TagSet(tags, t) <==> HasTag(before, i, t);
      if i < |after| {
        assert InfoAt(after, i) == if i in changed then Retagged(InfoAt(before, i), tag, add, configured) else InfoAt(before, i);
      }
    }
  }

  // ----- What tagging does

  /** Of the configured tags, the one given is set as asked and the others stay. */
  lemma RetaggedTags(info: Info, tag: string, add: bool, configured: set<string>)
    ensures forall t :: t in configured ==>
      (t in Retagged(info, tag, add, configured).tags <==> if t == tag then add else t in info.tags)
    ensures Retagged(info, tag, add, configured).(tags := {}) == info.(tags := {})
    ensures forall t :: t in Retagged(info, tag, add, configured).tags && t !in configured ==>
      if t == tag then add || t in info.tags
      else t in info.tags && (add <==> tag in info.tags && tag in configured)
  {}

  /** Undoing a change of tags gives back the configured tags. */
  lemma RetagTwice(info: Info, tag: string, add: bool, configured: set<string>)
    requires tag in configured && Changes(info, tag, add, configured)
    ensures Changes(Retagged(info, tag, add, configured), tag, !add, configured)
    ensures Retagged(Retagged(info, tag, add, configured), tag, !add, configured).tags == info.tags * configured
  {
    var there := Retagged(info, tag, add, configured);
    var back := Retagged(there, tag, !add, configured);
    assert there.tags * configured == there.tags;
    assert back.tags == info.tags * configured;
  }

  /** Of two messages of one conversation, the records name the same root. */
  predicate OneRoot(index: Infos, i: nat, j: nat) {
    i < |index| && j < |index| && index[i].Some? && index[j].Some? && index[i].value.root == index[j].value.root
  }

  /** A message is meant itself, or shares a root with one that is; an id beyond the
      index stands for the last message and those it lists. */
  ghost predicate Reached(index: Infos, ids: set<nat>, conversation: bool, i: nat) {
    || i in ids
    || (conversation && exists m :: m in ids && if m < |index| then OneRoot(index, m, i) else NearLast(index, i))
  }

  predicate NearLast(index: Infos, i: nat) {
    && index != [] && (i == |index| - 1 || (index[|index| - 1].Some? && i in index[|index| - 1].value.replies))
  }

  /** The message has the tag, and the tag is configured. */
  predicate Carries(index: Infos, i: nat, tag: string, configured: set<string>) {
    i < |index| && index[i].Some? && tag in index[i].value.tags && tag in configured
  }

  /** A complete index that keeps the conversation invariant. */
  ghost predicate Sound(index: Infos) {
    Complete(index) && Inv(Threads(index))
  }

  /** The targets are exactly the messages that are reached. */
  lemma TargetsAreReached(index: Infos, ids: set<nat>, conversation: bool, x: nat)
    requires !conversation || Sound(index)
    requires x < |index|
    ensures x in Targets(index, ids, conversation) <==> Reached(index, ids, conversation, x)
  {
    hide Inv, ConversationAt, Complete, Threads, NearLast, OneRoot;
    forall m | m in ids && conversation
      ensures x in ConversationAt(index, m) <==> if m < |index| then OneRoot(index, m, x) else NearLast(index, x)
    {
      if m < |index| {
        ConversationIsClass(index, m, x);
        RootsOfThreads(index, m, x);
      } else {
        ConversationBeyond(index, m, x);
      }
    }
  }

  lemma RootsOfThreads(index: Infos, m: nat, x: nat)
    requires Complete(index) && m < |index| && x < |index|
    ensures Same(Threads(index), m, x) <==> OneRoot(index, m, x)
  {}

  /** A record that is not there has root -1, which stands for the last record. */
  lemma ConversationBeyond(index: Infos, i: nat, x: nat)
    requires Complete(index) && i >= |index| && x < |index|
    ensures x in ConversationAt(index, i) <==> NearLast(index, x)
  {
    assert InfoAt(index, i) == BOGUS && Position(index, -1) == |index| - 1;
    assert InfoAt(index, -1) == index[|index| - 1].value && Mids(index, -1) == {|index| - 1};
    assert Mids(index, x) == {x};
  }

  /** The message is given, or shares a root with one that is. */
  ghost predicate Meant(index: Infos, ids: set<nat>, i: nat) {
    i in ids || exists m :: m in ids && OneRoot(index, m, i)
  }

  /** A conversation-wide change reaches just the conversations of the given messages if
      and only if each of these is in the index, or the last one's conversation is meant. */
  lemma ConversationsOnlyExactly(index: Infos, ids: set<nat>)
    requires Sound(index) && index != []
    ensures (forall x: nat :: x < |index| ==> (x in Targets(index, ids, true) <==> Meant(index, ids, x))) <==>
            (forall m :: m in ids ==> m < |index|) || (exists m :: m in ids && OneRoot(index, m, |index| - 1))
  {
    hide Sound, Targets, OneRoot;
    var last := |index| - 1;
    forall x: nat | x < |index|
      ensures x in Targets(index, ids, true) <==> Reached(index, ids, true, x)
      ensures NearLast(index, x) ==> OneRoot(index, last, x)
    {
      TargetsAreReached(index, ids, true, x);
      if NearLast(index, x) { NearLastIsClose(index, x); }
    }
    OneRootLinks(index);
    if m :| m in ids && m >= |index| {
      assert Reached(index, ids, true, last);
      assert last in ids ==> OneRoot(index, last, last);
    }
    if m :| m in ids && OneRoot(index, m, last) {
      forall x: nat | x < |index| && NearLast(index, x) ensures Meant(index, ids, x) {
        assert OneRoot(index, m, x);
      }
    }
  }

  lemma OneRootLinks(index: Infos)
    ensures forall a: nat, b: nat, c: nat :: OneRoot(index, a, b) && OneRoot(index, b, c) ==> OneRoot(index, a, c)
    ensures forall a: nat, b: nat :: OneRoot(index, a, b) ==> a < |index| && b < |index|
    ensures Sound(index) ==> forall a: nat :: a < |index| ==> OneRoot(index, a, a)
  {}

  lemma NearLastIsClose(index: Infos, x: nat)
    requires Sound(index) && index != [] && x < |index| && NearLast(index, x)
    ensures OneRoot(index, |index| - 1, x)
  {
    var idx, last := Threads(index), |index| - 1;
    assert RepliesOk(idx, last) && RootOk(idx, last);
  }

  /** Two separate messages: an id beyond them reaches the second. */
  lemma IdBeyondReachesLast()
    ensures var index := [Some(Info(0, [], {}, 0)), Some(Info(1, [], {}, 0))];
      Sound(index) && 1 in Targets(index, {2}, true) && 0 !in Targets(index, {2}, true)
  {
    var index := [Some(Info(0, [], {}, 0)), Some(Info(1, [], {}, 0))];
    SeparateAreSound(index);
    hide Sound, Targets;
    TargetsAreReached(index, {2}, true, 0);
    TargetsAreReached(index, {2}, true, 1);
  }

  lemma SeparateAreSound(index: Infos)
    requires index == [Some(Info(0, [], {}, 0)), Some(Info(1, [], {}, 0))]
    ensures Sound(index)
  {
    var idx := Threads(index);
    assert RootOk(idx, 0) && RootOk(idx, 1) && RepliesOk(idx, 0) && RepliesOk(idx, 1);
  }

  lemma ReachedAreChanged(index: Infos, tag: string, add: bool, ids: set<nat>, conversation: bool, configured: set<string>)
    ensures !conversation || Sound(index) ==> forall i: nat :: i < |index| ==>
      ((i in Targets(index, ids, conversation) && Changes(InfoAt(index, i), tag, add, configured)) <==>
       (Reached(index, ids, conversation, i) && (add <==> !Carries(index, i, tag, configured))))
  {
    hide Targets, Reached, Sound;
    if !conversation || Sound(index) {
      forall i: nat | i < |index|
        ensures i in Targets(index, ids, conversation) <==> Reached(index, ids, conversation, i)
        ensures Changes(InfoAt(index, i), tag, add, configured) <==> (add <==> !Carries(index, i, tag, configured))
      {
        TargetsAreReached(index, ids, conversation, i);
      }
    }
  }

  /** No record is blank and no root is missing. */
  predicate Complete(index: Infos) {
    forall i :: 0 <= i < |index| ==> index[i].Some? && index[i].value.root >= 0
  }

  /** The conversation fields of the records. */
  function Threads(index: Infos): Index
    requires Complete(index)
  {
    seq(|index|, i requires 0 <= i < |index| => Message(0, Alone(index[i].value.root), index[i].value.replies))
  }

  /** While the conversation invariant holds, tagging the conversation of a message
      reaches exactly the messages with the same root. */
  lemma ConversationIsClass(index: Infos, m: nat, x: nat)
    requires Complete(index) && Inv(Threads(index)) && m < |index|
    ensures x in ConversationAt(index, m) <==> x < |index| && Same(Threads(index), m, x)
  {
    var idx := Threads(index);
    var r := idx[m].thread.root;
    assert RootOk(idx, m);
    assert RepliesOk(idx, r);
    if x < |index| {
      assert RootOk(idx, x);
      if x in idx[r].replies { assert x in Mids(index, x); }
    }
  }
}
