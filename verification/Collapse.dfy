/** Showing one search result for each conversation. */
module Collapse {

  /** The conversations in the order in which they first appear. */
  function Order(threads: seq<int>): (order: seq<int>) {
    if threads == [] then []
    else
      var before, t := Order(threads[..|threads| - 1]), threads[|threads| - 1];
      if t in before then before else before + [t]
  }

  function FirstOf(threads: seq<int>, t: int): (n: nat)
    requires t in threads
    ensures n < |threads| && threads[n] == t && forall j :: 0 <= j < n ==> threads[j] != t
  {
    if threads[0] == t then 0 else 1 + FirstOf(threads[1..], t)
  }

  function LastOf(threads: seq<int>, t: int): (n: nat)
    requires t in threads
    ensures n < |threads| && threads[n] == t && forall j :: n < j < |threads| ==> threads[j] != t
  {
    if threads[|threads| - 1] == t then |threads| - 1 else LastOf(threads[..|threads| - 1], t)
  }

  /** The position of the result that stands for a conversation: the last one if the
      conversation's root is new, the first one otherwise. */
  function Pick(threads: seq<int>, allNew: set<int>, t: int): (n: nat)
    requires t in threads
    ensures n < |threads| && threads[n] == t
    ensures forall j :: 0 <= j < |threads| && threads[j] == t ==> if t in allNew then j <= n else n <= j
  {
    if t in allNew then LastOf(threads, t) else FirstOf(threads, t)
  }

  function Collapsed(results: seq<nat>, threads: seq<int>, allNew: set<int>): seq<nat>
    requires |results| == |threads|
  {
    OrderMembers(threads);
    var order := Order(threads);
    seq(|order|, p requires 0 <= p < |order| => results[Pick(threads, allNew, order[p])])
  }

  lemma {:induction false} OrderMembers(threads: seq<int>)
    ensures forall t :: t in Order(threads) <==> t in threads
    ensures forall p :: 0 <= p < |Order(threads)| ==> Order(threads)[p] in threads
  {
    if threads != [] {
      OrderMembers(threads[..|threads| - 1]);
      assert threads == threads[..|threads| - 1] + [threads[|threads| - 1]];
    }
  }

  lemma LastIs(threads: seq<int>, t: int, n: nat)
    requires n < |threads| && threads[n] == t && forall j :: n < j < |threads| ==> threads[j] != t
    ensures t in threads && LastOf(threads, t) == n
  {}

  lemma FirstIs(threads: seq<int>, t: int, n: nat)
    requires n < |threads| && threads[n] == t && forall j :: 0 <= j < n ==> threads[j] != t
    ensures t in threads && FirstOf(threads, t) == n
  {}

  /** Each conversation is there once, and they are ordered by first appearance. */
  lemma {:induction false} OrderIsByFirst(threads: seq<int>)
    ensures forall p, q :: 0 <= p < q < |Order(threads)| ==>
      && Order(threads)[p] in threads && Order(threads)[q] in threads
      && FirstOf(threads, Order(threads)[p]) < FirstOf(threads, Order(threads)[q])
  {
    OrderMembers(threads);
    if threads != [] {
      var init, t := threads[..|threads| - 1], threads[|threads| - 1];
      assert threads == init + [t];
      OrderMembers(init);
      OrderIsByFirst(init);
      hide FirstOf;
      forall x | x in init ensures x in threads && FirstOf(threads, x) == FirstOf(init, x) {
        FirstIs(threads, x, FirstOf(init, x));
      }
      if t !in init {
        FirstIs(threads, t, |init|);
      }
    }
  }

  lemma PickNext(threads: seq<int>, allNew: set<int>, t: int, x: int)
    requires x in threads
    ensures x in threads + [t]
    ensures Pick(threads + [t], allNew, x) == if x == t && t in allNew then |threads| else Pick(threads, allNew, x)
  {
    var more := threads + [t];
    LastIs(more, x, if x == t then |threads| else LastOf(threads, x));
  }

  lemma OrderMore(threads: seq<int>, t: int)
    ensures Order(threads + [t]) == if t in threads then Order(threads) else Order(threads) + [t]
  {
    assert (threads + [t])[..|threads|] == threads;
    OrderMembers(threads);
  }

  lemma OrderDistinct(threads: seq<int>, p: nat, q: nat)
    requires p < |Order(threads)| && q < |Order(threads)| && Order(threads)[p] == Order(threads)[q]
    ensures p == q
  {
    OrderIsByFirst(threads);
  }

  /** What stands for a conversation that was there before. */
  lemma CollapsedOld(results: seq<nat>, threads: seq<int>, allNew: set<int>, r: nat, t: int, p: nat)
    requires |results| == |threads| && p < |Order(threads)|
    ensures |Collapsed(results, threads, allNew)| == |Order(threads)| <= |Collapsed(results + [r], threads + [t], allNew)|
    ensures Collapsed(results + [r], threads + [t], allNew)[p] ==
              if Order(threads)[p] == t && t in allNew then r else Collapsed(results, threads, allNew)[p]
  {
    OrderMore(threads, t);
    OrderMembers(threads);
    PickNext(threads, allNew, t, Order(threads)[p]);
    hide Order, Pick;
  }

  lemma CollapsedNew(results: seq<nat>, threads: seq<int>, allNew: set<int>, r: nat, t: int)
    requires |results| == |threads| && t !in threads
    ensures |Collapsed(results + [r], threads + [t], allNew)| == |Order(threads)| + 1
    ensures Collapsed(results + [r], threads + [t], allNew)[|Order(threads)|] == r
  {
    OrderMore(threads, t);
    LastIs(threads + [t], t, |threads|);
    hide Order;
  }

  lemma CollapsedNext(results: seq<nat>, threads: seq<int>, allNew: set<int>, r: nat, t: int)
    requires |results| == |threads|
    ensures var kept, more := Collapsed(results, threads, allNew), Collapsed(results + [r], threads + [t], allNew);
            && |kept| == |Order(threads)|
            && (t !in threads ==> more == kept + [r])
            && (t in threads && t !in allNew ==> more == kept)
            && (t in threads && t in allNew ==>
                forall p :: 0 <= p < |kept| && Order(threads)[p] == t ==> more == kept[p := r])
  {
    var kept, more := Collapsed(results, threads, allNew), Collapsed(results + [r], threads + [t], allNew);
    OrderMore(threads, t);
    assert |kept| == |Order(threads)| && |more| == |Order(threads + [t])|;
    hide Collapsed, Order;
    forall p | 0 <= p < |Order(threads)|
      ensures more[p] == if Order(threads)[p] == t && t in allNew then r else kept[p]
    {
      CollapsedOld(results, threads, allNew, r, t, p);
    }
    if t !in threads {
      CollapsedNew(results, threads, allNew, r, t);
    }
    forall p, q | 0 <= p < |kept| && 0 <= q < |kept| && Order(threads)[p] == Order(threads)[q] ensures p == q {
      OrderDistinct(threads, p, q);
    }
  }

  function ThreadsOf(results: seq<nat>, thr: seq<int>): (threads: seq<int>)
    requires forall j :: 0 <= j < |results| ==> results[j] < |thr|
  {
    seq(|results|, j requires 0 <= j < |results| => thr[results[j]])
  }

  /** The conversation of a message. */
  function ThreadOf(thr: seq<int>, i: nat): int {
    if i < |thr| then thr[i] else -1
  }

  /** The result at position n stands for its conversation. */
  ghost predicate StandsFor(was: seq<nat>, thr: seq<int>, allNew: set<int>, n: nat)
    requires n < |was|
  {
    var t := ThreadOf(thr, was[n]);
    forall j :: 0 <= j < |was| && ThreadOf(thr, was[j]) == t ==> if t in allNew then j <= n else n <= j
  }

  /** Conversation x appears before y does. */
  ghost predicate AppearsBefore(was: seq<nat>, thr: seq<int>, x: int, y: int) {
    exists i :: 0 <= i < |was| && ThreadOf(thr, was[i]) == x && forall j :: 0 <= j <= i ==> ThreadOf(thr, was[j]) != y
  }

  ghost predicate Kept(was: seq<nat>, thr: seq<int>, allNew: set<int>, r: nat) {
    exists n :: 0 <= n < |was| && was[n] == r && StandsFor(was, thr, allNew, n)
  }

  ghost predicate HasThread(thr: seq<int>, kept: seq<nat>, t: int) {
    exists q :: 0 <= q < |kept| && ThreadOf(thr, kept[q]) == t
  }

  /** Every conversation has one result left, the one that stands for it, and they are
      in the order in which the conversations appear. */
  ghost predicate OneForEach(was: seq<nat>, thr: seq<int>, allNew: set<int>, kept: seq<nat>) {
    && (forall q :: 0 <= q < |kept| ==> Kept(was, thr, allNew, kept[q]))
    && (forall j :: 0 <= j < |was| ==> HasThread(thr, kept, ThreadOf(thr, was[j])))
    && (forall p, q :: 0 <= p < q < |kept| ==> AppearsBefore(was, thr, ThreadOf(thr, kept[p]), ThreadOf(thr, kept[q])))
  }

  lemma CollapsedIsRight(was: seq<nat>, thr: seq<int>, allNew: set<int>)
    requires forall j :: 0 <= j < |was| ==> was[j] < |thr|
    ensures OneForEach(was, thr, allNew, Collapsed(was, ThreadsOf(was, thr), allNew))
  {
    var threads := ThreadsOf(was, thr);
    assert forall j :: 0 <= j < |was| ==> threads[j] == ThreadOf(thr, was[j]);
    hide ThreadsOf, ThreadOf, Order, FirstOf, LastOf, Pick, Kept, HasThread, AppearsBefore, Collapsed;
    var order, kept := Order(threads), Collapsed(was, threads, allNew);
    OrderMembers(threads);
    CollapsedSize(was, threads, allNew);
    forall q | 0 <= q < |order| ensures ThreadOf(thr, kept[q]) == order[q] && Kept(was, thr, allNew, kept[q]) {
      PickIsRight(was, threads, thr, allNew, q);
    }
    forall j | 0 <= j < |was| ensures HasThread(thr, kept, threads[j]) {
      ThreadIsKept(thr, kept, order, threads[j]);
    }
    forall p, q | 0 <= p < q < |order| ensures AppearsBefore(was, thr, order[p], order[q]) {
      OrderAppears(was, threads, thr, p, q);
    }
  }

  lemma CollapsedSize(was: seq<nat>, threads: seq<int>, allNew: set<int>)
    requires |was| == |threads|
    ensures |Collapsed(was, threads, allNew)| == |Order(threads)|
  {}

  lemma PickIsRight(was: seq<nat>, threads: seq<int>, thr: seq<int>, allNew: set<int>, q: nat)
    requires |was| == |threads| && forall j :: 0 <= j < |was| ==> threads[j] == ThreadOf(thr, was[j])
    requires q < |Order(threads)|
    ensures var kept := Collapsed(was, threads, allNew);
      q < |kept| && ThreadOf(thr, kept[q]) == Order(threads)[q] && Kept(was, thr, allNew, kept[q])
  {
    OrderMembers(threads);
    hide Order, FirstOf, LastOf, ThreadOf;
    var n := Pick(threads, allNew, Order(threads)[q]);
    assert Collapsed(was, threads, allNew)[q] == was[n];
    assert StandsFor(was, thr, allNew, n);
  }

  lemma ThreadIsKept(thr: seq<int>, kept: seq<nat>, order: seq<int>, t: int)
    requires |kept| == |order| && t in order && forall q :: 0 <= q < |order| ==> ThreadOf(thr, kept[q]) == order[q]
    ensures HasThread(thr, kept, t)
  {
    hide ThreadOf;
    var q :| 0 <= q < |order| && order[q] == t;
    assert ThreadOf(thr, kept[q]) == t;
  }

  lemma OrderAppears(was: seq<nat>, threads: seq<int>, thr: seq<int>, p: nat, q: nat)
    requires |was| == |threads| && forall j :: 0 <= j < |was| ==> threads[j] == ThreadOf(thr, was[j])
    requires p < q < |Order(threads)|
    ensures AppearsBefore(was, thr, Order(threads)[p], Order(threads)[q])
  {
    OrderIsByFirst(threads);
    hide Order, ThreadOf;
    var i := FirstOf(threads, Order(threads)[p]);
    assert i < FirstOf(threads, Order(threads)[q]);
    assert ThreadOf(thr, was[i]) == Order(threads)[p];
  }

  /** Collapse the list in place, reading on while its front is overwritten; the first
      pi results are what is left. */
  method CollapseConversations(results: array<nat>, thr: seq<int>, allNew: set<int>) returns (pi: nat)
    requires forall j :: 0 <= j < results.Length ==> results[j] < |thr|
    modifies results
    ensures pi <= results.Length
    ensures results[..pi] == Collapsed(old(results[..]), ThreadsOf(old(results[..]), thr), allNew)
    ensures OneForEach(old(results[..]), thr, allNew, results[..pi])
  {
    hide Collapsed, Order, OneForEach;
    ghost var was := results[..];
    ghost var threads := ThreadsOf(was, thr);
    var seen: map<int, nat> := map[];
    pi := 0;
    var n := 0;
    NothingCollapsed(was, threads, allNew);
    assert results[..0] == [];
    while n < results.Length
      invariant 0 <= pi <= n <= results.Length
      invariant results[n..] == was[n..]
      invariant pi == |Order(threads[..n])|
      invariant forall t :: t in seen <==> t in threads[..n]
      invariant forall t :: t in seen ==> seen[t] < pi && Order(threads[..n])[seen[t]] == t
      invariant results[..pi] == Collapsed(was[..n], threads[..n], allNew)
    {
      var ri := results[n];
      assert was[n..][0] == results[n..][0];
      var ti := thr[ri];
      ghost var kept := results[..pi];
      CollapsedNext(was[..n], threads[..n], allNew, ri, ti);
      OrderNext(threads, n);
      assert was[..n + 1] == was[..n] + [ri] && threads[..n + 1] == threads[..n] + [ti];
      if ti in seen {
        if ti in allNew {
          results[seen[ti]] := ri;
          assert results[..pi] == kept[seen[ti] := ri];
        }
      } else {
        results[pi] := ri;
        seen := seen[ti := pi];
        pi := pi + 1;
        assert results[..pi] == kept + [ri];
      }
      n := n + 1;
      assert results[n..] == was[n..];
    }
    assert was[..n] == was && threads[..n] == threads;
    CollapsedIsRight(was, thr, allNew);
  }

  lemma OrderNext(threads: seq<int>, n: nat)
    requires n < |threads|
    ensures Order(threads[..n + 1]) ==
              if threads[n] in threads[..n] then Order(threads[..n]) else Order(threads[..n]) + [threads[n]]
  {
    assert threads[..n + 1][..n] == threads[..n];
    OrderMembers(threads[..n]);
  }

  lemma NothingCollapsed(results: seq<nat>, threads: seq<int>, allNew: set<int>)
    requires |results| == |threads|
    ensures Collapsed(results[..0], threads[..0], allNew) == [] && Order(threads[..0]) == []
  {}
}
