/** The contact card object and its merge operation.

    Merging works in two passes over lines that change in place.  The first one
    takes out of the input what the source already has, and takes the source off
    its other lines.  The second one gives the source the lines that are left,
    on equal lines of the card or on new ones.  What each pass has done so far is
    a predicate on the lines before and after. */
module VCard {
  import opened Wrappers
  import opened VCardMerge

  datatype Outcome = Nothing | Raised | Returned(changes: nat)

  const MANY: set<string> := {
    "source", "xml", "fn", "nickname", "photo", "adr", "tel", "email", "impp", "lang", "tz", "geo", "title", "role",
    "logo", "org", "member", "related", "categories", "note", "prodid", "sound", "clientpidmap", "url", "key",
    "fburl", "caladruri", "caluri"
  }
  const SINGLE: set<string> := {"kind", "n", "bday", "anniversary", "gender", "version", "rev", "uid"}

  predicate Extension(name: string) {
    "x-" <= name
  }

  /** A kind of line that every card may have any number of. */
  predicate Repeatable(name: string) {
    Extension(name) || name in MANY
  }

  /** Which kinds of lines a card may have once, any number of times, or not at all
      (section 6 of RFC 6350). */
  lemma Cardinalities(name: string)
    ensures name in {"kind", "n", "bday", "anniversary", "gender", "version", "rev", "uid"} ==>
      name in SINGLE && !Repeatable(name)
    ensures name in {"fn", "nickname", "email", "tel", "adr", "org", "note", "url", "key", "photo", "categories"} ==>
      Repeatable(name)
    ensures |name| >= 2 && name[..2] == "x-" ==> Repeatable(name)
    ensures name in {"agent", "class", "label", "mailer", "name", "profile", "evil"} ==> !Repeatable(name) && name !in SINGLE
  {
    assert "x-" <= name ==> |name| >= 2 && name[0] == 'x' && name[..2] == "x-";
    assert |name| >= 2 && name[..2] == "x-" ==> "x-" <= name;
  }

  predicate Named(lines: Lines, name: string) {
    exists x :: x in lines && lines[x].name == name
  }

  function CountKey(input: seq<Line>, k: LineKey): nat {
    if input == [] then 0 else (if input[0].Key() == k then 1 else 0) + CountKey(input[1..], k)
  }

  function WithoutKey(input: seq<Line>, k: LineKey): (r: seq<Line>)
    ensures |r| <= |input|
    ensures forall l :: l in r <==> l in input && l.Key() != k
  {
    if input == [] then []
    else (if input[0].Key() == k then [] else [input[0]]) + WithoutKey(input[1..], k)
  }

  ghost predicate UniqueKeys(input: seq<Line>) {
    forall i, j :: 0 <= i < j < |input| ==> input[i].Key() != input[j].Key()
  }

  /** One line for each name and value, the first given; repeats raise its rank. */
  function Dedup(input: seq<Line>): (r: seq<Line>)
    ensures |r| <= |input|
    decreases |input|
  {
    if input == [] then [] else
      var first := input[0];
      var repeats := CountKey(input[1..], first.Key());
      [first.(rank := first.rank + repeats)] + Dedup(WithoutKey(input[1..], first.Key()))
  }

  lemma DedupStep(dedup: seq<Line>, rest: seq<Line>)
    requires rest != []
    ensures dedup + Dedup(rest) ==
      dedup + [rest[0].(rank := rest[0].rank + CountKey(rest[1..], rest[0].Key()))]
      + Dedup(WithoutKey(rest[1..], rest[0].Key()))
  {
    hide CountKey, WithoutKey;
    var one := rest[0].(rank := rest[0].rank + CountKey(rest[1..], rest[0].Key()));
    var others := Dedup(WithoutKey(rest[1..], rest[0].Key()));
    assert Dedup(rest) == [one] + others;
    hide *;
    assert dedup + ([one] + others) == dedup + [one] + others;
  }

  lemma KeysOfCons(head: Line, rest: seq<Line>)
    ensures Keys([head] + rest) == Keys(rest) + {head.Key()}
  {
    assert head in [head] + rest;
    assert forall l :: l in [head] + rest <==> l == head || l in rest;
  }

  lemma KeysOfWithout(input: seq<Line>, k: LineKey)
    ensures Keys(WithoutKey(input, k)) == Keys(input) - {k}
  {}

  lemma {:induction false} DedupKeys(input: seq<Line>)
    ensures Keys(Dedup(input)) == Keys(input)
    decreases |input|
  {
    hide Keys, Dedup, WithoutKey, CountKey;
    if input == [] {
      DedupNothing();
    } else {
      var first, rest := input[0], WithoutKey(input[1..], input[0].Key());
      DedupKeys(rest);
      DedupParts(input);
      KeysOfWithout(input[1..], first.Key());
      KeysOfCons(first, input[1..]);
      KeysOfCons(first.(rank := first.rank + CountKey(input[1..], first.Key())), Dedup(rest));
      assert input == [first] + input[1..];
    }
  }

  lemma DedupNothing()
    ensures Dedup([]) == []
  {}

  lemma DedupParts(input: seq<Line>)
    requires input != []
    ensures Dedup(input) ==
      [input[0].(rank := input[0].rank + CountKey(input[1..], input[0].Key()))]
      + Dedup(WithoutKey(input[1..], input[0].Key()))
  {
    hide Dedup, CountKey, WithoutKey;
    DedupStep([], input);
    var one := input[0].(rank := input[0].rank + CountKey(input[1..], input[0].Key()));
    assert [] + Dedup(input) == Dedup(input) && [] + [one] == [one];
  }

  lemma {:induction false} DedupUnique(input: seq<Line>)
    ensures UniqueKeys(Dedup(input))
    decreases |input|
  {
    if input != [] {
      var k := input[0].Key();
      var rest := WithoutKey(input[1..], k);
      DedupUnique(rest);
      DedupKeys(rest);
      KeysOfWithout(input[1..], k);
      forall j | 0 <= j < |Dedup(rest)| ensures Dedup(rest)[j].Key() != k {
        assert Dedup(rest)[j].Key() in Keys(Dedup(rest));
      }
    }
  }

  /** How often this name and value is given. */
  lemma {:induction false} CountIsNumber(input: seq<Line>, k: LineKey)
    ensures CountKey(input, k) == |set i: nat | i < |input| && input[i].name == k.name && input[i].value == k.value|
  {
    var at := set i: nat | i < |input| && input[i].name == k.name && input[i].value == k.value;
    if input != [] {
      var later := set i: nat | i < |input[1..]| && input[1..][i].name == k.name && input[1..][i].value == k.value;
      CountIsNumber(input[1..], k);
      ShiftedSize(later, at - {0});
    }
  }

  /** Counting on by one keeps the size. */
  lemma {:induction false} ShiftedSize(a: set<nat>, b: set<nat>)
    requires forall i: nat :: i in a ==> i + 1 in b
    requires forall i: nat :: i in b ==> i > 0 && i - 1 in a
    ensures |a| == |b|
    decreases a
  {
    if a == {} {
      assert forall i: nat :: i in b ==> i > 0 && i - 1 in a;
      assert b == {};
    } else {
      var i :| i in a;
      ShiftedSize(a - {i}, b - {i + 1});
    }
  }

  /** The first line of a name and value. */
  function FirstOf(input: seq<Line>, k: LineKey): Option<Line> {
    if input == [] then None else if input[0].Key() == k then Some(input[0]) else FirstOf(input[1..], k)
  }

  lemma {:induction false} FirstOfIsFirst(input: seq<Line>, i: nat)
    requires i < |input| && forall j :: 0 <= j < i ==> input[j].Key() != input[i].Key()
    ensures FirstOf(input, input[i].Key()) == Some(input[i])
  {
    if i > 0 {
      assert forall j :: 0 <= j < |input| - 1 ==> input[1..][j] == input[j + 1];
      FirstOfIsFirst(input[1..], i - 1);
    }
  }

  /** Taking out one name and value leaves the others' lines as they are. */
  lemma {:induction false} WithoutKeepsOthers(input: seq<Line>, k: LineKey, other: LineKey)
    requires other != k
    ensures CountKey(WithoutKey(input, k), other) == CountKey(input, other)
    ensures FirstOf(WithoutKey(input, k), other) == FirstOf(input, other)
  {
    if input != [] {
      var rest := WithoutKey(input[1..], k);
      WithoutKeepsOthers(input[1..], k, other);
      if input[0].Key() == k {
        assert WithoutKey(input, k) == rest;
      } else {
        assert WithoutKey(input, k) == [input[0]] + rest;
        assert ([input[0]] + rest)[1..] == rest;
      }
    }
  }

  /** Of each name and value the first line is left, with a rank one higher for each repeat. */
  lemma {:induction false} DedupRanks(input: seq<Line>, d: Line)
    requires d in Dedup(input)
    ensures var first := FirstOf(input, d.Key());
      && first.Some? && d == first.value.(rank := d.rank)
      && d.rank + 1 == first.value.rank + CountKey(input, d.Key())
    decreases |input|
  {
    hide Dedup, WithoutKey, Keys;
    if input == [] { DedupNothing(); }
    var first := input[0];
    var k, rest := first.Key(), WithoutKey(input[1..], first.Key());
    DedupParts(input);
    if d in Dedup(rest) {
      KeysOfWithout(input[1..], k);
      DedupKeys(rest);
      InKeys(Dedup(rest), d);
      DedupRanks(rest, d);
      WithoutKeepsOthers(input[1..], k, d.Key());
    }
  }

  lemma InKeys(input: seq<Line>, l: Line)
    requires l in input
    ensures l.Key() in Keys(input)
  {}

  // ----- Reading what the loops do

  /** The lines with the source's lines of the first ids in order dealt with. */
  ghost predicate SweptSoFar(lines: Lines, bound: nat, p: nat, keys: set<LineKey>, done: set<nat>, lines': Lines) {
    && lines'.Keys <= lines.Keys
    && forall id :: id in lines ==>
         (if id in done && Dropped(lines, bound, p, keys, id) then
            if HasOthers(lines[id], p) then Some(lines[id].(pids := lines[id].pids - {p})) else None
          else Some(lines[id]))
         == if id in lines' then Some(lines'[id]) else None
  }

  /** The input lines no dealt-with line has matched. */
  ghost predicate LeftSoFar(lines: Lines, p: nat, input: seq<Line>, done: set<nat>, rest: seq<Line>) {
    && UniqueKeys(rest)
    && forall l :: l in rest <==> l in input && forall x :: x in done ==> !Ours(lines, p, x, l.Key())
  }

  function WithoutAt(s: seq<Line>, i: nat): seq<Line>
    requires i < |s|
  {
    s[..i] + s[i + 1..]
  }

  /** The source's lines, in the order they are met. */
  ghost predicate InOrder(lines: Lines, bound: nat, p: nat, order: seq<nat>) {
    && (forall id :: id in order <==> id in lines && p in lines[id].pids)
    && forall i, j :: 0 <= i < j < |order| ==>
         order[i] != order[j] && Before(bound, lines[order[i]], order[i], lines[order[j]], order[j])
  }

  /** The next line matches exactly when an equal input line is still left. */
  lemma NextMatches(lines: Lines, bound: nat, p: nat, input: seq<Line>, order: seq<nat>, i: nat, rest: seq<Line>)
    requires InOrder(lines, bound, p, order) && i < |order|
    requires LeftSoFar(lines, p, input, Elements(order[..i]), rest)
    ensures order[i] in lines
    ensures Matches(lines, bound, p, Keys(input), order[i]) <==> exists l :: l in rest && l.Key() == lines[order[i]].Key()
  {
    var id := order[i];
    assert id in order;
    var k := lines[id].Key();
    if k in Keys(input) {
      var l :| l in input && l.Key() == k;
      if Matches(lines, bound, p, Keys(input), id) {
        forall x | x in Elements(order[..i]) ensures !Ours(lines, p, x, k) {
          var j :| 0 <= j < i && order[j] == x;
        }
        assert l in rest;
      }
      if l in rest {
        forall x | Ours(lines, p, x, k) && x != id ensures Before(bound, lines[id], id, lines[x], x) {
          assert x in order;
          var j :| 0 <= j < |order| && order[j] == x;
        }
      }
    }
  }

  /** The state of the sweep when the lines in done have been dealt with. */
  ghost predicate SweepState(lines: Lines, bound: nat, p: nat, input: seq<Line>, done: set<nat>,
                             lines': Lines, rest: seq<Line>, dropped: set<nat>) {
    && SweptSoFar(lines, bound, p, Keys(input), done, lines')
    && LeftSoFar(lines, p, input, done, rest)
    && forall id :: id in dropped <==> id in done && Dropped(lines, bound, p, Keys(input), id)
  }

  lemma LeftAfterMatch(lines: Lines, p: nat, input: seq<Line>, done: set<nat>, rest: seq<Line>, id: nat, m: nat)
    requires LeftSoFar(lines, p, input, done, rest)
    requires id in lines && p in lines[id].pids && m < |rest| && rest[m].Key() == lines[id].Key()
    ensures LeftSoFar(lines, p, input, done + {id}, WithoutAt(rest, m))
  {
    var rest' := WithoutAt(rest, m);
    assert forall i :: 0 <= i < |rest'| ==> rest'[i] == rest[if i < m then i else i + 1];
    forall l ensures l in rest' <==> l in rest && l.Key() != lines[id].Key() {
      if l in rest && l.Key() != lines[id].Key() {
        var i :| 0 <= i < |rest| && rest[i] == l;
        assert rest'[if i < m then i else i - 1] == l;
      }
    }
    forall l ensures l in rest' <==> l in input && forall x :: x in done + {id} ==> !Ours(lines, p, x, l.Key()) {
      assert Ours(lines, p, id, l.Key()) <==> l.Key() == lines[id].Key();
    }
  }

  lemma LeftAfterMiss(lines: Lines, p: nat, input: seq<Line>, done: set<nat>, rest: seq<Line>, id: nat)
    requires LeftSoFar(lines, p, input, done, rest)
    requires id in lines && forall l :: l in rest ==> l.Key() != lines[id].Key()
    ensures LeftSoFar(lines, p, input, done + {id}, rest)
  {}

  /** The lines that are in order; those still to do come after all of them. */
  ghost predicate OrderSoFar(lines: Lines, bound: nat, all: set<nat>, order: seq<nat>, todo: set<nat>) {
    && todo <= all <= lines.Keys
    && (forall id :: id in order <==> id in all && id !in todo)
    && (forall i, j :: 0 <= i < j < |order| && order[i] in lines && order[j] in lines ==>
          order[i] != order[j] && Before(bound, lines[order[i]], order[i], lines[order[j]], order[j]))
    && (forall i, x :: 0 <= i < |order| && x in todo && order[i] in lines ==> Before(bound, lines[order[i]], order[i], lines[x], x))
  }

  lemma OrderStart(lines: Lines, bound: nat, all: set<nat>)
    requires all <= lines.Keys
    ensures OrderSoFar(lines, bound, all, [], all)
  {}

  class SimpleVCard {
    var lines: Lines
    var sources: map<string, nat>
    var slots: nat
    /** More than any source number in use. */
    const bound: nat

    function Value(): Card
      reads this
    {
      Card(lines, sources, slots)
    }

    ghost predicate Valid()
      reads this
    {
      WellFormed(Value())
    }

    constructor (bound: nat)
      ensures Valid() && Value() == Card(map[], map[], 0)
    {
      lines, sources, slots := map[], map[], 0;
      this.bound := bound;
    }

    /** The position of the input line equal to the given one. */
    method FindEqual(rest: seq<Line>, k: LineKey) returns (m: nat)
      ensures m <= |rest| && (m < |rest| ==> rest[m].Key() == k)
      ensures m == |rest| ==> forall l :: l in rest ==> l.Key() != k
    {
      m := 0;
      while m < |rest| && rest[m].Key() != k
        invariant m <= |rest| && forall i :: 0 <= i < m ==> rest[i].Key() != k
      {
        m := m + 1;
      }
    }

    /** The source's lines, best first, as the sort puts them. */
    method LinesInOrder(p: nat) returns (order: seq<nat>)
      ensures InOrder(lines, bound, p, order)
    {
      order := [];
      var todo := set id | id in lines && p in lines[id].pids;
      ghost var all := todo;
      OrderStart(lines, bound, all);
      while todo != {}
        invariant OrderSoFar(lines, bound, all, order, todo)
        decreases todo
      {
        hide OrderSoFar, Before;
        ghost var first := FirstExists(lines, bound, todo);
        assert forall x :: x in todo && x != first ==> Before(bound, lines[first], first, lines[x], x);
        var id :| id in todo && forall x :: x in todo && x != id ==> Before(bound, lines[id], id, lines[x], x);
        order := order + [id];
        todo := todo - {id};
      }
    }

    /** First, go through the source's lines: drop those that differ from all input
        lines, and take the input lines that are already on the card off the list.
        Raises an exception (ok is false) if a line that must stay would go. */
    method Sweep(p: nat, order: seq<nat>, input: seq<Line>) returns (ok: bool, rest: seq<Line>, count: nat)
      requires UniqueKeys(input) && (order == [] || InOrder(lines, bound, p, order))
      modifies this`lines
      ensures order == [] ==> ok && lines == old(lines) && rest == input && count == 0
      ensures ok && InOrder(old(lines), bound, p, order) ==>
        && SweptSoFar(old(lines), bound, p, Keys(input), old(lines).Keys, lines)
        && LeftSoFar(old(lines), p, input, old(lines).Keys, rest)
        && count == |DroppedIds(old(lines), bound, p, Keys(input))|
      ensures KeepsUnremovable(old(lines), lines)
      ensures !ok ==> HasStuck(old(lines), bound, p, Keys(input))
    {
      hide SweepState, Dropped, Before, Keys, InOrder, SweptSoFar, LeftSoFar;
      ghost var before := lines;
      ok, rest, count := true, input, 0;
      ghost var dropped: set<nat> := {};
      var i := 0;
      SweepStart(before, bound, p, input);
      assert Elements(order[..0]) == Elements([]);
      while i < |order|
        invariant 0 <= i <= |order| && count == |dropped|
        invariant SweepState(before, bound, p, input, Elements(order[..i]), lines, rest, dropped)
        invariant order == [] ==> lines == before && rest == input && count == 0
        invariant KeepsUnremovable(before, lines)
      {
        ghost var now, left := lines, rest;
        var changed: bool;
        assert order[i] in order;
        SweptKeeps(before, bound, p, input, order, i, lines, rest, dropped);
        ok, rest, changed := SweepOne(p, order[i], rest);
        if !ok {
          SweepStuck(before, bound, p, input, order, i, now, left, dropped);
          return;
        }
        SweepNext(before, bound, p, input, order, i, now, left, dropped, lines, rest, changed);
        if changed {
          count := count + 1;
          dropped := dropped + {order[i]};
        }
        i := i + 1;
      }
      assert order[..|order|] == order;
      if InOrder(before, bound, p, order) {
        SweepEnd(before, bound, p, input, order, lines, rest, dropped);
      }
    }

    /** Second, copy the input lines that are left: tag the equal lines on the card,
        or add the line.  Raises an exception (ok is false) if it cannot be added. */
    method CopyLeft(p: nat, ver: nat, rest: seq<Line>) returns (ok: bool, count: nat)
      requires UniqueKeys(rest) && forall id :: id in lines ==> id <= slots
      modifies this`lines, this`slots
      ensures ok ==>
        && TaggedSoFar(old(lines), old(slots), p, ver, rest, |rest|, lines, slots)
        && count == |lines.Keys - old(lines).Keys|
      ensures !ok ==> HasUnrepeatable(rest)
    {
      hide *;
      ghost var swept, first := lines, slots;
      ok, count := true, 0;
      var j := 0;
      CopyStart(swept, first, p, ver, rest);
      while j < |rest|
        invariant 0 <= j <= |rest|
        invariant TaggedSoFar(swept, first, p, ver, rest, j, lines, slots)
        invariant swept.Keys <= lines.Keys && |lines.Keys| == |swept.Keys| + count
      {
        var added: bool;
        ok, added := CopyOne(rest[j], p, ver, swept, first, rest, j);
        if !ok {
          AtIsIn(rest, j);
          return;
        }
        if added {
          count := count + 1;
        }
        j := j + 1;
      }
      assert lines.Keys == swept.Keys + (lines.Keys - swept.Keys);
    }

    method CopyOne(l: Line, p: nat, ver: nat, ghost swept: Lines, ghost first: nat, ghost rest: seq<Line>, ghost j: nat)
      returns (ok: bool, added: bool)
      requires j < |rest| && rest[j] == l && UniqueKeys(rest) && swept.Keys <= lines.Keys
      requires TaggedSoFar(swept, first, p, ver, rest, j, lines, slots)
      modifies this`lines, this`slots
      ensures ok ==> TaggedSoFar(swept, first, p, ver, rest, j + 1, lines, slots)
      ensures ok ==> old(lines).Keys <= lines.Keys && |lines.Keys| == |old(lines).Keys| + if added then 1 else 0
      ensures !ok ==> !Repeatable(l.name)
    {
      hide TaggedSoFar, TagKey, HasKey, UniqueKeys, Repeatable, Named;
      ok, added := true, false;
      ghost var now, last := lines, slots;
      var found := TagEquals(l.Key(), p, ver);
      if found {
        TagNext(swept, first, p, ver, rest, j, now, last);
      } else {
        AddNext(swept, first, p, ver, rest, j, now, last);
        ok := Add(l.(pids := map[p := ver]));
        added := ok;
        assert ok ==> lines.Keys == now.Keys + {slots};
      }
    }

    /** Tag all lines with this name and value. */
    method TagEquals(k: LineKey, p: nat, ver: nat) returns (found: bool)
      modifies this`lines
      ensures lines == TagKey(old(lines), k, p, ver)
      ensures found <==> exists x :: HasKey(old(lines), x, k)
    {
      found := false;
      var todo := lines.Keys;
      while todo != {}
        invariant todo <= old(lines).Keys == lines.Keys
        invariant forall id :: id in lines ==>
          lines[id] == if id !in todo && old(lines)[id].Key() == k then Tag(old(lines)[id], p, ver) else old(lines)[id]
        invariant found <==> exists x :: HasKey(old(lines), x, k) && x !in todo
        decreases todo
      {
        var id :| id in todo;
        if lines[id].Key() == k {
          assert HasKey(old(lines), id, k);
          lines := lines[id := Tag(lines[id], p, ver)];
          found := true;
        }
        todo := todo - {id};
      }
    }

    /** Put a line on the card, unless its kind is not allowed or already there. */
    method Add(l: Line) returns (ok: bool)
      modifies this`lines, this`slots
      ensures ok <==> Repeatable(l.name) || (l.name in SINGLE && !Named(old(lines), l.name))
      ensures ok ==> slots == old(slots) + 1 && lines == old(lines)[slots := l]
      ensures !ok ==> lines == old(lines) && slots == old(slots)
    {
      ok := Repeatable(l.name) || (l.name in SINGLE && !Named(lines, l.name));
      if ok {
        slots := slots + 1;
        lines := lines[slots := l];
      }
    }

    /** The source's number, its lines and their last version, giving the source the
        smallest free number, and no lines, if it is new.  None when there is no free
        number. */
    method GetPidMap(source: string) returns (r: Option<nat>, owned: seq<nat>, version: nat, isNew: bool)
      requires Valid()
      modifies this`sources, this`slots
      ensures Valid()
      ensures r.None? ==> sources == old(sources) && slots == old(slots)
      ensures r.None? ==> source !in sources && Full(sources)
      ensures r.Some? ==> source in sources && sources[source] == r.value
      ensures r.Some? ==> isNew == (source !in old(sources))
      ensures r.Some? && !isNew ==>
        && sources == old(sources) && slots == old(slots)
        && InOrder(lines, bound, r.value, owned) && IsLast(lines, r.value, version)
      ensures r.Some? && isNew ==>
        && sources == old(sources)[source := r.value] && slots == old(slots) + 1
        && 1 <= r.value < 990
        && (forall s :: s in old(sources) ==> old(sources)[s] != r.value)
        && (forall n :: 1 <= n < r.value ==> InUse(old(sources), n))
        && owned == [] && version == 0
    {
      hide InOrder, IsLast;
      isNew := source !in sources;
      r, owned, version := None, [], 0;
      if !isNew {
        r := Some(sources[source]);
        owned := LinesInOrder(r.value);
      } else {
        var used := set s | s in sources :: sources[s];
        var n := 1;
        while n < MAX_SRC_PID && n in used
          invariant 1 <= n <= MAX_SRC_PID
          invariant forall m :: 1 <= m < n ==> InUse(sources, m)
        {
          assert InUse(sources, n);
          n := n + 1;
        }
        if n == MAX_SRC_PID {
          return;
        }
        assert forall s :: s in sources ==> sources[s] in used;
        sources := sources[source := n];
        slots := slots + 1;
        r := Some(n);
      }
      version := LastVersion(r.value, owned);
    }

    /** The last version under which these lines bear the number. */
    method LastVersion(p: nat, owned: seq<nat>) returns (version: nat)
      requires owned == [] || InOrder(lines, bound, p, owned)
      ensures owned == [] ==> version == 0
      ensures InOrder(lines, bound, p, owned) ==> IsLast(lines, p, version)
    {
      version := 0;
      var i := 0;
      while i < |owned|
        invariant 0 <= i <= |owned| && (owned == [] ==> version == 0)
        invariant forall j :: 0 <= j < i ==> owned[j] in lines && p in lines[owned[j]].pids && lines[owned[j]].pids[p] <= version
        invariant version == 0 || exists id :: id in lines && p in lines[id].pids && lines[id].pids[p] == version
      {
        hide Before;
        assert owned[i] in owned;
        if lines[owned[i]].pids[p] > version {
          version := lines[owned[i]].pids[p];
        }
        i := i + 1;
      }
      hide Before;
      if InOrder(lines, bound, p, owned) {
        forall id | id in lines && p in lines[id].pids ensures lines[id].pids[p] <= version {
          assert id in owned;
        }
      }
    }

    /** Merge the lines a source has now.  Whenever it returns, the card is as Merged
        or, for a new source, MergedFirst says, counted from the card with the source
        registered; the new PIDs bear the version after the last one. */
    method Merge(source: string, input: seq<Line>) returns (r: Outcome)
      requires Valid() && forall l :: l in input ==> l.name != ""
      modifies this`lines, this`sources, this`slots
      ensures r.Nothing? <==> input == []
      ensures r.Nothing? ==> Value() == old(Value())
      ensures r.Returned? ==> Valid() && source in sources
      ensures r.Returned? && source in old(sources) ==>
        var start, wanted := old(Value()), Dedup(Removable(input));
        && MergedNext(start, bound, sources[source], wanted, Value())
        && r.changes == Changes(start, bound, sources[source], wanted, Value())
      ensures r.Returned? && source !in old(sources) ==>
        var start := Card(old(lines), sources, old(slots) + 1);
        && sources == old(sources)[source := sources[source]]
        && MergedFirst(start, sources[source], 1, Dedup(Removable(input)), Value())
        && r.changes == 1 + |lines.Keys - old(lines).Keys|
      ensures r.Returned? && source in old(sources) ==>
        && CardRight(old(lines), sources[source], GivenKeys(input), lines)
        && r.changes == |LostIds(old(lines), sources[source], lines)| + |lines.Keys - old(lines).Keys|
      ensures r.Returned? && source !in old(sources) ==>
        FirstCardRight(old(lines), sources[source], GivenKeys(input), lines)
      ensures r.Returned? ==> KeepsUnremovable(old(lines), lines)
      ensures r.Raised? ==>
        || Removable(input) == []
        || (source !in old(sources) && Full(old(sources)))
        || (source in old(sources) && HasStuck(old(lines), bound, old(sources)[source], Keys(Dedup(Removable(input)))))
        || HasUnrepeatable(Dedup(Removable(input)))
    {
      hide Merged, MergedFirst, MergedNext, Full, HasUnrepeatable, SweptSoFar, LeftSoFar, TaggedSoFar, HasStuck, Dedup, Removable, UniqueKeys, WellFormed, DroppedIds, InOrder, IsLast, Keys, Changes, InUse, CardRight, FirstCardRight, LostIds, GivenKeys, KeepsUnremovable;
      if input == [] {
        return Nothing;
      }
      var removable := Removable(input);
      var pid, owned, version, isNew := GetPidMap(source);
      if pid.None? || removable == [] {
        return Raised;
      }
      var p := pid.value;
      var wanted := DedupLines(removable);
      DedupUnique(removable);
      ghost var start := Value();
      var ok, rest, dropped := Sweep(p, owned, wanted);
      if !ok {
        return Raised;
      }
      ghost var swept := lines;
      if isNew {
        LinesFit(start);
      } else {
        ReadyToCopy(start, bound, p, wanted, swept, rest);
      }
      var added: nat;
      ok, added := CopyLeft(p, version + 1, rest);
      if !ok {
        if !isNew { NotAdded(start.lines, p, wanted, rest); }
        return Raised;
      }
      WantedKeys(input);
      if isNew {
        FirstDoneRight(start, p, wanted, Value());
      } else {
        NextDone(start, bound, p, version, wanted, swept, rest, Value());
      }
      CopyKeepsUnremovable(start.lines, swept, start.slots, p, version + 1, rest, lines, slots);
      r := Returned((if isNew then 1 else 0) + dropped + added);
    }

    /** Equal lines together, one of each, with the repeats as its rank. */
    method DedupLines(input: seq<Line>) returns (dedup: seq<Line>)
      ensures dedup == Dedup(input)
    {
      hide Dedup, CountKey, WithoutKey;
      dedup := [];
      var rest := input;
      assert [] + Dedup(input) == Dedup(input);
      while rest != []
        invariant Dedup(input) == dedup + Dedup(rest)
        decreases |rest|
      {
        var k := rest[0].Key();
        DedupStep(dedup, rest);
        dedup := dedup + [rest[0].(rank := rest[0].rank + CountKey(rest[1..], k))];
        rest := WithoutKey(rest[1..], k);
      }
    }

    method SweepOne(p: nat, id: nat, rest: seq<Line>) returns (ok: bool, rest': seq<Line>, changed: bool)
      requires id in lines && p in lines[id].pids
      modifies this`lines
      ensures !ok ==> (forall l :: l in rest ==> l.Key() != old(lines)[id].Key()) && Unremovable(old(lines)[id], p)
      ensures ok ==> Swept(old(lines), p, id, rest, lines, rest', changed)
      ensures KeepsUnremovable(old(lines), lines)
    {
      var l := lines[id];
      ok, rest', changed := true, rest, false;
      var m := FindEqual(rest, l.Key());
      if m < |rest| {
        rest' := WithoutAt(rest, m);
      } else if HasOthers(l, p) {
        lines := lines[id := l.(pids := l.pids - {p})];
        changed := true;
      } else if !l.Retained() {
        if l.name in UNREMOVABLE {
          ok := false;
        } else {
          lines := lines - {id};
          changed := true;
        }
      }
    }
  }

  /** Lines that describe the card itself are never removed. */
  predicate KeepsUnremovable(lines: Lines, lines': Lines) {
    forall id :: id in lines && lines[id].name in {"x-mailpile-rid", "x-mailpile-kind-hint", "clientpidmap", "version"} ==>
      id in lines' && lines'[id].name == lines[id].name
  }

  /** The names and values that a merge takes from the input. */
  function GivenKeys(input: seq<Line>): set<LineKey> {
    set l | l in input && l.name !in {"x-mailpile-rid", "x-mailpile-kind-hint", "clientpidmap", "version"} ::
      LineKey(l.name, l.value)
  }

  lemma WantedKeys(input: seq<Line>)
    ensures Keys(Dedup(Removable(input))) == GivenKeys(input)
  {
    DedupKeys(Removable(input));
    RemovableMembers(input);
    hide Dedup, Removable;
  }

  lemma RemovableMembers(input: seq<Line>)
    ensures forall l :: l in Removable(input) <==>
      l in input && l.name !in {"x-mailpile-rid", "x-mailpile-kind-hint", "clientpidmap", "version"}
  {}

  /** The card after a merge for a known source. */
  ghost predicate CardRight(lines: Lines, p: nat, keys: set<LineKey>, lines': Lines) {
    && (forall id :: id in lines ==> LineRight(lines, p, keys, lines', id))
    && (forall id :: id in lines' && id !in lines ==> Given(keys, lines'[id]) && lines'[id].pids.Keys == {p})
    && (forall k :: k in keys ==> exists id :: HasKey(lines', id, k) && p in lines'[id].pids)
  }

  /** The ids of lines that lost the number, or went with it. */
  function LostIds(lines: Lines, p: nat, lines': Lines): set<nat> {
    set id | id in lines && p in lines[id].pids && (id !in lines' || p !in lines'[id].pids)
  }

  lemma FirstDoneRight(c: Card, p: nat, input: seq<Line>, c': Card)
    requires WellFormed(c) && c'.sources == c.sources && UniqueKeys(input)
    requires TaggedSoFar(c.lines, c.slots, p, 1, input, |input|, c'.lines, c'.slots)
    ensures MergedFirst(c, p, 1, input, c') && WellFormed(c') && FirstCardRight(c.lines, p, Keys(input), c'.lines)
  {
    hide *;
    FirstDone(c, p, input, c');
    FirstIsRight(c, p, input, c');
  }

  lemma NextDone(c: Card, bound: nat, p: nat, version: nat, input: seq<Line>, swept: Lines, rest: seq<Line>, c': Card)
    requires WellFormed(c) && c'.sources == c.sources && IsLast(c.lines, p, version)
    requires SweptSoFar(c.lines, bound, p, Keys(input), c.lines.Keys, swept)
    requires LeftSoFar(c.lines, p, input, c.lines.Keys, rest)
    requires TaggedSoFar(swept, c.slots, p, version + 1, rest, |rest|, c'.lines, c'.slots)
    ensures WellFormed(c') && MergedNext(c, bound, p, input, c')
    ensures c'.lines.Keys - c.lines.Keys == c'.lines.Keys - swept.Keys
    ensures CardRight(c.lines, p, Keys(input), c'.lines)
    ensures Changes(c, bound, p, input, c') == |LostIds(c.lines, p, c'.lines)| + |c'.lines.Keys - c.lines.Keys|
    ensures Changes(c, bound, p, input, c') == |DroppedIds(c.lines, bound, p, Keys(input))| + |c'.lines.Keys - c.lines.Keys|
  {
    hide Merged, MergedNext, SweptSoFar, LeftSoFar, TaggedSoFar, WellFormed, IsLast, Keys, CardRight, LostIds, DroppedIds;
    MergeDone(c, bound, p, version + 1, input, swept, rest, c');
    IsNext(c, bound, p, version, input, c');
    NextIsRight(c, bound, p, input, c');
  }

  lemma NextIsRight(c: Card, bound: nat, p: nat, input: seq<Line>, c': Card)
    requires MergedNext(c, bound, p, input, c')
    ensures CardRight(c.lines, p, Keys(input), c'.lines)
    ensures Changes(c, bound, p, input, c') == |LostIds(c.lines, p, c'.lines)| + |c'.lines.Keys - c.lines.Keys|
  {
    hide *;
    var version: nat := MergedVersion(c, bound, p, input, c');
    MergedCardRight(c, bound, p, version + 1, input, c');
    MergedChanges(c, bound, p, version + 1, input, c');
  }

  lemma MergedVersion(c: Card, bound: nat, p: nat, input: seq<Line>, c': Card) returns (version: nat)
    requires MergedNext(c, bound, p, input, c')
    ensures Merged(c, bound, p, version + 1, input, c')
  {
    hide Merged;
    version :| IsLast(c.lines, p, version) && Merged(c, bound, p, version + 1, input, c');
  }

  lemma MergedChanges(c: Card, bound: nat, p: nat, ver: nat, input: seq<Line>, c': Card)
    requires Merged(c, bound, p, ver, input, c')
    ensures Changes(c, bound, p, input, c') == |LostIds(c.lines, p, c'.lines)| + |c'.lines.Keys - c.lines.Keys|
  {
    hide Merged, Dropped, Keys;
    forall id ensures id in DroppedIds(c.lines, bound, p, Keys(input)) <==> id in LostIds(c.lines, p, c'.lines) {
      ChangesMeaning(c, bound, p, ver, input, c');
    }
    assert DroppedIds(c.lines, bound, p, Keys(input)) == LostIds(c.lines, p, c'.lines);
  }

  lemma MergedCardRight(c: Card, bound: nat, p: nat, ver: nat, input: seq<Line>, c': Card)
    requires Merged(c, bound, p, ver, input, c')
    ensures CardRight(c.lines, p, Keys(input), c'.lines)
  {
    hide LineRight, Merged, Given, Keys;
    SourceHasItsLines(c, bound, p, ver, input, c');
    forall id | id in c.lines ensures LineRight(c.lines, p, Keys(input), c'.lines, id) {
      MergedLineRight(c, bound, p, ver, input, c', id);
    }
    forall id | id in c'.lines && id !in c.lines ensures Given(Keys(input), c'.lines[id]) && c'.lines[id].pids.Keys == {p} {
      MergedNewLine(c, bound, p, ver, input, c', id);
      NewLineRight(c, p, ver, input, c', id);
    }
  }

  lemma MergedNewLine(c: Card, bound: nat, p: nat, ver: nat, input: seq<Line>, c': Card, id: nat)
    requires Merged(c, bound, p, ver, input, c') && id in c'.lines && id !in c.lines
    ensures IsNew(c, p, ver, input, c', id)
  {
    hide Fate, IsNew, Missing, Keys;
  }

  lemma NewLineRight(c: Card, p: nat, ver: nat, input: seq<Line>, c': Card, id: nat)
    requires id in c'.lines && IsNew(c, p, ver, input, c', id)
    ensures Given(Keys(input), c'.lines[id]) && c'.lines[id].pids.Keys == {p}
  {
    var l :| l in input && c'.lines[id] == l.(pids := map[p := ver]);
    assert l.Key() in Keys(input);
  }

  /** The card after the merge for a new source: every line stays with the numbers of
      others, and the given ones get the new number. */
  ghost predicate FirstCardRight(lines: Lines, p: nat, keys: set<LineKey>, lines': Lines) {
    && (forall id :: id in lines ==>
          id in lines' && lines'[id] == if Given(keys, lines[id]) then lines[id].(pids := lines[id].pids[p := 1]) else lines[id])
    && (forall id :: id in lines' && id !in lines ==> Given(keys, lines'[id]) && lines'[id].pids == map[p := 1])
    && (forall k :: k in keys ==> exists id :: HasKey(lines', id, k) && p in lines'[id].pids)
  }

  lemma FirstIsRight(c: Card, p: nat, input: seq<Line>, c': Card)
    requires MergedFirst(c, p, 1, input, c')
    ensures FirstCardRight(c.lines, p, Keys(input), c'.lines)
  {
    FirstHasItsLines(c, p, 1, input, c');
    hide Missing, IsNew, Keys;
    forall id | id in c.lines ensures Given(Keys(input), c.lines[id]) <==> c.lines[id].Key() in Keys(input) {}
    forall id | id in c'.lines && id !in c.lines ensures Given(Keys(input), c'.lines[id]) && c'.lines[id].pids == map[p := 1] {
      NewLineFirst(c, p, input, c', id);
    }
  }

  lemma NewLineFirst(c: Card, p: nat, input: seq<Line>, c': Card, id: nat)
    requires id in c'.lines && IsNew(c, p, 1, input, c', id)
    ensures Given(Keys(input), c'.lines[id]) && c'.lines[id].pids == map[p := 1]
  {
    NewLineRight(c, p, 1, input, c', id);
  }

  /** A line that the sweep would remove, but that may not be removed. */
  predicate Unremovable(l: Line, p: nat) {
    !HasOthers(l, p) && !l.Retained() && l.name in UNREMOVABLE
  }

  ghost predicate Stuck(lines: Lines, bound: nat, p: nat, keys: set<LineKey>, id: nat) {
    Dropped(lines, bound, p, keys, id) && Unremovable(lines[id], p)
  }

  ghost predicate HasStuck(lines: Lines, bound: nat, p: nat, keys: set<LineKey>) {
    exists id :: Stuck(lines, bound, p, keys, id)
  }

  lemma SweepStuck(lines: Lines, bound: nat, p: nat, input: seq<Line>, order: seq<nat>, i: nat,
                   now: Lines, rest: seq<Line>, dropped: set<nat>)
    requires InOrder(lines, bound, p, order) && i < |order| && order[i] in lines && p in lines[order[i]].pids
    requires SweepState(lines, bound, p, input, Elements(order[..i]), now, rest, dropped)
    requires forall l :: l in rest ==> l.Key() != lines[order[i]].Key()
    requires Unremovable(lines[order[i]], p)
    ensures HasStuck(lines, bound, p, Keys(input))
  {
    NextMatches(lines, bound, p, input, order, i, rest);
    hide InOrder, SweptSoFar, LeftSoFar, Matches;
    assert Stuck(lines, bound, p, Keys(input), order[i]);
  }

  /** What the sweep does with one line. */
  ghost predicate Swept(lines: Lines, p: nat, id: nat, rest: seq<Line>, lines': Lines, rest': seq<Line>, changed: bool)
    requires id in lines
  {
    var l := lines[id];
    if exists k :: k in rest && k.Key() == l.Key() then
      lines' == lines && !changed
      && exists m :: 0 <= m < |rest| && rest[m].Key() == l.Key() && rest' == WithoutAt(rest, m)
    else
      && rest' == rest && (changed <==> HasOthers(l, p) || !l.Retained())
      && lines' == if HasOthers(l, p) then lines[id := l.(pids := l.pids - {p})]
                   else if !l.Retained() then lines - {id} else lines
  }

  lemma SweptKeeps(lines: Lines, bound: nat, p: nat, input: seq<Line>, order: seq<nat>, i: nat,
                   now: Lines, rest: seq<Line>, dropped: set<nat>)
    requires InOrder(lines, bound, p, order) && i < |order|
    requires SweepState(lines, bound, p, input, Elements(order[..i]), now, rest, dropped)
    ensures order[i] in lines && order[i] in now && now[order[i]] == lines[order[i]] && p in lines[order[i]].pids
    ensures order[i] !in Elements(order[..i])
  {
    hide Dropped, LeftSoFar;
    assert order[i] in order;
  }

  lemma SweepNext(lines: Lines, bound: nat, p: nat, input: seq<Line>, order: seq<nat>, i: nat,
                  now: Lines, rest: seq<Line>, dropped: set<nat>, lines': Lines, rest': seq<Line>, changed: bool)
    requires InOrder(lines, bound, p, order) && i < |order| && order[i] in now
    requires SweepState(lines, bound, p, input, Elements(order[..i]), now, rest, dropped)
    requires Swept(now, p, order[i], rest, lines', rest', changed)
    ensures order[i] !in dropped
    ensures SweepState(lines, bound, p, input, Elements(order[..i + 1]), lines', rest',
                       if changed then dropped + {order[i]} else dropped)
  {
    hide InOrder, SweptSoFar, LeftSoFar, Matches, Dropped, WithoutAt;
    var id, done := order[i], Elements(order[..i]);
    SweptKeeps(lines, bound, p, input, order, i, now, rest, dropped);
    NextMatches(lines, bound, p, input, order, i, rest);
    assert Elements(order[..i + 1]) == done + {id};
    if m :| 0 <= m < |rest| && rest[m].Key() == now[id].Key() && rest' == WithoutAt(rest, m) {
      assert rest[m] in rest;
      LeftAfterMatch(lines, p, input, done, rest, id, m);
    } else {
      LeftAfterMiss(lines, p, input, done, rest, id);
    }
    CardAfterStep(lines, bound, p, input, done, now, rest, dropped, id, lines', rest', changed);
  }

  lemma CardAfterStep(lines: Lines, bound: nat, p: nat, input: seq<Line>, done: set<nat>, now: Lines, rest: seq<Line>,
                      dropped: set<nat>, id: nat, lines': Lines, rest': seq<Line>, changed: bool)
    requires SweepState(lines, bound, p, input, done, now, rest, dropped)
    requires id in lines && id in now && now[id] == lines[id] && id !in done && p in lines[id].pids
    requires Matches(lines, bound, p, Keys(input), id) <==> exists l :: l in rest && l.Key() == lines[id].Key()
    requires Swept(now, p, id, rest, lines', rest', changed)
    ensures SweptSoFar(lines, bound, p, Keys(input), done + {id}, lines')
    ensures id !in dropped && (changed <==> Dropped(lines, bound, p, Keys(input), id))
  {
    hide LeftSoFar, Matches, Keys, WithoutAt;
  }

  lemma SweepEnd(lines: Lines, bound: nat, p: nat, input: seq<Line>, order: seq<nat>,
                 lines': Lines, rest: seq<Line>, dropped: set<nat>)
    requires InOrder(lines, bound, p, order)
    requires SweepState(lines, bound, p, input, Elements(order), lines', rest, dropped)
    ensures SweptSoFar(lines, bound, p, Keys(input), lines.Keys, lines')
    ensures LeftSoFar(lines, p, input, lines.Keys, rest)
    ensures dropped == DroppedIds(lines, bound, p, Keys(input))
  {
    assert forall id :: id in lines && p in lines[id].pids ==> id in order;
  }

  lemma SweepStart(lines: Lines, bound: nat, p: nat, input: seq<Line>)
    requires UniqueKeys(input)
    ensures SweepState(lines, bound, p, input, Elements([]), lines, input, {})
  {}

  predicate InUse(sources: map<string, nat>, n: nat) {
    exists s :: s in sources && sources[s] == n
  }

  /** No source number is free. */
  predicate Full(sources: map<string, nat>) {
    forall n :: 1 <= n < MAX_SRC_PID ==> InUse(sources, n)
  }

  /** The last version under which the lines bear the number, or 0. */
  ghost predicate IsLast(lines: Lines, p: nat, version: nat) {
    && (forall id :: id in lines && p in lines[id].pids ==> lines[id].pids[p] <= version)
    && (version == 0 || exists id :: id in lines && p in lines[id].pids && lines[id].pids[p] == version)
  }

  /** Merged, with the version after the last one of the source on the card. */
  ghost predicate MergedNext(c: Card, bound: nat, p: nat, input: seq<Line>, c': Card) {
    exists version: nat :: IsLast(c.lines, p, version) && Merged(c, bound, p, version + 1, input, c')
  }

  lemma IsNext(c: Card, bound: nat, p: nat, version: nat, input: seq<Line>, c': Card)
    requires IsLast(c.lines, p, version) && Merged(c, bound, p, version + 1, input, c')
    ensures MergedNext(c, bound, p, input, c')
    ensures Changes(c, bound, p, input, c') ==
            |DroppedIds(c.lines, bound, p, Keys(input))| + |c'.lines.Keys - c.lines.Keys|
  {
    hide IsLast, Merged;
  }

  lemma LinesFit(c: Card)
    requires WellFormed(c)
    ensures forall id :: id in c.lines ==> id <= c.slots
  {}

  /** Copying all input lines is the first merge of a source. */
  lemma FirstDone(c: Card, p: nat, input: seq<Line>, c': Card)
    requires WellFormed(c) && c'.sources == c.sources && UniqueKeys(input)
    requires TaggedSoFar(c.lines, c.slots, p, 1, input, |input|, c'.lines, c'.slots)
    ensures MergedFirst(c, p, 1, input, c') && WellFormed(c')
  {
    hide KeyBelow, Keys, AddedFor, Provided, IsNew, Missing, UniqueKeys;
    forall k ensures KeyBelow(input, |input|, k) <==> k in Keys(input) { AllBelow(input, k); }
    forall id | id in c'.lines && id !in c.lines ensures IsNew(c, p, 1, input, c', id) && id <= c'.slots {
      FirstNew(c, p, input, c', id);
    }
    forall k | Missing(c.lines, Keys(input), k) ensures exists id :: HasKey(c'.lines, id, k) && id !in c.lines {
      FirstProvided(c, p, input, c', k);
    }
  }

  lemma FirstProvided(c: Card, p: nat, input: seq<Line>, c': Card, k: LineKey)
    requires TaggedSoFar(c.lines, c.slots, p, 1, input, |input|, c'.lines, c'.slots)
    requires Missing(c.lines, Keys(input), k)
    ensures exists id :: HasKey(c'.lines, id, k) && id !in c.lines
  {
    hide OldTagged, AddedFor;
    AllBelow(input, k);
    var i :| 0 <= i < |input| && input[i].Key() == k;
    assert Provided(c.lines, k, c'.lines);
  }

  lemma AllBelow(input: seq<Line>, k: LineKey)
    ensures KeyBelow(input, |input|, k) <==> k in Keys(input)
  {
    if i :| 0 <= i < |input| && input[i].Key() == k { assert input[i] in input; }
    if k in Keys(input) {
      var l :| l in input && l.Key() == k;
      var i :| 0 <= i < |input| && input[i] == l;
    }
  }

  lemma FirstNew(c: Card, p: nat, input: seq<Line>, c': Card, id: nat)
    requires TaggedSoFar(c.lines, c.slots, p, 1, input, |input|, c'.lines, c'.slots)
    requires id in c'.lines && id !in c.lines
    ensures IsNew(c, p, 1, input, c', id) && id <= c'.slots
  {
    assert AddedFor(c.lines, c.slots, p, 1, input, |input|, c'.lines, c'.slots, id);
    var i :| 0 <= i < |input| && c'.lines[id] == input[i].(pids := map[p := 1])
             && forall x :: !HasKey(c.lines, x, input[i].Key());
    assert input[i] in input;
  }

  lemma AtIsIn(input: seq<Line>, j: nat)
    requires j < |input| && !Repeatable(input[j].name)
    ensures HasUnrepeatable(input)
  {
    assert input[j] in input;
  }

  /** A line that not every card may have any number of. */
  predicate HasUnrepeatable(input: seq<Line>) {
    exists l :: l in input && !Repeatable(l.name)
  }

  lemma NotAdded(lines: Lines, p: nat, input: seq<Line>, rest: seq<Line>)
    requires LeftSoFar(lines, p, input, lines.Keys, rest) && HasUnrepeatable(rest)
    ensures HasUnrepeatable(input)
  {
    hide Repeatable, UniqueKeys;
    var l :| l in rest && !Repeatable(l.name);
    assert l in input;
  }

  lemma ReadyToCopy(c: Card, bound: nat, p: nat, input: seq<Line>, swept: Lines, rest: seq<Line>)
    requires WellFormed(c) && SweptSoFar(c.lines, bound, p, Keys(input), c.lines.Keys, swept)
    requires LeftSoFar(c.lines, p, input, c.lines.Keys, rest)
    ensures UniqueKeys(rest) && forall id :: id in swept ==> id <= c.slots
  {
    hide UniqueKeys, Dropped;
  }

  lemma RestIsUnmatched(lines: Lines, p: nat, input: seq<Line>, rest: seq<Line>, k: LineKey)
    requires LeftSoFar(lines, p, input, lines.Keys, rest)
    ensures KeyBelow(rest, |rest|, k) <==> Unmatched(lines, p, Keys(input), k)
  {
    if i :| 0 <= i < |rest| && rest[i].Key() == k {
      assert rest[i] in rest;
    }
    if Unmatched(lines, p, Keys(input), k) {
      var l :| l in input && l.Key() == k;
      assert l in rest;
    }
  }

  lemma UnmatchedSurvives(lines: Lines, bound: nat, p: nat, input: seq<Line>, swept: Lines, k: LineKey, x: nat)
    requires SweptSoFar(lines, bound, p, Keys(input), lines.Keys, swept) && Unmatched(lines, p, Keys(input), k)
    ensures HasKey(swept, x, k) <==> HasKey(lines, x, k)
  {
    assert !Ours(lines, p, x, k);
  }

  lemma FateDone(c: Card, bound: nat, p: nat, ver: nat, input: seq<Line>, swept: Lines, rest: seq<Line>, c': Card, id: nat)
    requires WellFormed(c) && id in c.lines
    requires SweptSoFar(c.lines, bound, p, Keys(input), c.lines.Keys, swept)
    requires LeftSoFar(c.lines, p, input, c.lines.Keys, rest)
    requires TaggedSoFar(swept, c.slots, p, ver, rest, |rest|, c'.lines, c'.slots)
    ensures Fate(c.lines, bound, p, ver, Keys(input), id) == if id in c'.lines then Some(c'.lines[id]) else None
  {
    hide LeftSoFar, KeyBelow;
    var l := c.lines[id];
    RestIsUnmatched(c.lines, p, input, rest, l.Key());
    if id in swept {
      assert Dropped(c.lines, bound, p, Keys(input), id) ==> Ours(c.lines, p, id, l.Key());
    }
  }

  lemma NewDone(c: Card, bound: nat, p: nat, ver: nat, input: seq<Line>, swept: Lines, rest: seq<Line>, c': Card, id: nat)
    requires WellFormed(c) && id in c'.lines && id !in c.lines
    requires SweptSoFar(c.lines, bound, p, Keys(input), c.lines.Keys, swept)
    requires LeftSoFar(c.lines, p, input, c.lines.Keys, rest)
    requires TaggedSoFar(swept, c.slots, p, ver, rest, |rest|, c'.lines, c'.slots)
    ensures IsNew(c, p, ver, input, c', id)
  {
    assert AddedFor(swept, c.slots, p, ver, rest, |rest|, c'.lines, c'.slots, id);
    var i :| 0 <= i < |rest| && c'.lines[id] == rest[i].(pids := map[p := ver]) && forall x :: !HasKey(swept, x, rest[i].Key());
    var k := rest[i].Key();
    assert rest[i] in rest && rest[i] in input;
    RestIsUnmatched(c.lines, p, input, rest, k);
    forall x ensures !HasKey(c.lines, x, k) {
      UnmatchedSurvives(c.lines, bound, p, input, swept, k, x);
    }
  }

  lemma ProvidedDone(c: Card, bound: nat, p: nat, ver: nat, input: seq<Line>, swept: Lines, rest: seq<Line>, c': Card, k: LineKey)
    requires WellFormed(c) && Missing(c.lines, Keys(input), k)
    requires SweptSoFar(c.lines, bound, p, Keys(input), c.lines.Keys, swept)
    requires LeftSoFar(c.lines, p, input, c.lines.Keys, rest)
    requires TaggedSoFar(swept, c.slots, p, ver, rest, |rest|, c'.lines, c'.slots)
    ensures exists id :: HasKey(c'.lines, id, k) && id !in c.lines
  {
    forall x ensures !Ours(c.lines, p, x, k) { assert !HasKey(c.lines, x, k); }
    assert Unmatched(c.lines, p, Keys(input), k);
    RestIsUnmatched(c.lines, p, input, rest, k);
    var i :| 0 <= i < |rest| && rest[i].Key() == k;
    assert Provided(swept, k, c'.lines);
    forall x ensures !HasKey(swept, x, k) {
      assert !HasKey(c.lines, x, k);
      UnmatchedSurvives(c.lines, bound, p, input, swept, k, x);
    }
    var id :| HasKey(c'.lines, id, k) && id !in swept;
    assert AddedFor(swept, c.slots, p, ver, rest, |rest|, c'.lines, c'.slots, id);
  }

  /** The sweep and the copying together are the merge. */
  lemma MergeDone(c: Card, bound: nat, p: nat, ver: nat, input: seq<Line>, swept: Lines, rest: seq<Line>, c': Card)
    requires WellFormed(c) && c'.sources == c.sources
    requires SweptSoFar(c.lines, bound, p, Keys(input), c.lines.Keys, swept)
    requires LeftSoFar(c.lines, p, input, c.lines.Keys, rest)
    requires TaggedSoFar(swept, c.slots, p, ver, rest, |rest|, c'.lines, c'.slots)
    ensures Merged(c, bound, p, ver, input, c') && WellFormed(c')
    ensures c'.lines.Keys - c.lines.Keys == c'.lines.Keys - swept.Keys
  {
    hide SweptSoFar, LeftSoFar, OldTagged, AddedFor, Provided, Fate, Missing, Keys;
    forall id | id in c.lines
      ensures Fate(c.lines, bound, p, ver, Keys(input), id) == if id in c'.lines then Some(c'.lines[id]) else None
    {
      FateDone(c, bound, p, ver, input, swept, rest, c', id);
    }
    forall id | id in c'.lines && id !in c.lines ensures IsNew(c, p, ver, input, c', id) {
      NewDone(c, bound, p, ver, input, swept, rest, c', id);
    }
    forall k | Missing(c.lines, Keys(input), k) ensures exists id :: HasKey(c'.lines, id, k) && id !in c.lines {
      ProvidedDone(c, bound, p, ver, input, swept, rest, c', k);
    }
    forall id | id in c'.lines && id !in swept ensures id !in c.lines {
      NotBack(c, p, ver, swept, rest, c', id);
    }
  }

  lemma NotBack(c: Card, p: nat, ver: nat, swept: Lines, rest: seq<Line>, c': Card, id: nat)
    requires WellFormed(c) && TaggedSoFar(swept, c.slots, p, ver, rest, |rest|, c'.lines, c'.slots)
    requires id in c'.lines && id !in swept
    ensures id !in c.lines
  {
    assert AddedFor(swept, c.slots, p, ver, rest, |rest|, c'.lines, c'.slots, id);
  }

  /** The input lines a merge may touch. */
  function Removable(input: seq<Line>): (r: seq<Line>) {
    if input == [] then []
    else (if input[0].name in UNREMOVABLE then [] else [input[0]]) + Removable(input[1..])
  }

  function TagKey(lines: Lines, k: LineKey, p: nat, ver: nat): Lines {
    map id | id in lines :: if lines[id].Key() == k then Tag(lines[id], p, ver) else lines[id]
  }

  /** One of the first j input lines has this name and value. */
  ghost predicate KeyBelow(rest: seq<Line>, j: nat, k: LineKey)
    requires j <= |rest|
  {
    exists i :: 0 <= i < j && rest[i].Key() == k
  }

  ghost predicate AddedFor(lines: Lines, first: nat, p: nat, ver: nat, rest: seq<Line>, j: nat, lines': Lines, slots: nat, id: nat)
    requires j <= |rest| && id in lines'
  {
    && first < id <= slots
    && exists i :: 0 <= i < j && lines'[id] == rest[i].(pids := map[p := ver]) && forall x :: !HasKey(lines, x, rest[i].Key())
  }

  ghost predicate OldTagged(lines: Lines, p: nat, ver: nat, rest: seq<Line>, j: nat, lines': Lines)
    requires j <= |rest|
  {
    forall id :: id in lines ==>
      && id in lines'
      && lines'[id] == if KeyBelow(rest, j, lines[id].Key()) then Tag(lines[id], p, ver) else lines[id]
  }

  ghost predicate NewAdded(lines: Lines, first: nat, p: nat, ver: nat, rest: seq<Line>, j: nat, lines': Lines, slots: nat)
    requires j <= |rest|
  {
    && (forall id :: id in lines' && id !in lines ==> AddedFor(lines, first, p, ver, rest, j, lines', slots, id))
    && (forall a, b :: a in lines' && b in lines' && a !in lines && b !in lines && a != b ==> lines'[a].Key() != lines'[b].Key())
    && (forall i :: 0 <= i < j ==> Provided(lines, rest[i].Key(), lines'))
  }

  /** A line was added for a key that the swept card does not have. */
  ghost predicate Provided(lines: Lines, k: LineKey, lines': Lines) {
    (exists x :: HasKey(lines, x, k)) || exists id :: HasKey(lines', id, k) && id !in lines
  }

  /** The first j of the left-over input lines have been copied to the swept card. */
  ghost predicate TaggedSoFar(lines: Lines, first: nat, p: nat, ver: nat, rest: seq<Line>, j: nat, lines': Lines, slots: nat)
    requires j <= |rest|
  {
    && first <= slots && (forall id :: id in lines ==> id <= first)
    && OldTagged(lines, p, ver, rest, j, lines')
    && NewAdded(lines, first, p, ver, rest, j, lines', slots)
  }

  lemma CopyKeepsUnremovable(start: Lines, swept: Lines, first: nat, p: nat, ver: nat, rest: seq<Line>, lines: Lines, slots: nat)
    requires KeepsUnremovable(start, swept) && TaggedSoFar(swept, first, p, ver, rest, |rest|, lines, slots)
    ensures KeepsUnremovable(start, lines)
  {
    hide NewAdded, KeyBelow;
  }

  lemma CopyStart(lines: Lines, first: nat, p: nat, ver: nat, rest: seq<Line>)
    requires forall id :: id in lines ==> id <= first
    ensures TaggedSoFar(lines, first, p, ver, rest, 0, lines, first)
  {}

  lemma KeysBelow(rest: seq<Line>, j: nat)
    requires j < |rest|
    ensures forall k :: KeyBelow(rest, j + 1, k) <==> KeyBelow(rest, j, k) || k == rest[j].Key()
    ensures UniqueKeys(rest) ==> !KeyBelow(rest, j, rest[j].Key())
  {
    forall k ensures KeyBelow(rest, j + 1, k) <==> KeyBelow(rest, j, k) || k == rest[j].Key() {
      if k == rest[j].Key() { assert rest[j].Key() == k; }
    }
  }

  lemma StillProvided(lines: Lines, k: LineKey, now: Lines, lines': Lines)
    requires Provided(lines, k, now)
    requires forall id :: id in now ==> id in lines' && lines'[id].Key() == now[id].Key()
    ensures Provided(lines, k, lines')
  {
    if id :| HasKey(now, id, k) && id !in lines {
      assert HasKey(lines', id, k);
    }
  }

  lemma StillAdded(lines: Lines, first: nat, p: nat, ver: nat, rest: seq<Line>, j: nat, now: Lines, slots: nat,
                   lines': Lines, slots': nat, id: nat)
    requires j < |rest| && id in now && id in lines' && lines'[id] == now[id] && slots <= slots'
    requires AddedFor(lines, first, p, ver, rest, j, now, slots, id)
    ensures AddedFor(lines, first, p, ver, rest, j + 1, lines', slots', id)
  {}

  /** A line that was added has another key than any input line still to come. */
  lemma AddedKeyDiffers(lines: Lines, first: nat, p: nat, ver: nat, rest: seq<Line>, j: nat, now: Lines, slots: nat, x: nat)
    requires j < |rest| && UniqueKeys(rest) && NewAdded(lines, first, p, ver, rest, j, now, slots)
    requires x in now && x !in lines
    ensures now[x].Key() != rest[j].Key() && x <= slots
  {
    assert AddedFor(lines, first, p, ver, rest, j, now, slots, x);
  }

  lemma TagNext(lines: Lines, first: nat, p: nat, ver: nat, rest: seq<Line>, j: nat, now: Lines, slots: nat)
    requires j < |rest| && UniqueKeys(rest) && TaggedSoFar(lines, first, p, ver, rest, j, now, slots)
    requires exists x :: HasKey(now, x, rest[j].Key())
    ensures TaggedSoFar(lines, first, p, ver, rest, j + 1, TagKey(now, rest[j].Key(), p, ver), slots)
    ensures TagKey(now, rest[j].Key(), p, ver).Keys == now.Keys
  {
    hide KeyBelow, UniqueKeys, AddedFor, NewAdded;
    KeysBelow(rest, j);
    TagNextNew(lines, first, p, ver, rest, j, now, slots);
  }

  lemma TagNextNew(lines: Lines, first: nat, p: nat, ver: nat, rest: seq<Line>, j: nat, now: Lines, slots: nat)
    requires j < |rest| && UniqueKeys(rest) && TaggedSoFar(lines, first, p, ver, rest, j, now, slots)
    requires exists x :: HasKey(now, x, rest[j].Key())
    ensures NewAdded(lines, first, p, ver, rest, j + 1, TagKey(now, rest[j].Key(), p, ver), slots)
  {
    hide AddedFor, UniqueKeys, Provided;
    var k := rest[j].Key();
    var lines' := TagKey(now, k, p, ver);
    forall x | x in now && x !in lines
      ensures lines'[x] == now[x] && AddedFor(lines, first, p, ver, rest, j + 1, lines', slots, x)
    {
      AddedKeyDiffers(lines, first, p, ver, rest, j, now, slots, x);
      StillAdded(lines, first, p, ver, rest, j, now, slots, lines', slots, x);
    }
    forall i | 0 <= i < j ensures Provided(lines, rest[i].Key(), lines') {
      StillProvided(lines, rest[i].Key(), now, lines');
    }
    TagProvides(lines, first, p, ver, rest, j, now, slots, lines');
  }

  lemma TagProvides(lines: Lines, first: nat, p: nat, ver: nat, rest: seq<Line>, j: nat, now: Lines, slots: nat, lines': Lines)
    requires j < |rest| && UniqueKeys(rest) && TaggedSoFar(lines, first, p, ver, rest, j, now, slots)
    requires exists x :: HasKey(now, x, rest[j].Key())
    ensures Provided(lines, rest[j].Key(), lines')
  {
    var x :| HasKey(now, x, rest[j].Key());
    if x !in lines { AddedKeyDiffers(lines, first, p, ver, rest, j, now, slots, x); }
    assert HasKey(lines, x, rest[j].Key());
  }

  lemma AddNext(lines: Lines, first: nat, p: nat, ver: nat, rest: seq<Line>, j: nat, now: Lines, slots: nat)
    requires j < |rest| && UniqueKeys(rest) && TaggedSoFar(lines, first, p, ver, rest, j, now, slots)
    requires forall x :: !HasKey(now, x, rest[j].Key())
    ensures TagKey(now, rest[j].Key(), p, ver) == now
    ensures slots + 1 !in now && slots + 1 !in lines
    ensures TaggedSoFar(lines, first, p, ver, rest, j + 1, now[slots + 1 := rest[j].(pids := map[p := ver])], slots + 1)
  {
    hide KeyBelow, UniqueKeys, AddedFor, NewAdded;
    var k := rest[j].Key();
    forall x | x in now ensures now[x].Key() != k && x <= slots {
      assert !HasKey(now, x, k);
      if x !in lines { AddedKeyDiffers(lines, first, p, ver, rest, j, now, slots, x); }
    }
    forall x ensures !HasKey(lines, x, k) {
      assert !HasKey(now, x, k);
    }
    KeysBelow(rest, j);
    AddNextNew(lines, first, p, ver, rest, j, now, slots);
  }

  lemma AddNextNew(lines: Lines, first: nat, p: nat, ver: nat, rest: seq<Line>, j: nat, now: Lines, slots: nat)
    requires j < |rest| && UniqueKeys(rest) && TaggedSoFar(lines, first, p, ver, rest, j, now, slots)
    requires forall x :: !HasKey(lines, x, rest[j].Key())
    requires forall x :: x in now ==> x <= slots
    ensures NewAdded(lines, first, p, ver, rest, j + 1, now[slots + 1 := rest[j].(pids := map[p := ver])], slots + 1)
  {
    hide AddedFor, UniqueKeys, Provided;
    var lines' := now[slots + 1 := rest[j].(pids := map[p := ver])];
    forall id | id in lines' && id !in lines
      ensures AddedFor(lines, first, p, ver, rest, j + 1, lines', slots + 1, id)
      ensures id != slots + 1 ==> lines'[id].Key() != rest[j].Key()
    {
      if id != slots + 1 {
        AddedKeyDiffers(lines, first, p, ver, rest, j, now, slots, id);
        StillAdded(lines, first, p, ver, rest, j, now, slots, lines', slots + 1, id);
      } else {
        JustAdded(lines, first, p, ver, rest, j, lines', slots + 1);
      }
    }
    forall i | 0 <= i < j ensures Provided(lines, rest[i].Key(), lines') {
      StillProvided(lines, rest[i].Key(), now, lines');
    }
    JustProvided(lines, rest[j].Key(), lines', slots + 1);
  }

  lemma JustAdded(lines: Lines, first: nat, p: nat, ver: nat, rest: seq<Line>, j: nat, lines': Lines, id: nat)
    requires j < |rest| && first < id && id in lines' && lines'[id] == rest[j].(pids := map[p := ver])
    requires forall x :: !HasKey(lines, x, rest[j].Key())
    ensures AddedFor(lines, first, p, ver, rest, j + 1, lines', id, id)
  {}

  lemma JustProvided(lines: Lines, k: LineKey, lines': Lines, id: nat)
    requires id in lines' && lines'[id].Key() == k && id !in lines
    ensures Provided(lines, k, lines')
  {
    assert HasKey(lines', id, k);
  }
}
