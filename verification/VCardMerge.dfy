/** Merging the lines of one source into a contact card. */
module VCardMerge {
  // Every line says which sources it comes from (its PIDs: a source number and a
  // version), and the card maps each source to its number (CLIENTPIDMAP).
  import opened Wrappers

  datatype LineKey = LineKey(name: string, value: string)

  /** pref is a PREF attribute with a value, preferred any mark of preference. */
  datatype Line = Line(name: string, value: string, pids: map<nat, nat>, pref: bool, preferred: bool, rank: nat) {
    function Key(): LineKey { LineKey(name, value) }

    /** Lines that a source may add but a merge never takes away. */
    predicate Retained() { pref || name == "email" }
  }

  type Lines = map<nat, Line>

  /** Lines by their line number; slots is the last number given out. */
  datatype Card = Card(lines: Lines, sources: map<string, nat>, slots: nat)

  const UNREMOVABLE: set<string> := {"x-mailpile-rid", "x-mailpile-kind-hint", "clientpidmap", "version"}
  const MAX_SRC_PID: nat := 990

  ghost predicate WellFormed(c: Card) {
    && (forall id :: id in c.lines ==> id <= c.slots)
    && (forall s, t :: s in c.sources && t in c.sources && c.sources[s] == c.sources[t] ==> s == t)
  }

  // ----- The order in which lines are met

  function PidSum(pids: map<nat, nat>, bound: nat): nat {
    if bound == 0 then 0
    else PidSum(pids, bound - 1) + if bound - 1 in pids then (if bound - 1 == MAX_SRC_PID then 1 else bound - 1) else 0
  }

  /** The part of the sort key that tells lines of equal name and value apart. */
  function Score(l: Line, bound: nat): nat {
    (if l.preferred then 10000 else 0) + l.rank * 10 + PidSum(l.pids, bound)
  }

  predicate Before(bound: nat, a: Line, i: nat, b: Line, j: nat) {
    Score(a, bound) > Score(b, bound) || (Score(a, bound) == Score(b, bound) && i < j)
  }

  lemma {:induction false} PidSumTagged(pids: map<nat, nat>, p: nat, ver: nat, bound: nat)
    requires p !in pids
    ensures PidSum(pids[p := ver], bound) == PidSum(pids, bound) + PidSum(map[p := ver], bound)
  {
    if bound > 0 { PidSumTagged(pids, p, ver, bound - 1); }
  }

  lemma TagKeepsOrder(bound: nat, a: Line, i: nat, b: Line, j: nat, p: nat, ver: nat)
    requires p !in a.pids && p !in b.pids
    ensures Before(bound, Tag(a, p, ver), i, Tag(b, p, ver), j) <==> Before(bound, a, i, b, j)
  {
    PidSumTagged(a.pids, p, ver, bound);
    PidSumTagged(b.pids, p, ver, bound);
  }

  /** A source number counts as itself, but for the default one, which counts one. */
  lemma {:induction false} PidSumOfOne(n: nat, ver: nat, bound: nat)
    ensures PidSum(map[n := ver], bound) == if bound <= n then 0 else if n == 990 then 1 else n
  {
    if bound > 0 { PidSumOfOne(n, ver, bound - 1); }
  }

  // ----- What a merge does

  function Keys(input: seq<Line>): set<LineKey> {
    set l | l in input :: l.Key()
  }

  predicate HasKey(lines: Lines, x: nat, k: LineKey) {
    x in lines && lines[x].Key() == k
  }

  /** x is a line of source number p with this name and value. */
  predicate Ours(lines: Lines, p: nat, x: nat, k: LineKey) {
    HasKey(lines, x, k) && p in lines[x].pids
  }

  /** Of the source's lines that equal an input line, the first one matches it. */
  ghost predicate Matches(lines: Lines, bound: nat, p: nat, keys: set<LineKey>, id: nat) {
    && id in lines && p in lines[id].pids && lines[id].Key() in keys
    && forall x :: Ours(lines, p, x, lines[id].Key()) && x != id ==> Before(bound, lines[id], id, lines[x], x)
  }

  /** A line of the source that matches no input line loses the source's PID, or
      goes altogether, unless nothing else holds it and merges never remove it. */
  ghost predicate Dropped(lines: Lines, bound: nat, p: nat, keys: set<LineKey>, id: nat) {
    && id in lines && p in lines[id].pids && !Matches(lines, bound, p, keys, id)
    && (HasOthers(lines[id], p) || !lines[id].Retained())
  }

  predicate HasOthers(l: Line, p: nat) {
    exists q :: q in l.pids && q != p
  }

  /** An input line that none of the source's lines matches. */
  ghost predicate Unmatched(lines: Lines, p: nat, keys: set<LineKey>, k: LineKey) {
    k in keys && forall x :: !Ours(lines, p, x, k)
  }

  function Tag(l: Line, p: nat, ver: nat): Line {
    l.(pids := l.pids[p := ver])
  }

  /** What becomes of a line, or None if it is removed. */
  ghost function Fate(lines: Lines, bound: nat, p: nat, ver: nat, keys: set<LineKey>, id: nat): Option<Line>
    requires id in lines
  {
    var l := lines[id];
    if Dropped(lines, bound, p, keys, id) then
      if HasOthers(l, p) then Some(l.(pids := l.pids - {p})) else None
    else if Unmatched(lines, p, keys, l.Key()) then Some(Tag(l, p, ver))
    else Some(l)
  }

  /** An input line with no equal line on the card at all. */
  ghost predicate Missing(lines: Lines, keys: set<LineKey>, k: LineKey) {
    k in keys && forall x :: !HasKey(lines, x, k)
  }

  ghost function DroppedIds(lines: Lines, bound: nat, p: nat, keys: set<LineKey>): set<nat> {
    set id | id in lines && Dropped(lines, bound, p, keys, id)
  }

  /** id was added to the card for a missing input line. */
  ghost predicate IsNew(c: Card, p: nat, ver: nat, input: seq<Line>, c': Card, id: nat)
    requires id in c'.lines
  {
    && c.slots < id <= c'.slots && Missing(c.lines, Keys(input), c'.lines[id].Key())
    && exists l :: l in input && c'.lines[id] == l.(pids := map[p := ver])
  }

  /** The card after the lines in input, each with its own name and value, have been
      merged for source number p. */
  ghost predicate Merged(c: Card, bound: nat, p: nat, ver: nat, input: seq<Line>, c': Card) {
    var keys := Keys(input);
    && c'.sources == c.sources && c'.slots >= c.slots
    && (forall id :: id in c.lines ==>
          Fate(c.lines, bound, p, ver, keys, id) == if id in c'.lines then Some(c'.lines[id]) else None)
    && (forall id :: id in c'.lines && id !in c.lines ==> IsNew(c, p, ver, input, c', id))
    && (forall a, b :: a in c'.lines && b in c'.lines && a !in c.lines && b !in c.lines && a != b ==>
          c'.lines[a].Key() != c'.lines[b].Key())
    && (forall k :: Missing(c.lines, keys, k) ==> exists id :: HasKey(c'.lines, id, k) && id !in c.lines)
  }

  /** The number of changes reported: lines dropped and lines added. */
  ghost function Changes(c: Card, bound: nat, p: nat, input: seq<Line>, c': Card): nat {
    |DroppedIds(c.lines, bound, p, Keys(input))| + |c'.lines.Keys - c.lines.Keys|
  }

  /** Sources are kept apart: no line that another source is named on, and no line
      the merging source is not named on, is removed or loses anything. */
  lemma OthersKeepTheirLines(c: Card, bound: nat, p: nat, ver: nat, input: seq<Line>, c': Card, id: nat, q: nat)
    requires Merged(c, bound, p, ver, input, c')
    requires id in c.lines && q != p && (q in c.lines[id].pids || p !in c.lines[id].pids)
    ensures id in c'.lines && c'.lines[id] == c.lines[id].(pids := c'.lines[id].pids)
    ensures forall r :: r != p ==>
      (r in c'.lines[id].pids <==> r in c.lines[id].pids) &&
      (r in c.lines[id].pids ==> c'.lines[id].pids[r] == c.lines[id].pids[r])
  {
    hide Unmatched;
    assert q in c.lines[id].pids ==> HasOthers(c.lines[id], p);
    assert Fate(c.lines, bound, p, ver, Keys(input), id).Some?;
  }

  lemma BeforeTotal(bound: nat, a: Line, i: nat, b: Line, j: nat, d: Line, k: nat)
    ensures i != j ==> Before(bound, a, i, b, j) || Before(bound, b, j, a, i)
    ensures Before(bound, a, i, b, j) && Before(bound, b, j, d, k) ==> Before(bound, a, i, d, k)
  {}

  /** id comes first of the given lines in sorting order. */
  ghost predicate IsFirst(lines: Lines, bound: nat, ids: set<nat>, id: nat)
    requires ids <= lines.Keys
  {
    id in ids && forall x :: x in ids && x != id ==> Before(bound, lines[id], id, lines[x], x)
  }

  lemma FirstOfMore(lines: Lines, bound: nat, ids: set<nat>, x: nat, y: nat)
    requires ids <= lines.Keys && x in ids && IsFirst(lines, bound, ids - {x}, y)
    ensures IsFirst(lines, bound, ids, if Before(bound, lines[x], x, lines[y], y) then x else y)
  {
    var w := if Before(bound, lines[x], x, lines[y], y) then x else y;
    forall z | z in ids && z != w ensures Before(bound, lines[w], w, lines[z], z) {
      hide Before;
      BeforeTotal(bound, lines[x], x, lines[y], y, lines[z], z);
      assert z == x || z in ids - {x};
    }
  }

  lemma FirstExists(lines: Lines, bound: nat, ids: set<nat>) returns (id: nat)
    requires ids != {} && ids <= lines.Keys
    ensures id in ids && IsFirst(lines, bound, ids, id)
  {
    id :| id in ids;
    var rest := ids - {id};
    if rest == {} {
      assert forall y :: y in ids ==> y == id || y in rest;
    } else {
      hide IsFirst, Before;
      var y := FirstExists(lines, bound, rest);
      FirstOfMore(lines, bound, ids, id, y);
      id := if Before(bound, lines[id], id, lines[y], y) then id else y;
    }
  }

  lemma MatchExists(lines: Lines, bound: nat, p: nat, keys: set<LineKey>, k: LineKey)
    requires k in keys && !Unmatched(lines, p, keys, k)
    ensures exists id :: Matches(lines, bound, p, keys, id) && lines[id].Key() == k
  {
    var ours := set id | id in lines && Ours(lines, p, id, k);
    var y :| Ours(lines, p, y, k);
    assert y in ours;
    var id := FirstExists(lines, bound, ours);
    assert forall x :: Ours(lines, p, x, k) ==> x in ours;
    assert Matches(lines, bound, p, keys, id);
  }

  /** After the merge the source's lines are the input lines, each at least once,
      and those of its old lines that no other source holds and that merges never
      remove. */
  lemma SourceHasItsLines(c: Card, bound: nat, p: nat, ver: nat, input: seq<Line>, c': Card)
    requires Merged(c, bound, p, ver, input, c')
    ensures forall k :: k in Keys(input) ==> exists id :: Ours(c'.lines, p, id, k)
    ensures forall id :: id in c'.lines && p in c'.lines[id].pids ==>
      || c'.lines[id].Key() in Keys(input)
      || (id in c.lines && c'.lines[id] == c.lines[id] && !HasOthers(c.lines[id], p) && c.lines[id].Retained())
  {
    forall k | k in Keys(input) ensures exists id :: Ours(c'.lines, p, id, k) {
      InputIsOurs(c, bound, p, ver, input, c', k);
    }
    forall id | id in c'.lines && p in c'.lines[id].pids
      ensures || c'.lines[id].Key() in Keys(input)
              || (id in c.lines && c'.lines[id] == c.lines[id] && !HasOthers(c.lines[id], p) && c.lines[id].Retained())
    {
      if id in c.lines {
        assert Fate(c.lines, bound, p, ver, Keys(input), id) == Some(c'.lines[id]);
      } else {
        assert IsNew(c, p, ver, input, c', id);
      }
    }
  }

  lemma InputIsOurs(c: Card, bound: nat, p: nat, ver: nat, input: seq<Line>, c': Card, k: LineKey)
    requires Merged(c, bound, p, ver, input, c') && k in Keys(input)
    ensures exists id :: Ours(c'.lines, p, id, k)
  {
    var keys := Keys(input);
    if !Unmatched(c.lines, p, keys, k) {
      MatchExists(c.lines, bound, p, keys, k);
      var id :| Matches(c.lines, bound, p, keys, id) && c.lines[id].Key() == k;
      assert Fate(c.lines, bound, p, ver, keys, id) == Some(c.lines[id]);
      assert Ours(c'.lines, p, id, k);
    } else if Missing(c.lines, keys, k) {
      var id :| HasKey(c'.lines, id, k) && id !in c.lines;
      assert IsNew(c, p, ver, input, c', id);
      assert Ours(c'.lines, p, id, k);
    } else {
      var id :| HasKey(c.lines, id, k);
      assert !Ours(c.lines, p, id, k);
      assert Fate(c.lines, bound, p, ver, keys, id) == Some(Tag(c.lines[id], p, ver));
      assert Ours(c'.lines, p, id, k);
    }
  }

  // ----- What a merge comes to, line by line

  /** Some of the given names and values are those of the line. */
  predicate Given(keys: set<LineKey>, l: Line) {
    exists k :: k in keys && k.name == l.name && k.value == l.value
  }

  /** A line of the source that is not given loses its number, if others hold it too;
      it stays with it, if it is an address or preferred; and else it goes.  All lines
      of others stay, and nothing but PIDs ever changes. */
  ghost predicate LineRight(lines: Lines, p: nat, keys: set<LineKey>, lines': Lines, id: nat)
    requires id in lines
  {
    var l := lines[id];
    var others := exists q :: q in l.pids && q != p;
    && (id in lines' ==> lines'[id].(pids := l.pids) == l)
    && (l.name == "email" || l.pref || others || p !in l.pids ==> id in lines')
    && (p in l.pids && !others && (l.name == "email" || l.pref) ==> id in lines' && lines'[id] == l)
    && (!Given(keys, l) ==>
          if p !in l.pids then id in lines' && lines'[id] == l
          else if others then id in lines' && lines'[id].pids == l.pids - {p}
          else if l.name != "email" && !l.pref then id !in lines'
          else true)
  }

  lemma MergedLineRight(c: Card, bound: nat, p: nat, ver: nat, input: seq<Line>, c': Card, id: nat)
    requires Merged(c, bound, p, ver, input, c') && id in c.lines
    ensures LineRight(c.lines, p, Keys(input), c'.lines, id)
    ensures Dropped(c.lines, bound, p, Keys(input), id) <==>
            p in c.lines[id].pids && (id !in c'.lines || p !in c'.lines[id].pids)
  {
    hide Before;
    var l := c.lines[id];
    assert Given(Keys(input), l) <==> l.Key() in Keys(input) by { hide Keys; }
    hide Keys, Missing, IsNew;
    assert Fate(c.lines, bound, p, ver, Keys(input), id) == if id in c'.lines then Some(c'.lines[id]) else None;
    assert p in l.pids ==> Ours(c.lines, p, id, l.Key());
  }

  /** Of two given lines equal but for their marks, the source keeps the preferred one,
      then the one of higher rank, and then the older one. */
  lemma BetterLineStays(c: Card, bound: nat, p: nat, ver: nat, input: seq<Line>, c': Card, a: nat, b: nat)
    requires Merged(c, bound, p, ver, input, c') && a in c.lines && b in c.lines && a != b
    requires var x, y := c.lines[a], c.lines[b];
      && x.name == y.name && x.value == y.value && x.pids == y.pids && p in x.pids && Given(Keys(input), x)
      && if x.preferred == y.preferred then x.rank > y.rank || (x.rank == y.rank && a < b)
         else x.preferred && y.rank < x.rank + 1000
    ensures !HasOthers(c.lines[b], p) && c.lines[b].name != "email" && !c.lines[b].pref ==> b !in c'.lines
    ensures HasOthers(c.lines[b], p) ==> b in c'.lines && p !in c'.lines[b].pids
    ensures (forall x :: Ours(c.lines, p, x, c.lines[a].Key()) ==> x == a || x == b) ==>
      a in c'.lines && c'.lines[a] == c.lines[a]
  {
    var x, y := c.lines[a], c.lines[b];
    var keys := Keys(input);
    assert x.Key() in keys by { hide Keys; }
    assert Ours(c.lines, p, a, x.Key()) && Ours(c.lines, p, b, x.Key());
    assert Before(bound, x, a, y, b) && !Before(bound, y, b, x, a);
    hide Before, Keys, Missing, IsNew;
    assert !Matches(c.lines, bound, p, keys, b);
    assert Fate(c.lines, bound, p, ver, keys, b) == if b in c'.lines then Some(c'.lines[b]) else None;
    assert Fate(c.lines, bound, p, ver, keys, a) == if a in c'.lines then Some(c'.lines[a]) else None;
  }

  /** The changes that are reported, counted on the cards. */
  lemma ChangesMeaning(c: Card, bound: nat, p: nat, ver: nat, input: seq<Line>, c': Card)
    requires Merged(c, bound, p, ver, input, c')
    ensures DroppedIds(c.lines, bound, p, Keys(input)) ==
            set id | id in c.lines && p in c.lines[id].pids && (id !in c'.lines || p !in c'.lines[id].pids)
  {
    forall id | id in c.lines
      ensures id in DroppedIds(c.lines, bound, p, Keys(input)) <==>
              p in c.lines[id].pids && (id !in c'.lines || p !in c'.lines[id].pids)
    {
      MergedLineRight(c, bound, p, ver, input, c', id);
    }
  }

  // ----- Merging the same lines again

  /** A line that a merge never removes and that no source is named on. */
  predicate Solid(l: Line) {
    l.pids.Keys == {} && l.Retained()
  }

  /** The line equals an input line that none of the source's lines matches, it is
      not the first such line on the card, and it is not solid. */
  ghost predicate FragileTwin(c: Card, bound: nat, p: nat, keys: set<LineKey>, id: nat) {
    && id in c.lines && Unmatched(c.lines, p, keys, c.lines[id].Key()) && !Solid(c.lines[id])
    && exists x :: HasKey(c.lines, x, c.lines[id].Key()) && x != id && !Before(bound, c.lines[id], id, c.lines[x], x)
  }

  lemma MatchStays(c: Card, bound: nat, p: nat, ver: nat, input: seq<Line>, c': Card, id: nat)
    requires Merged(c, bound, p, ver, input, c') && Matches(c.lines, bound, p, Keys(input), id)
    ensures Matches(c'.lines, bound, p, Keys(input), id)
  {
    var keys, k := Keys(input), c.lines[id].Key();
    assert Fate(c.lines, bound, p, ver, keys, id) == Some(c'.lines[id]) by {
      assert Ours(c.lines, p, id, k);
    }
    forall x | Ours(c'.lines, p, x, k) && x != id ensures Before(bound, c'.lines[id], id, c'.lines[x], x) {
      assert HasKey(c.lines, id, k) && Ours(c.lines, p, id, k);
      if x in c.lines {
        assert Fate(c.lines, bound, p, ver, keys, x) == Some(c'.lines[x]);
        assert Ours(c.lines, p, x, k);
      } else {
        assert false;
      }
    }
  }

  lemma NewMatches(c: Card, bound: nat, p: nat, ver: nat, input: seq<Line>, c': Card, id: nat)
    requires Merged(c, bound, p, ver, input, c') && id in c'.lines && id !in c.lines
    ensures Matches(c'.lines, bound, p, Keys(input), id)
  {
    var k := c'.lines[id].Key();
    assert IsNew(c, p, ver, input, c', id);
    forall x | Ours(c'.lines, p, x, k) && x != id ensures false {
      if x in c.lines {
        assert Fate(c.lines, bound, p, ver, Keys(input), x) == Some(c'.lines[x]);
        assert HasKey(c.lines, x, k);
      }
    }
  }

  lemma TwinTagged(c: Card, bound: nat, p: nat, ver: nat, input: seq<Line>, c': Card, x: nat)
    requires Merged(c, bound, p, ver, input, c')
    requires x in c.lines && Unmatched(c.lines, p, Keys(input), c.lines[x].Key())
    ensures p !in c.lines[x].pids && x in c'.lines && c'.lines[x] == Tag(c.lines[x], p, ver)
  {
    assert !Ours(c.lines, p, x, c.lines[x].Key());
    assert Fate(c.lines, bound, p, ver, Keys(input), x) == Some(Tag(c.lines[x], p, ver));
  }

  /** The equals of an unmatched input line are all tagged, so their order stays. */
  lemma TwinMatches(c: Card, bound: nat, p: nat, ver: nat, input: seq<Line>, c': Card, id: nat)
    requires Merged(c, bound, p, ver, input, c')
    requires id in c.lines && Unmatched(c.lines, p, Keys(input), c.lines[id].Key())
    ensures Matches(c'.lines, bound, p, Keys(input), id) <==>
      forall x :: HasKey(c.lines, x, c.lines[id].Key()) && x != id ==> Before(bound, c.lines[id], id, c.lines[x], x)
  {
    var k := c.lines[id].Key();
    TwinTagged(c, bound, p, ver, input, c', id);
    forall x ensures Ours(c'.lines, p, x, k) <==> HasKey(c.lines, x, k)
             ensures HasKey(c.lines, x, k) ==>
               x in c'.lines &&
               (Before(bound, c'.lines[id], id, c'.lines[x], x) <==> Before(bound, c.lines[id], id, c.lines[x], x))
    {
      TwinStays(c, bound, p, ver, input, c', id, x);
    }
    hide Merged, Before, Unmatched;
  }

  lemma TwinStays(c: Card, bound: nat, p: nat, ver: nat, input: seq<Line>, c': Card, id: nat, x: nat)
    requires Merged(c, bound, p, ver, input, c')
    requires id in c.lines && Unmatched(c.lines, p, Keys(input), c.lines[id].Key())
    ensures id in c'.lines
    ensures Ours(c'.lines, p, x, c.lines[id].Key()) <==> HasKey(c.lines, x, c.lines[id].Key())
    ensures HasKey(c.lines, x, c.lines[id].Key()) ==>
      x in c'.lines &&
      (Before(bound, c'.lines[id], id, c'.lines[x], x) <==> Before(bound, c.lines[id], id, c.lines[x], x))
  {
    var k := c.lines[id].Key();
    TwinTagged(c, bound, p, ver, input, c', id);
    assert HasKey(c.lines, id, k);
    if HasKey(c.lines, x, k) {
      TwinTagged(c, bound, p, ver, input, c', x);
      hide Merged, Before, Unmatched;
      TagKeepsOrder(bound, c.lines[id], id, c.lines[x], x, p, ver);
    } else if x in c.lines {
      assert Fate(c.lines, bound, p, ver, Keys(input), x) == if x in c'.lines then Some(c'.lines[x]) else None;
    } else if x in c'.lines {
      assert IsNew(c, p, ver, input, c', x);
    }
  }

  lemma SecondMergeDrops(c: Card, bound: nat, p: nat, ver: nat, input: seq<Line>, c': Card, id: nat)
    requires Merged(c, bound, p, ver, input, c')
    ensures Dropped(c'.lines, bound, p, Keys(input), id) <==> FragileTwin(c, bound, p, Keys(input), id)
  {
    var keys := Keys(input);
    if id !in c.lines {
      if id in c'.lines { NewMatches(c, bound, p, ver, input, c', id); }
    } else if Unmatched(c.lines, p, keys, c.lines[id].Key()) {
      TwinDrops(c, bound, p, ver, input, c', id);
    } else {
      assert Fate(c.lines, bound, p, ver, keys, id) == if id in c'.lines then Some(c'.lines[id]) else None;
      if Matches(c.lines, bound, p, keys, id) { MatchStays(c, bound, p, ver, input, c', id); }
    }
  }

  lemma TwinDrops(c: Card, bound: nat, p: nat, ver: nat, input: seq<Line>, c': Card, id: nat)
    requires Merged(c, bound, p, ver, input, c')
    requires id in c.lines && Unmatched(c.lines, p, Keys(input), c.lines[id].Key())
    ensures Dropped(c'.lines, bound, p, Keys(input), id) <==> FragileTwin(c, bound, p, Keys(input), id)
  {
    TwinTagged(c, bound, p, ver, input, c', id);
    TwinMatches(c, bound, p, ver, input, c', id);
    hide Merged, Before, Matches, Unmatched;
    var l := c.lines[id];
    if q :| q in l.pids {
      assert q in Tag(l, p, ver).pids && q != p;
    } else {
      assert l.pids.Keys == {};
    }
  }

  /** Merging the same lines a second time reports 0 changes, and then leaves the
      card exactly as it was, if and only if the card had no fragile twins. */
  lemma MergeIsIdempotent(c: Card, bound: nat, p: nat, ver: nat, input: seq<Line>, c': Card, ver': nat, c'': Card)
    requires Merged(c, bound, p, ver, input, c') && Merged(c', bound, p, ver', input, c'')
    ensures Changes(c', bound, p, input, c'') == 0 <==> forall id :: !FragileTwin(c, bound, p, Keys(input), id)
    ensures Changes(c', bound, p, input, c'') == 0 ==> c''.lines == c'.lines && c''.sources == c'.sources
  {
    hide Merged, Dropped, FragileTwin, Unmatched, Missing;
    NothingMissing(c, bound, p, ver, input, c');
    SecondMergeAddsNothing(c', bound, p, ver', input, c'');
    SecondDropped(c, bound, p, ver, input, c');
    if DroppedIds(c'.lines, bound, p, Keys(input)) == {} {
      NothingDropped(c', bound, p, ver', input, c'');
    }
  }

  lemma SecondDropped(c: Card, bound: nat, p: nat, ver: nat, input: seq<Line>, c': Card)
    requires Merged(c, bound, p, ver, input, c')
    ensures DroppedIds(c'.lines, bound, p, Keys(input)) == {} <==> forall id :: !FragileTwin(c, bound, p, Keys(input), id)
  {
    var dropped := DroppedIds(c'.lines, bound, p, Keys(input));
    forall id: nat ensures id in dropped <==> FragileTwin(c, bound, p, Keys(input), id) {
      SecondMergeDrops(c, bound, p, ver, input, c', id);
    }
  }

  lemma NothingDropped(c: Card, bound: nat, p: nat, ver: nat, input: seq<Line>, c': Card)
    requires Merged(c, bound, p, ver, input, c') && DroppedIds(c.lines, bound, p, Keys(input)) == {}
    requires c'.lines.Keys - c.lines.Keys == {} && forall k :: !Unmatched(c.lines, p, Keys(input), k)
    ensures c'.lines == c.lines && c'.sources == c.sources
  {
    forall id | id in c.lines ensures id in c'.lines && c'.lines[id] == c.lines[id] {
      assert id !in DroppedIds(c.lines, bound, p, Keys(input));
      assert Fate(c.lines, bound, p, ver, Keys(input), id) == Some(c.lines[id]);
    }
    assert forall id :: id in c'.lines ==> id !in c.lines ==> id in c'.lines.Keys - c.lines.Keys;
  }

  lemma NothingMissing(c: Card, bound: nat, p: nat, ver: nat, input: seq<Line>, c': Card)
    requires Merged(c, bound, p, ver, input, c')
    ensures forall k :: !Missing(c'.lines, Keys(input), k) && !Unmatched(c'.lines, p, Keys(input), k)
  {
    forall k | k in Keys(input) ensures exists id :: Ours(c'.lines, p, id, k) {
      InputIsOurs(c, bound, p, ver, input, c', k);
    }
  }

  lemma SecondMergeAddsNothing(c: Card, bound: nat, p: nat, ver: nat, input: seq<Line>, c': Card)
    requires Merged(c, bound, p, ver, input, c') && forall k :: !Missing(c.lines, Keys(input), k)
    ensures c'.lines.Keys - c.lines.Keys == {}
  {
    assert forall id :: id in c'.lines ==> id in c.lines;
  }

  // ----- Merging for a source the card does not know yet

  /** The first merge of a source, under a number that may stand on lines already: no
      line counts as the source's own, so none is taken away. */
  ghost predicate MergedFirst(c: Card, p: nat, ver: nat, input: seq<Line>, c': Card) {
    var keys := Keys(input);
    && c'.sources == c.sources && c'.slots >= c.slots
    && (forall id :: id in c.lines ==>
          id in c'.lines && c'.lines[id] == if c.lines[id].Key() in keys then Tag(c.lines[id], p, ver) else c.lines[id])
    && (forall id :: id in c'.lines && id !in c.lines ==> IsNew(c, p, ver, input, c', id))
    && (forall a, b :: a in c'.lines && b in c'.lines && a !in c.lines && b !in c.lines && a != b ==>
          c'.lines[a].Key() != c'.lines[b].Key())
    && (forall k :: Missing(c.lines, keys, k) ==> exists id :: HasKey(c'.lines, id, k) && id !in c.lines)
  }

  /** A line that bears the number without being an input line, and that a merge of
      the source would take away. */
  predicate Stray(c: Card, p: nat, keys: set<LineKey>, id: nat) {
    && id in c.lines && p in c.lines[id].pids && c.lines[id].Key() !in keys
    && (HasOthers(c.lines[id], p) || !c.lines[id].Retained())
  }

  function WithoutPid(l: Line, p: nat): Line {
    l.(pids := l.pids - {p})
  }

  /** The card with the number taken off all lines. */
  function Cleared(c: Card, p: nat): Card {
    c.(lines := map id | id in c.lines :: WithoutPid(c.lines[id], p))
  }

  /** The merged card with the number taken off the lines the merge did not touch. */
  function Touched(c: Card, p: nat, keys: set<LineKey>, c': Card): Card {
    c'.(lines := map id | id in c'.lines ::
      if id in c.lines && c.lines[id].Key() !in keys then WithoutPid(c'.lines[id], p) else c'.lines[id])
  }

  lemma ClearedKeys(c: Card, p: nat, keys: set<LineKey>, k: LineKey)
    ensures forall x :: HasKey(Cleared(c, p).lines, x, k) <==> HasKey(c.lines, x, k)
    ensures forall x :: !Ours(Cleared(c, p).lines, p, x, k)
    ensures Unmatched(Cleared(c, p).lines, p, keys, k) <==> k in keys
    ensures Missing(Cleared(c, p).lines, keys, k) <==> Missing(c.lines, keys, k)
  {}

  /** But for strays, the first merge is a merge of the cleared card. */
  lemma FirstIsMerged(c: Card, bound: nat, p: nat, ver: nat, input: seq<Line>, c': Card)
    requires MergedFirst(c, p, ver, input, c')
    ensures Merged(Cleared(c, p), bound, p, ver, input, Touched(c, p, Keys(input), c'))
  {
    hide Fate, IsNew, Keys, Unmatched, Missing, HasKey;
    var keys, c0, r := Keys(input), Cleared(c, p), Touched(c, p, Keys(input), c');
    forall id | id in c0.lines ensures Fate(c0.lines, bound, p, ver, keys, id) == if id in r.lines then Some(r.lines[id]) else None {
      FateOnCleared(c, bound, p, ver, input, c', id);
    }
    NewOnCleared(c, p, ver, input, c');
    forall k | Missing(c0.lines, keys, k) ensures exists id :: HasKey(r.lines, id, k) && id !in c0.lines {
      MissingOnCleared(c, p, ver, input, c', k);
    }
  }

  lemma MissingOnCleared(c: Card, p: nat, ver: nat, input: seq<Line>, c': Card, k: LineKey)
    requires MergedFirst(c, p, ver, input, c') && Missing(Cleared(c, p).lines, Keys(input), k)
    ensures exists id :: HasKey(Touched(c, p, Keys(input), c').lines, id, k) && id !in c.lines
  {
    ClearedKeys(c, p, Keys(input), k);
    hide IsNew, Keys, Missing;
    var id :| HasKey(c'.lines, id, k) && id !in c.lines;
    assert HasKey(Touched(c, p, Keys(input), c').lines, id, k);
  }

  lemma FateOnCleared(c: Card, bound: nat, p: nat, ver: nat, input: seq<Line>, c': Card, id: nat)
    requires MergedFirst(c, p, ver, input, c') && id in c.lines
    ensures var r := Touched(c, p, Keys(input), c').lines;
      Fate(Cleared(c, p).lines, bound, p, ver, Keys(input), id) == if id in r then Some(r[id]) else None
  {
    hide Missing, IsNew, Unmatched, Keys, Matches;
    var lines := Cleared(c, p).lines;
    assert p !in lines[id].pids && !Dropped(lines, bound, p, Keys(input), id);
    ClearedKeys(c, p, Keys(input), lines[id].Key());
    TagAfterClearing(c.lines[id], p, ver);
  }

  lemma TagAfterClearing(l: Line, p: nat, ver: nat)
    ensures Tag(WithoutPid(l, p), p, ver) == Tag(l, p, ver)
  {}

  lemma NewOnCleared(c: Card, p: nat, ver: nat, input: seq<Line>, c': Card)
    requires MergedFirst(c, p, ver, input, c')
    ensures forall id :: id in c'.lines && id !in c.lines ==>
      IsNew(Cleared(c, p), p, ver, input, Touched(c, p, Keys(input), c'), id)
  {
    forall id | id in c'.lines && id !in c.lines
      ensures IsNew(Cleared(c, p), p, ver, input, Touched(c, p, Keys(input), c'), id)
    {
      assert IsNew(c, p, ver, input, c', id);
      ClearedKeys(c, p, Keys(input), c'.lines[id].Key());
    }
  }

  /** Without strays of any kind the two kinds of merge agree. */
  lemma FirstIsMergedExactly(c: Card, bound: nat, p: nat, ver: nat, input: seq<Line>, c': Card)
    requires forall id :: id in c.lines ==> p !in c.lines[id].pids
    ensures MergedFirst(c, p, ver, input, c') <==> Merged(c, bound, p, ver, input, c')
  {
    forall id | id in c.lines
      ensures Fate(c.lines, bound, p, ver, Keys(input), id)
              == Some(if c.lines[id].Key() in Keys(input) then Tag(c.lines[id], p, ver) else c.lines[id])
    {
      assert forall x :: !Ours(c.lines, p, x, c.lines[id].Key());
    }
    hide Fate, IsNew, Missing, Keys;
  }

  /** A new source takes nothing away: every line keeps the numbers of all others. */
  lemma FirstKeepsAll(c: Card, p: nat, ver: nat, input: seq<Line>, c': Card, id: nat)
    requires MergedFirst(c, p, ver, input, c') && id in c.lines
    ensures id in c'.lines && c'.lines[id].(pids := c.lines[id].pids) == c.lines[id]
    ensures WithoutPid(c'.lines[id], p) == WithoutPid(c.lines[id], p)
  {}

  /** Afterwards the source's lines are the input lines, and the strays. */
  lemma FirstHasItsLines(c: Card, p: nat, ver: nat, input: seq<Line>, c': Card)
    requires MergedFirst(c, p, ver, input, c')
    ensures forall k :: k in Keys(input) ==> exists id :: Ours(c'.lines, p, id, k)
    ensures forall id :: id in c'.lines && p in c'.lines[id].pids ==>
      c'.lines[id].Key() in Keys(input) || (id in c.lines && c'.lines[id] == c.lines[id])
  {
    forall k | k in Keys(input) ensures exists id :: Ours(c'.lines, p, id, k) {
      if Missing(c.lines, Keys(input), k) {
        var id :| HasKey(c'.lines, id, k) && id !in c.lines;
        assert IsNew(c, p, ver, input, c', id);
        assert Ours(c'.lines, p, id, k);
      } else {
        var id :| HasKey(c.lines, id, k);
        assert Ours(c'.lines, p, id, k);
      }
    }
    forall id | id in c'.lines && p in c'.lines[id].pids
      ensures c'.lines[id].Key() in Keys(input) || (id in c.lines && c'.lines[id] == c.lines[id])
    {
      if id !in c.lines { assert IsNew(c, p, ver, input, c', id); }
    }
  }

  /** What the second merge drops: fragile twins, and the strays. */
  lemma SecondDropsStrays(c: Card, bound: nat, p: nat, ver: nat, input: seq<Line>, c': Card, id: nat)
    requires MergedFirst(c, p, ver, input, c')
    ensures Dropped(c'.lines, bound, p, Keys(input), id) <==>
      FragileTwin(Cleared(c, p), bound, p, Keys(input), id) || Stray(c, p, Keys(input), id)
  {
    var keys, r := Keys(input), Touched(c, p, Keys(input), c');
    FirstIsMerged(c, bound, p, ver, input, c');
    SecondMergeDrops(Cleared(c, p), bound, p, ver, input, r, id);
    if id in c.lines && c.lines[id].Key() !in keys {
      assert p !in r.lines[id].pids;
    } else if id in c'.lines {
      TouchedSame(c, bound, p, ver, input, c', id);
    }
  }

  lemma TouchedSame(c: Card, bound: nat, p: nat, ver: nat, input: seq<Line>, c': Card, id: nat)
    requires MergedFirst(c, p, ver, input, c') && id in c'.lines
    requires id in c.lines ==> c.lines[id].Key() in Keys(input)
    ensures Dropped(Touched(c, p, Keys(input), c').lines, bound, p, Keys(input), id)
            <==> Dropped(c'.lines, bound, p, Keys(input), id)
  {
    hide Dropped, Touched, Keys, Ours, IsNew, Missing, WithoutPid;
    var keys, r, k := Keys(input), Touched(c, p, Keys(input), c').lines, c'.lines[id].Key();
    if id !in c.lines { NewIsInput(c, p, ver, input, c', id); }
    assert KeysStay(c, c');
    hide MergedFirst;
    forall x ensures Ours(r, p, x, k) <==> Ours(c'.lines, p, x, k)
             ensures HasKey(c'.lines, x, k) ==> x in r && r[x] == c'.lines[x]
    {
      TouchedOurs(c, p, keys, c', k, x);
    }
    assert HasKey(c'.lines, id, k);
    SameOurs(r, c'.lines, bound, p, keys, id);
  }

  predicate KeysStay(c: Card, c': Card) {
    forall y :: y in c.lines ==> y in c'.lines && c'.lines[y].Key() == c.lines[y].Key()
  }

  lemma TouchedOurs(c: Card, p: nat, keys: set<LineKey>, c': Card, k: LineKey, x: nat)
    requires KeysStay(c, c') && k in keys
    ensures var r := Touched(c, p, keys, c').lines;
      && (Ours(r, p, x, k) <==> Ours(c'.lines, p, x, k))
      && (HasKey(c'.lines, x, k) ==> x in r && r[x] == c'.lines[x])
  {}

  lemma SameOurs(a: Lines, b: Lines, bound: nat, p: nat, keys: set<LineKey>, id: nat)
    requires id in a && id in b && a[id] == b[id]
    requires forall x :: Ours(a, p, x, b[id].Key()) <==> Ours(b, p, x, b[id].Key())
    requires forall x :: HasKey(b, x, b[id].Key()) ==> x in a && a[x] == b[x]
    ensures Dropped(a, bound, p, keys, id) <==> Dropped(b, bound, p, keys, id)
  {
    hide Before;
  }

  lemma NewIsInput(c: Card, p: nat, ver: nat, input: seq<Line>, c': Card, id: nat)
    requires MergedFirst(c, p, ver, input, c') && id in c'.lines && id !in c.lines
    ensures c'.lines[id].Key() in Keys(input)
  {
    assert IsNew(c, p, ver, input, c', id);
  }

  /** Merging the same lines a second time reports 0 changes, and then leaves the
      card exactly as it was, if and only if the card, when the source was new to it,
      had no fragile twins and no strays. */
  lemma FirstMergeIsIdempotent(c: Card, bound: nat, p: nat, ver: nat, input: seq<Line>, c': Card, ver': nat, c'': Card)
    requires MergedFirst(c, p, ver, input, c') && Merged(c', bound, p, ver', input, c'')
    ensures Changes(c', bound, p, input, c'') == 0 <==>
      forall id :: !FragileTwin(Cleared(c, p), bound, p, Keys(input), id) && !Stray(c, p, Keys(input), id)
    ensures Changes(c', bound, p, input, c'') == 0 ==> c''.lines == c'.lines && c''.sources == c'.sources
  {
    hide MergedFirst, Merged, DroppedIds, FragileTwin, Stray, Unmatched, Missing, Cleared, Ours, Keys;
    FirstHasItsLines(c, p, ver, input, c');
    SecondDroppedStrays(c, bound, p, ver, input, c');
    NothingUnmatched(c'.lines, p, Keys(input));
    SecondMergeAddsNothing(c', bound, p, ver', input, c'');
    if DroppedIds(c'.lines, bound, p, Keys(input)) == {} {
      NothingDropped(c', bound, p, ver', input, c'');
    }
  }

  lemma SecondDroppedStrays(c: Card, bound: nat, p: nat, ver: nat, input: seq<Line>, c': Card)
    requires MergedFirst(c, p, ver, input, c')
    ensures DroppedIds(c'.lines, bound, p, Keys(input)) == {} <==>
      forall id :: !FragileTwin(Cleared(c, p), bound, p, Keys(input), id) && !Stray(c, p, Keys(input), id)
  {
    hide MergedFirst, FragileTwin, Stray, Cleared, Keys;
    var dropped := DroppedIds(c'.lines, bound, p, Keys(input));
    forall id: nat
      ensures id in dropped <==>
        FragileTwin(Cleared(c, p), bound, p, Keys(input), id) || Stray(c, p, Keys(input), id)
    {
      SecondDropsStrays(c, bound, p, ver, input, c', id);
      DroppedIsLine(c'.lines, bound, p, Keys(input), id);
    }
  }

  lemma DroppedIsLine(lines: Lines, bound: nat, p: nat, keys: set<LineKey>, id: nat)
    ensures id in DroppedIds(lines, bound, p, keys) <==> Dropped(lines, bound, p, keys, id)
  {
    hide Matches;
  }

  lemma NothingUnmatched(lines: Lines, p: nat, keys: set<LineKey>)
    requires forall k :: k in keys ==> exists id :: Ours(lines, p, id, k)
    ensures forall k :: !Unmatched(lines, p, keys, k) && !Missing(lines, keys, k)
  {}

  // ----- Cards that are not stable

  /** A name without anything else. */
  function Name(value: string, pids: map<nat, nat>): Line {
    Line("fn", value, pids, false, false, 0)
  }

  lemma KeysOfOne(l: Line)
    ensures Keys([l]) == {l.Key()}
  {
    assert [l][0] == l && l in [l];
  }

  /** Two equal names, neither from any source: a source that gives the name gets
      both, and the next merge takes the second one away. */
  lemma TwinIsDropped() returns (c: Card, c': Card, c'': Card)
    ensures var bob := Name("Bob", map[]);
      && WellFormed(c) && FragileTwin(c, 991, 1, Keys([bob]), 2)
      && Merged(c, 991, 1, 1, [bob], c') && Merged(c', 991, 1, 2, [bob], c'')
      && 2 in c'.lines && 2 !in c''.lines
  {
    var bob, ours := Name("Bob", map[]), Name("Bob", map[1 := 1]);
    c := Card(map[1 := bob, 2 := bob], map["a" := 1], 3);
    c' := c.(lines := map[1 := ours, 2 := ours]);
    c'' := c.(lines := map[1 := ours]);
    TwinOnce(c, c', bob, ours);
    TwinTwice(c', c'', bob, ours);
  }

  lemma TwinOnce(c: Card, c': Card, bob: Line, ours: Line)
    requires bob.pids == map[] && !bob.Retained() && ours == Tag(bob, 1, 1)
    requires c.lines == map[1 := bob, 2 := bob] && c' == c.(lines := map[1 := ours, 2 := ours])
    ensures FragileTwin(c, 991, 1, Keys([bob]), 2) && Merged(c, 991, 1, 1, [bob], c')
  {
    hide Score;
    KeysOfOne(bob);
    assert HasKey(c.lines, 1, bob.Key()) && HasKey(c.lines, 2, bob.Key());
    assert Unmatched(c.lines, 1, Keys([bob]), bob.Key());
    assert forall k :: Missing(c.lines, Keys([bob]), k) ==> k == bob.Key();
  }

  lemma TwinTwice(c: Card, c': Card, bob: Line, ours: Line)
    requires bob.pids == map[] && !bob.Retained() && ours == Tag(bob, 1, 1)
    requires c.lines == map[1 := ours, 2 := ours] && c' == c.(lines := map[1 := ours])
    ensures Merged(c, 991, 1, 2, [bob], c')
  {
    hide Score;
    KeysOfOne(bob);
    var k, keys := bob.Key(), Keys([bob]);
    assert ours.pids == map[1 := 1] && ours.Key() == k;
    assert Ours(c.lines, 1, 1, k) && Ours(c.lines, 1, 2, k);
    assert Matches(c.lines, 991, 1, keys, 1) && !Matches(c.lines, 991, 1, keys, 2);
    assert !HasOthers(ours, 1);
    assert forall l :: Missing(c.lines, keys, l) ==> l == k;
    assert HasKey(c.lines, 1, k);
  }

  /** A name that bears the number which a new source is given: the first merge
      leaves it alone, and the second one takes it away, although nothing is twin. */
  lemma StrayIsDropped() returns (c: Card, c': Card, c'': Card)
    ensures var alice := Name("Alice", map[]);
      && WellFormed(c) && (forall id :: !FragileTwin(Cleared(c, 1), 991, 1, Keys([alice]), id))
      && MergedFirst(c, 1, 1, [alice], c') && Merged(c', 991, 1, 2, [alice], c'')
      && 1 in c.lines && 1 in c'.lines && 1 !in c''.lines
  {
    var alice, ours, bob := Name("Alice", map[]), Name("Alice", map[1 := 1]), Name("Bob", map[1 := 1]);
    c := Card(map[1 := bob], map["a" := 1], 2);
    c' := Card(map[1 := bob, 3 := ours], map["a" := 1], 3);
    c'' := c'.(lines := map[3 := ours]);
    StrayOnce(c, c', alice, ours, bob);
    KeysOfOne(alice);
    StrayTwice(c', c'', alice, ours, bob);
  }

  lemma StrayOnce(c: Card, c': Card, alice: Line, ours: Line, bob: Line)
    requires alice.pids == map[] && ours == Tag(alice, 1, 1) && bob.Key() != alice.Key()
    requires c.lines == map[1 := bob] && c.slots == 2
    requires c' == Card(map[1 := bob, 3 := ours], c.sources, 3)
    ensures MergedFirst(c, 1, 1, [alice], c')
  {
    KeysOfOne(alice);
    assert alice in [alice] && ours.Key() == alice.Key() && ours == alice.(pids := map[1 := 1]);
    assert HasKey(c'.lines, 3, alice.Key());
    assert forall k :: Missing(c.lines, Keys([alice]), k) ==> k == alice.Key();
    hide Keys;
    assert IsNew(c, 1, 1, [alice], c', 3);
  }

  lemma StrayTwice(c: Card, c': Card, alice: Line, ours: Line, bob: Line)
    requires alice.pids == map[] && ours == Tag(alice, 1, 1) && bob.Key() != alice.Key()
    requires bob.pids == map[1 := 1] && !bob.Retained()
    requires c.lines == map[1 := bob, 3 := ours] && c' == c.(lines := map[3 := ours])
    ensures Merged(c, 991, 1, 2, [alice], c')
  {
    hide Score;
    KeysOfOne(alice);
    var k, keys := alice.Key(), Keys([alice]);
    assert ours.pids == map[1 := 1] && ours.Key() == k;
    assert Ours(c.lines, 1, 3, k) && HasKey(c.lines, 3, k);
    assert Matches(c.lines, 991, 1, keys, 3) && !Matches(c.lines, 991, 1, keys, 1);
    assert !HasOthers(bob, 1) && !Unmatched(c.lines, 1, keys, k) && !Unmatched(c.lines, 1, keys, bob.Key());
    assert forall l :: Missing(c.lines, keys, l) ==> l == k;
  }
}
