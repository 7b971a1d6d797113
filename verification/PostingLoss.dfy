/** Five appends, each saved at once, after which one list cannot be found.

    The first three stay in one file.  The fourth makes it too large, and its
    largest group moves to a file with a longer name, taking the first list along.
    There, the fifth append makes the group of the first list's siblings larger
    than the list itself.  That group is chosen first and takes the list away, and
    then the list is chosen too, although it is no longer there: its new file stays
    empty, and hides the one that holds it. */
module PostingLoss {
  import opened Wrappers
  import opened PostingStore
  import opened PostingContainers
  import opened PostingRuns

  /** Some n ids. */
  function Ids(n: nat): (ids: set<nat>)
    ensures |ids| == n && forall i :: i in ids ==> i < n
  {
    if n == 0 then {} else Ids(n - 1) + {n - 1}
  }

  /** The first hash gets a list of half the limit.  The second and the fifth share
      three characters with it, the others two. */
  function Key(n: nat): Sig {
    if n == 1 then "abx100000000000000000000"
    else if n == 2 then "abx200000000000000000000"
    else if n == 3 then "aby300000000000000000000"
    else if n == 4 then "abz400000000000000000000"
    else "abx500000000000000000000"
  }

  function Size(n: nat): nat {
    if n == 1 then 6144 else if n == 2 then 100 else if n == 3 then 6000 else if n == 4 then 6100 else 6143
  }

  // The names that files and groups get.

  function A(): Sig { "a" }
  function AB(): Sig { "ab" }
  function X(): Sig { "abx" }
  function Y(): Sig { "aby" }
  function Z(): Sig { "abz" }

  lemma NamesDiffer()
    ensures |A()| == 1 && |AB()| == 2 && |X()| == |Y()| == |Z()| == 3
    ensures X() != Y() && X() != Z() && Y() != Z()
  {
    assert X()[2] != Y()[2] && X()[2] != Z()[2] && Y()[2] != Z()[2];
  }

  lemma KeyFacts(n: nat)
    requires 1 <= n <= 5
    ensures |Key(n)| == MAX_HASH_LEN && IsHash(Key(n)) && Key(n)[..1] == A() && Key(n)[..2] == AB()
    ensures Key(n)[..3] == if n == 3 then Y() else if n == 4 then Z() else X()
    ensures A() <= Key(n) && AB() <= Key(n)
  {}

  lemma KeysDiffer(n: nat)
    requires 1 <= n <= 5
    ensures forall m :: 1 <= m <= 5 && m != n ==> Key(m) != Key(n)
  {
    assert forall m :: 1 <= m <= 5 && m != n ==> Key(m)[3] != Key(n)[3];
  }

  lemma SizesAre()
    ensures Size(1) == 6144 && Size(2) == 100 && Size(3) == 6000 && Size(4) == 6100 && Size(5) == 6143
    ensures SizeSoFar(4) == 18344 && SizeSoFar(5) == 24487
    ensures MAX_ITEMS == 12288 && MAX_HASH_LEN == 24
  {}

  function Appended(n: nat): Op {
    Append(Key(n), Ids(Size(n)))
  }

  /** All lists after n appends. */
  function Lists(n: nat): Words {
    if n == 0 then map[] else Lists(n - 1)[Key(n) := Ids(Size(n))]
  }

  /** The store after n appends: one file, which moves when it is split. */
  function Stored(n: nat): Files {
    if n == 0 then map[] else if n < 4 then map[A() := Lists(n)] else map[AB() := Lists(4)]
  }

  ghost predicate ListsOk(lists: Words) {
    forall w :: w in lists ==> IsHash(w) && A() <= w && AB() <= w && lists[w] != {}
  }

  lemma {:induction false} ListsFacts(n: nat)
    requires n <= 5
    ensures ListsOk(Lists(n)) && forall m :: n < m <= 5 ==> Key(m) !in Lists(n)
  {
    hide A, AB, X, Y, Z, Key, Ids, IsHash;
    if n > 0 {
      ListsFacts(n - 1);
      KeyFacts(n);
      KeysDiffer(n);
    }
  }

  /** The container of file f holding the lists of n appends. */
  function Container(f: Sig, n: nat): Words {
    map[f := {}] + Lists(n)
  }

  lemma ContainerNext(f: Sig, n: nat)
    requires 1 <= n <= 5 && |f| <= 2
    ensures Key(n) !in Container(f, n - 1) && IsHash(Key(n)) && |Ids(Size(n))| == Size(n)
    ensures Container(f, n) == Container(f, n - 1)[Key(n) := Ids(Size(n))]
    ensures f in Container(f, n) && Container(f, n)[f] == {} && Key(n) in Container(f, n)
  {
    assert Lists(n) == Lists(n - 1)[Key(n) := Ids(Size(n))] by { hide Key, Ids, Size; }
    hide A, AB, X, Y, Z, Key, Ids, Size, Lists;
    ListsFacts(n - 1);
    KeyFacts(n);
  }

  lemma ContainerLists(f: Sig, n: nat)
    requires n <= 5 && |f| <= 2
    ensures NonEmpty(Container(f, n)) == Lists(n)
  {
    hide A, AB, X, Y, Z, Key, Ids, Lists;
    ListsFacts(n);
  }

  function SizeSoFar(n: nat): nat {
    if n == 0 then 0 else SizeSoFar(n - 1) + Size(n)
  }

  lemma {:induction false} Sizes(f: Sig, n: nat)
    requires n <= 5 && |f| <= 2
    ensures Total(Container(f, n)) == SizeSoFar(n)
  {
    hide A, AB, X, Y, Z, Key, Ids, Size, Total;
    if n == 0 {
      TotalOfOne(f, {});
      assert Container(f, 0) == map[f := {}];
    } else {
      Sizes(f, n - 1);
      ContainerNext(f, n);
      OneMoreWord(f, Container(f, n - 1), Key(n), Ids(Size(n)));
    }
  }

  function GroupAt(f: Sig, n: nat): Sig {
    GroupOf(f, Key(n), Ids(Size(n)))
  }

  /** The sizes of the container's groups, one list after another. */
  lemma GroupSize(f: Sig, n: nat, g: Sig)
    requires 1 <= n <= 5 && |f| <= 2
    ensures Groups(f, Container(f, n)) == Groups(f, Container(f, n - 1)) + {GroupAt(f, n)}
    ensures Sum(f, Container(f, n), g) ==
            Sum(f, Container(f, n - 1), g) + if g == GroupAt(f, n) then Size(n) else 0
  {
    hide A, AB, X, Y, Z, Key, Ids, Size, Groups, Sum, Container;
    ContainerNext(f, n);
    OneMoreWord(f, Container(f, n - 1), Key(n), Ids(Size(n)));
    OneMoreInGroup(f, Container(f, n - 1), Key(n), Ids(Size(n)), g);
  }

  lemma GroupIs(f: Sig, n: nat)
    requires 1 <= n <= 5 && |f| <= 2
    ensures GroupAt(f, n) == if n == 1 then Key(1) else Key(n)[..|f| + 1]
  {
    hide A, AB, X, Y, Z, Key, Ids;
    KeyFacts(n);
  }

  lemma NoGroupsYet(f: Sig, g: Sig)
    requires |f| <= 2
    ensures Groups(f, Container(f, 0)) == {f} && Sum(f, Container(f, 0), g) == 0
  {
    var none := Container(f, 0);
    assert none == map[f := {}];
    TotalOfOne(f, {});
    if g == f {
      assert InGroups(f, none, {g}) == none;
    } else {
      NoGroups(f, none);
      assert InGroups(f, none, {g}) == map[] == InGroups(f, none, {});
    }
    assert f in none && none[f] == {} && GroupOf(f, f, {}) == f;
    assert forall h :: h in Groups(f, none) <==> h == f;
  }

  lemma StoredIs(n: nat)
    requires 1 <= n <= 5
    ensures Stored(n - 1) == if n == 1 then map[] else if n < 5 then map[A() := Lists(n - 1)] else map[AB() := Lists(4)]
    ensures Lists(0) == map[]
  {
    hide A, AB, Key, Ids, Size;
  }

  lemma LoadedOne(f: Sig, lists: Words)
    ensures Loaded(map[f := lists], f) == map[f := {}] + lists && Loaded(map[], f) == map[f := {}] + map[]
  {}

  lemma ContainerIs(f: Sig, n: nat)
    ensures Container(f, n) == map[f := {}] + Lists(n)
  {}

  lemma AppendedTo(files: Files, f: Sig, w: Sig, ids: set<nat>, before: Words)
    requires Loaded(files, f) == before && w !in before
    requires files.Keys <= {f} && (f in files || |f| == 1) && f != [] && f <= w
    ensures FileOf(files, Append(w, ids)) == f && ListsOf(files, Append(w, ids)) == before[w := ids]
  {
    hide Loaded;
    RouteIs(files.Keys, w, f);
    assert Get(before, w) + ids == ids;
  }

  /** Where each append goes, and what it is saved with. */
  lemma Target(n: nat)
    requires 1 <= n <= 5
    ensures var f := if n < 5 then A() else AB();
      FileOf(Stored(n - 1), Appended(n)) == f && ListsOf(Stored(n - 1), Appended(n)) == Container(f, n)
  {
    assert Appended(n) == Append(Key(n), Ids(Size(n))) by { hide Key, Ids, Size; }
    hide *;
    var f := if n < 5 then A() else AB();
    StoredIs(n);
    LoadedOne(f, Lists(n - 1));
    ContainerIs(f, n - 1);
    NamesDiffer();
    KeyFacts(n);
    ContainerNext(f, n);
    AppendedTo(Stored(n - 1), f, Key(n), Ids(Size(n)), Container(f, n - 1));
  }

  lemma FirstThree(n: nat)
    requires 1 <= n <= 3
    ensures Step(Stored(n - 1), Appended(n), Stored(n))
  {
    var files, words := Stored(n - 1), Container(A(), n);
    assert SizeSoFar(n) <= MAX_ITEMS;
    NamesDiffer();
    hide A, AB, X, Y, Z, Key, Ids, Size, Lists, FileOf, ListsOf, SavedFiles, Container, SizeSoFar;
    Target(n);
    Sizes(A(), n);
    Unsplit(A(), words);
    ContainerNext(A(), n);
    SavedUnsplit(files, A(), words);
    StoredNext(n);
  }

  lemma Unsplit(f: Sig, words: Words)
    requires Total(words) <= MAX_ITEMS
    ensures MaySplit(f, words, [])
  {
    AllInGroups(f, words);
    NothingChosen(f, words);
    assert Groups(f, words) - Elements<Sig>([]) == Groups(f, words);
  }

  lemma StoredNext(n: nat)
    requires 1 <= n <= 3
    ensures Written(Stored(n - 1), A(), Container(A(), n)) == Stored(n) && Appended(n).ids != {}
  {
    NamesDiffer();
    hide A, AB, X, Y, Z, Key, Ids, NonEmpty;
    ContainerNext(A(), n);
    ContainerLists(A(), n);
    assert Key(n) in Lists(n) && Lists(n) != map[];
    assert Size(n) > 0;
  }

  /** The fourth append splits the file: all lists go to the file of their first two
      characters, the large one among them. */
  lemma Fourth()
    ensures Step(Stored(3), Appended(4), Stored(4))
  {
    var words := Container(A(), 4);
    hide *;
    SizesAre();
    NamesDiffer();
    FourthGroups();
    Target(4);
    Sizes(A(), 4);
    ContainerNext(A(), 4);
    SplitOnce(A(), words, AB());
    MoreThanOne(A(), 4);
    AppendedIs(4);
    StepIs(Stored(3), Appended(4), A(), words, [AB()]);
    FourthSaved();
  }

  lemma StepIs(files: Files, op: Op, f: Sig, words: Words, chosen: seq<Sig>)
    requires FileOf(files, op) == f && ListsOf(files, op) == words && op.ids != {}
    requires |words| > 1 && |f| < MAX_HASH_LEN && IsSelection(f, words, chosen)
    ensures Step(files, op, SavedFiles(files, f, words, chosen))
  {
    hide IsSelection, SavedFiles, FileOf, ListsOf;
    assert MaySplit(f, words, chosen);
  }

  lemma MoreThanOne(f: Sig, n: nat)
    requires 1 <= n <= 5 && |f| <= 2
    ensures |Container(f, n)| > 1
  {
    ContainerNext(f, n);
    KeyFacts(n);
    hide *;
    SubsetSize({f, Key(n)}, Container(f, n).Keys);
  }

  lemma AppendedIs(n: nat)
    requires 1 <= n <= 5
    ensures Appended(n).ids != {} && Appended(n).w == Key(n)
  {
    assert Size(n) > 0;
  }

  /** One group is split off if it is the largest and what is left fits. */
  lemma SplitOnce(f: Sig, words: Words, g: Sig)
    requires g in Groups(f, words) && forall h :: h in Groups(f, words) ==> Sum(f, words, h) <= Sum(f, words, g)
    requires MAX_ITEMS < Total(words) <= MAX_ITEMS + Sum(f, words, g)
    ensures IsSelection(f, words, [g])
  {
    hide Groups, InGroups, Sum, Total, Picks, IsPartialSelection;
    AllInGroups(f, words);
    GroupLeaves(f, words, Groups(f, words), g);
    PickIs(f, words, Groups(f, words), g);
    NothingChosen(f, words);
    assert Groups(f, words) - Elements<Sig>([]) == Groups(f, words);
    SelectionGrows(f, words, [], g);
    assert [] + [g] == [g] && Groups(f, words) - {g} == Groups(f, words) - Elements([g]);
  }

  lemma FourGroups(f: Sig, g: Sig)
    requires |f| <= 2
    ensures Groups(f, Container(f, 4)) == {f, GroupAt(f, 1), GroupAt(f, 2), GroupAt(f, 3), GroupAt(f, 4)}
    ensures Sum(f, Container(f, 4), g) ==
      (if g == GroupAt(f, 1) then Size(1) else 0) + (if g == GroupAt(f, 2) then Size(2) else 0)
      + (if g == GroupAt(f, 3) then Size(3) else 0) + (if g == GroupAt(f, 4) then Size(4) else 0)
  {
    hide A, AB, X, Y, Z, Key, Ids, Size, Groups, Sum, Container, GroupAt;
    NoGroupsYet(f, g);
    GroupSize(f, 1, g);
    GroupSize(f, 2, g);
    GroupSize(f, 3, g);
    GroupSize(f, 4, g);
  }

  lemma FourthGroupNames(n: nat)
    requires 1 <= n <= 4
    ensures GroupAt(A(), n) == if n == 1 then Key(1) else AB()
  {
    hide *;
    SizesAre();
    NamesDiffer();
    GroupIs(A(), n);
    KeyFacts(n);
  }

  lemma FourthGroup(g: Sig)
    ensures Groups(A(), Container(A(), 4)) == {A(), AB(), Key(1)}
    ensures Sum(A(), Container(A(), 4), g) == (if g == Key(1) then 6144 else 0) + if g == AB() then 12200 else 0
  {
    hide *;
    SizesAre();
    NamesDiffer();
    FourGroups(A(), g);
    FourthGroupNames(1);
    FourthGroupNames(2);
    FourthGroupNames(3);
    FourthGroupNames(4);
  }

  lemma FourthGroups()
    ensures AB() in Groups(A(), Container(A(), 4)) && Sum(A(), Container(A(), 4), AB()) == 12200
    ensures forall g :: g in Groups(A(), Container(A(), 4)) ==> Sum(A(), Container(A(), 4), g) <= 12200
  {
    var words := Container(A(), 4);
    KeyFacts(1);
    hide *;
    SizesAre();
    NamesDiffer();
    FourthGroup(AB());
    forall g | g in Groups(A(), words) ensures Sum(A(), words, g) <= 12200 { FourthGroup(g); }
  }

  lemma FourthSaved()
    ensures SavedFiles(Stored(3), A(), Container(A(), 4), [AB()]) == Stored(4)
  {
    hide A, AB, X, Y, Z, Key, Ids;
    NamesDiffer();
    hide Lists;
    var words := Container(A(), 4);
    ListsFacts(4);
    forall w ensures First([AB()], w) == if AB() <= w then Some(AB()) else None {}
    assert OwnedBy(words, [AB()], Some(AB())) == Lists(4);
    assert OwnedBy(words, [AB()], None) == map[];
    assert Stored(3).Keys == {A()};
  }

  /** In the new file the large list stands between its siblings and the others, so
      the fifth append loses it whichever way ties are broken. */
  lemma Fifth(files: Files)
    requires StoreInv(Stored(4)) && Step(Stored(4), Appended(5), files)
    ensures Lookup(files, Key(1)) == {}
  {
    hide *;
    SizesAre();
    NamesDiffer();
    var words := Container(AB(), 5);
    Target(5);
    KeyFacts(5);
    AppendedIs(5);
    ApplyFits(Stored(4), Appended(5));
    FifthIsCertain();
    MoreThanOne(AB(), 5);
    var chosen := FifthChosen(files);
    NestingIsCertain(Stored(4), AB(), words, chosen, Key(1));
  }

  lemma FifthChosen(files: Files) returns (chosen: seq<Sig>)
    requires Step(Stored(4), Appended(5), files)
    ensures IsSelection(AB(), Container(AB(), 5), chosen)
    ensures files == SavedFiles(Stored(4), AB(), Container(AB(), 5), chosen)
  {
    NamesDiffer();
    Target(5);
    AppendedIs(5);
    MoreThanOne(AB(), 5);
    hide A, AB, X, Y, Z, Key, Ids, Size, Lists, FileOf, ListsOf, SavedFiles, Container, Stored, IsSelection, Appended;
    chosen :| MaySplit(AB(), Container(AB(), 5), chosen)
              && files == SavedFiles(Stored(4), AB(), Container(AB(), 5), chosen);
  }

  function FifthSum(g: Sig): nat {
    if g == Key(1) then 6144 else if g == X() then 6243 else if g == Y() then 6000 else if g == Z() then 6100 else 0
  }

  lemma FifthGroupNames(n: nat)
    requires 1 <= n <= 5
    ensures GroupAt(AB(), n) == if n == 1 then Key(1) else if n == 3 then Y() else if n == 4 then Z() else X()
  {
    hide *;
    SizesAre();
    NamesDiffer();
    GroupIs(AB(), n);
    KeyFacts(n);
  }

  lemma FifthGroups(g: Sig)
    ensures Groups(AB(), Container(AB(), 5)) ==
            {AB(), GroupAt(AB(), 1), GroupAt(AB(), 2), GroupAt(AB(), 3), GroupAt(AB(), 4), GroupAt(AB(), 5)}
    ensures Sum(AB(), Container(AB(), 5), g) ==
      (if g == GroupAt(AB(), 1) then Size(1) else 0) + (if g == GroupAt(AB(), 2) then Size(2) else 0)
      + (if g == GroupAt(AB(), 3) then Size(3) else 0) + (if g == GroupAt(AB(), 4) then Size(4) else 0)
      + (if g == GroupAt(AB(), 5) then Size(5) else 0)
  {
    hide *;
    NamesDiffer();
    FourGroups(AB(), g);
    GroupSize(AB(), 5, g);
  }

  lemma FifthGroup(g: Sig)
    ensures Groups(AB(), Container(AB(), 5)) == {AB(), Key(1), X(), Y(), Z()}
    ensures Sum(AB(), Container(AB(), 5), g) == FifthSum(g)
  {
    hide *;
    SizesAre();
    NamesDiffer();
    FifthGroups(g);
    FifthGroupNames(1);
    FifthGroupNames(2);
    FifthGroupNames(3);
    FifthGroupNames(4);
    FifthGroupNames(5);
    KeyFacts(1);
    FifthSumIs(g);
  }

  lemma FifthSumIs(g: Sig)
    ensures FifthSum(g) ==
      if g == Key(1) then 6144 else if g == X() then 6243 else if g == Y() then 6000 else if g == Z() then 6100 else 0
  {
    hide A, AB, X, Y, Z, Key;
  }

  lemma FifthIsCertain()
    ensures var words := Container(AB(), 5);
      && Key(1) in words && IsHash(Key(1)) && |words[Key(1)]| == 6144 && Key(1)[..3] == X()
      && X() in Groups(AB(), words) && Sum(AB(), words, X()) == 6243
      && var smaller := set h | h in Groups(AB(), words) && Sum(AB(), words, h) < 6144;
         Total(InGroups(AB(), words, smaller + {Key(1)})) > MAX_ITEMS
  {
    hide *;
    var words := Container(AB(), 5);
    BigList();
    KeyFacts(1);
    SizesAre();
    NamesDiffer();
    FifthGroup(X());
    FifthSums();
    var all := Groups(AB(), words);
    var smaller := set h | h in all && Sum(AB(), words, h) < 6144;
    forall h | h in all ensures h in smaller + {Key(1)} <==> h != X() { FifthGroup(h); }
    assert smaller + {Key(1)} == all - {X()};
    AllInGroups(AB(), words);
    GroupLeaves(AB(), words, all, X());
    Sizes(AB(), 5);
  }

  /** All groups but that of the siblings are smaller than the large list. */
  lemma FifthSums()
    ensures FifthSum(X()) == 6243 && FifthSum(Key(1)) == 6144
    ensures forall g :: g != X() && g != Key(1) ==> FifthSum(g) < 6144
  {
    KeyFacts(1);
  }

  lemma BigList()
    ensures Key(1) in Container(AB(), 5) && |Container(AB(), 5)[Key(1)]| == 6144
  {
    hide A, AB, X, Y, Z, Key, Ids;
    NamesDiffer();
    KeysDiffer(1);
    assert Size(1) == 6144;
    assert Lists(1) == Lists(0)[Key(1) := Ids(6144)];
    assert Lists(2)[Key(1)] == Lists(3)[Key(1)] == Lists(4)[Key(1)] == Lists(5)[Key(1)] == Ids(6144);
  }

  function Ops(n: nat): (ops: seq<Op>)
    ensures |ops| == n
  {
    if n == 0 then [] else Ops(n - 1) + [Appended(n)]
  }

  lemma PlainNext(ops: seq<Op>, w: Sig, v: Sig, ids: set<nat>)
    ensures Plain(ops + [Append(w, ids)], v) == if v == w then Plain(ops, v) + ids else Plain(ops, v)
    ensures Plain([], v) == {}
  {
    assert (ops + [Append(w, ids)])[..|ops|] == ops;
  }

  lemma {:induction false} PlainList(n: nat)
    requires 1 <= n <= 5
    ensures Plain(Ops(n), Key(1)) == Ids(Size(1))
  {
    hide A, AB, X, Y, Z, Key, Ids, Size, Plain;
    KeysDiffer(1);
    PlainNext(Ops(n - 1), Key(n), Key(1), Ids(Size(n)));
    if n > 1 {
      PlainList(n - 1);
    } else {
      assert Ops(0) == [];
    }
  }

  lemma StoredOk()
    ensures StoreInv(Stored(4))
  {
    hide A, AB, X, Y, Z, Key, Ids;
    NamesDiffer();
    hide Lists;
    ListsFacts(4);
    forall w | w in Lists(4) ensures Route(Stored(4).Keys, w) == AB() {
      RouteIs(Stored(4).Keys, w, AB());
    }
  }

  function States(n: nat): seq<Files> {
    if n == 0 then [Stored(0)] else States(n - 1) + [Stored(n)]
  }

  lemma RunGrows(states: seq<Files>, ops: seq<Op>, op: Op, files: Files)
    requires IsRun(states, ops) && IsHash(op.w) && Step(states[|ops|], op, files)
    ensures IsRun(states + [files], ops + [op])
  {
    hide Step;
  }

  lemma {:induction false} RunTo(n: nat)
    requires n <= 4
    ensures IsRun(States(n), Ops(n)) && |States(n)| == n + 1 && States(n)[n] == Stored(n)
  {
    hide A, AB, X, Y, Z, Key, Ids, Size, Step, Appended, Lists;
    if n > 0 {
      RunTo(n - 1);
      KeyFacts(n);
      AppendedIs(n);
      if n < 4 { FirstThree(n); } else { Fourth(); }
      RunGrows(States(n - 1), Ops(n - 1), Appended(n), Stored(n));
    }
  }

  /** The list is complete in the plain map, and cannot be found in the store. */
  lemma RunMayLose() returns (states: seq<Files>, ops: seq<Op>)
    ensures IsRun(states, ops) && |Plain(ops, Key(1))| == 6144 && Lookup(states[|ops|], Key(1)) == {}
  {
    hide *;
    SizesAre();
    NamesDiffer();
    StoredOk();
    NothingChosen(AB(), Container(AB(), 5));
    var chosen := SelectionEnds(AB(), Container(AB(), 5), []);
    var last := SavedFiles(Stored(4), AB(), Container(AB(), 5), chosen);
    Target(5);
    AppendedIs(5);
    KeyFacts(5);
    MoreThanOne(AB(), 5);
    StepIs(Stored(4), Appended(5), AB(), Container(AB(), 5), chosen);
    Fifth(last);
    RunTo(4);
    RunGrows(States(4), Ops(4), Appended(5), last);
    PlainList(5);
    OpsNext(5);
    states, ops := States(4) + [last], Ops(5);
    assert |Ops(5)| == 5 && |States(4)| == 5 && states[5] == last;
  }

  lemma OpsNext(n: nat)
    requires n > 0
    ensures Ops(n) == Ops(n - 1) + [Appended(n)]
  {}
}
