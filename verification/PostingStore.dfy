/** Posting lists: the ids of the messages matching a search term, kept in files. */
module PostingStore {
  // Each file is named by a prefix of the terms' hashes.  The longest existing
  // prefix of a hash decides which file holds its list; a file that grows too
  // large is split into files with longer names.
  import opened Wrappers

  type Sig = string
  type Words = map<Sig, set<nat>>
  type Files = map<Sig, Words>

  const MAX_HASH_LEN: nat := 24
  const MAX_ITEMS: nat := 12288

  predicate IsHash(w: Sig) {
    |w| == MAX_HASH_LEN
  }

  /** The name of the file a hash is looked for in. */
  function Route(files: set<Sig>, sig: Sig): (r: Sig) {
    if sig in files || |sig| <= 1 then sig else Route(files, sig[..|sig| - 1])
  }

  lemma SameLengthPrefix(a: Sig, b: Sig)
    requires a <= b
    ensures |a| == |b| ==> a == b
    ensures a == b[..|a|]
  {}

  /** Two prefixes of one text are prefixes of each other. */
  lemma PrefixesNest(a: Sig, b: Sig, w: Sig)
    requires a <= w && b <= w && |a| <= |b|
    ensures a <= b && (|a| == |b| ==> a == b)
  {}

  lemma RouteIsLongest(files: set<Sig>, sig: Sig)
    requires sig != []
    ensures var r := Route(files, sig);
      && r <= sig && r != [] && (r in files || |r| == 1)
      && forall g :: g in files && g != [] && g <= sig ==> |g| <= |r|
  {
    if !(sig in files || |sig| <= 1) {
      RouteIsLongest(files, sig[..|sig| - 1]);
      forall g | g in files && g <= sig ensures g <= sig[..|sig| - 1] {
        SameLengthPrefix(g, sig);
      }
    }
  }

  lemma RouteIs(files: set<Sig>, sig: Sig, r: Sig)
    requires r <= sig && r != [] && (r in files || |r| == 1)
    requires forall g :: g in files && g != [] && g <= sig ==> |g| <= |r|
    ensures Route(files, sig) == r
  {
    RouteIsLongest(files, sig);
    var r' := Route(files, sig);
    assert |r'| == |r|;
    assert r' == sig[..|r'|] && r == sig[..|r|];
  }

  function Get(words: Words, w: Sig): set<nat> {
    if w in words then words[w] else {}
  }

  /** `PostingList.hits`. */
  function Lookup(files: Files, w: Sig): set<nat> {
    var f := Route(files.Keys, w);
    if f in files then Get(files[f], w) else {}
  }

  /** Every stored list is in the file its hash is looked for in. */
  ghost predicate StoreInv(files: Files) {
    && (forall f :: f in files ==> f != [])
    && (forall f, w :: f in files && w in files[f] ==>
          IsHash(w) && Route(files.Keys, w) == f && files[f][w] != {})
  }

  /** words are the lists loaded from (or bound for) file f, with the entry for
      the file's own name that every container starts with. */
  ghost predicate Fits(files: Files, f: Sig, words: Words) {
    && f != [] && |f| <= MAX_HASH_LEN && (f in files || |f| == 1)
    && (|f| < MAX_HASH_LEN && f in words ==> words[f] == {})
    && (forall w :: w in words && w != f ==> IsHash(w) && Route(files.Keys, w) == f)
  }

  function NonEmpty(words: Words): Words {
    map w | w in words && words[w] != {} :: words[w]
  }

  // ----- Sizes

  ghost function Total(words: Words): nat
    decreases |words|
  {
    if words == map[] then 0 else
      var w :| w in words;
      |words[w]| + Total(words - {w})
  }

  lemma {:induction false} TotalMinus(words: Words, w: Sig)
    requires w in words
    ensures Total(words) == |words[w]| + Total(words - {w})
    decreases |words|
  {
    var v :| v in words && Total(words) == |words[v]| + Total(words - {v});
    if v != w {
      TotalMinus(words - {v}, w);
      TotalMinus(words - {w}, v);
      assert words - {v} - {w} == words - {w} - {v};
    }
  }

  lemma {:induction false} TotalSplit(words: Words, part: set<Sig>)
    ensures Total(words) == Total(words - part) + Total(map w | w in words && w in part :: words[w])
    decreases |words|
  {
    var inside := map w | w in words && w in part :: words[w];
    if words == map[] {
      assert inside == map[];
    } else {
      var v :| v in words;
      var rest := words - {v};
      TotalSplit(rest, part);
      TotalMinus(words, v);
      var inside' := map w | w in rest && w in part :: rest[w];
      if v in part {
        TotalMinus(inside, v);
        assert inside - {v} == inside' && words - part == rest - part;
      } else {
        TotalMinus(words - part, v);
        assert inside == inside' && words - part - {v} == rest - part;
      }
    }
  }

  // ----- Splitting

  /** The name of the file a list moves to if its group is split off. */
  function GroupOf(f: Sig, w: Sig, list: set<nat>): Sig {
    if |list| >= MAX_ITEMS / 2 then (if |w| > MAX_HASH_LEN then w[..MAX_HASH_LEN] else w)
    else if |w| > |f| then w[..|f| + 1] else w
  }

  function Groups(f: Sig, words: Words): set<Sig> {
    set w | w in words :: GroupOf(f, w, words[w])
  }

  function InGroups(f: Sig, words: Words, groups: set<Sig>): Words {
    map w | w in words && GroupOf(f, w, words[w]) in groups :: words[w]
  }

  ghost function Sum(f: Sig, words: Words, g: Sig): nat {
    Total(InGroups(f, words, {g}))
  }

  /** g is one of the largest of the groups, and together they are too many. */
  ghost predicate Picks(f: Sig, words: Words, groups: set<Sig>, g: Sig) {
    && g in groups && Total(InGroups(f, words, groups)) > MAX_ITEMS
    && forall h :: h in groups ==> Sum(f, words, h) <= Sum(f, words, g)
  }

  /** chosen is a possible run of the splitting loop: largest group first, until
      what is left fits. */
  ghost predicate IsSelection(f: Sig, words: Words, chosen: seq<Sig>) {
    && IsPartialSelection(f, words, chosen)
    && Total(InGroups(f, words, Groups(f, words) - Elements(chosen))) <= MAX_ITEMS
  }

  ghost predicate IsPartialSelection(f: Sig, words: Words, chosen: seq<Sig>) {
    forall i :: 0 <= i < |chosen| ==> Picks(f, words, Groups(f, words) - Elements(chosen[..i]), chosen[i])
  }

  /** The first chosen name that is a prefix of w takes w. */
  function First(chosen: seq<Sig>, w: Sig): (r: Option<Sig>) {
    if chosen == [] then None
    else if chosen[0] <= w then Some(chosen[0])
    else First(chosen[1..], w)
  }

  /** The lists that stay (owner None) or that go to a chosen file. */
  function OwnedBy(words: Words, chosen: seq<Sig>, owner: Option<Sig>): Words {
    map w | w in words && First(chosen, w) == owner && words[w] != {} :: words[w]
  }

  /** The files after the container for f is saved with these splits. */
  function SavedFiles(files: Files, f: Sig, words: Words, chosen: seq<Sig>): Files {
    var rest := OwnedBy(words, chosen, None);
    map h | h in (files.Keys - {f}) + Elements(chosen) + (if rest == map[] then {} else {f}) ::
      if h in chosen then OwnedBy(words, chosen, Some(h)) else if h == f then rest else files[h]
  }

  /** No name is chosen after a proper prefix of it. */
  ghost predicate NestFree(chosen: seq<Sig>) {
    forall i, j :: 0 <= i < j < |chosen| ==> !(chosen[i] <= chosen[j])
  }

  ghost predicate HasMember(f: Sig, words: Words, g: Sig) {
    exists w :: w in words && w != f && words[w] != {} && g == GroupOf(f, w, words[w])
  }

  /** The names a container can be split into. */
  ghost predicate Splittable(f: Sig, words: Words, chosen: seq<Sig>) {
    && (forall i, j :: 0 <= i < j < |chosen| ==> chosen[i] != chosen[j])
    && (forall g :: g in chosen ==> |g| > |f| && HasMember(f, words, g))
  }

  /** What a lookup should find: the container's lists for the words routed to
      its file, the stored lists for all others. */
  function View(files: Files, f: Sig, words: Words, w: Sig): set<nat> {
    if Route(files.Keys, w) == f then Get(words, w) else Lookup(files, w)
  }

  lemma FirstMeaning(chosen: seq<Sig>, w: Sig)
    ensures var r := First(chosen, w);
      && (r.None? ==> forall i :: 0 <= i < |chosen| ==> !(chosen[i] <= w))
      && (r.Some? ==> exists i :: 0 <= i < |chosen| && chosen[i] == r.value && r.value <= w
                        && forall j :: 0 <= j < i ==> !(chosen[j] <= w))
  {
    if chosen != [] && !(chosen[0] <= w) {
      FirstMeaning(chosen[1..], w);
      var r := First(chosen[1..], w);
      if r.Some? {
        var i :| 0 <= i < |chosen[1..]| && chosen[1..][i] == r.value && r.value <= w
                 && forall j :: 0 <= j < i ==> !(chosen[1..][j] <= w);
        assert chosen[i + 1] == r.value;
      }
    }
  }

  /** A chosen name is new, and no longer than the file of any word it could take
      from another file. */
  lemma ChosenIsNew(files: Files, f: Sig, words: Words, chosen: seq<Sig>, g: Sig)
    requires Fits(files, f, words) && Splittable(f, words, chosen) && g in chosen
    ensures g !in files && f < g && |g| >= 2
    ensures IsHash(g) ==> Route(files.Keys, g) == f && g in words
    ensures IsHash(g) || |g| == |f| + 1
  {
    assert HasMember(f, words, g);
    var v :| v in words && v != f && words[v] != {} && g == GroupOf(f, v, words[v]);
    RouteIsLongest(files.Keys, v);
    SameLengthPrefix(g, v);
    PrefixesNest(f, g, v);
  }

  lemma ChosenTakesFromF(files: Files, f: Sig, words: Words, chosen: seq<Sig>, g: Sig, w: Sig)
    requires Fits(files, f, words) && Splittable(f, words, chosen) && g in chosen
    requires IsHash(w) && g <= w && Route(files.Keys, w) != f
    ensures |g| < |Route(files.Keys, w)|
  {
    ChosenIsNew(files, f, words, chosen, g);
    RouteIsLongest(files.Keys, w);
    var r := Route(files.Keys, w);
    if |r| <= |g| {
      PrefixesNest(f, r, w);
      PrefixesNest(r, g, w);
      SameLengthPrefix(g, w);
      assert false;
    }
  }

  lemma RouteElsewhere(files: Files, f: Sig, words: Words, chosen: seq<Sig>, w: Sig)
    requires StoreInv(files) && Fits(files, f, words) && Splittable(f, words, chosen)
    requires IsHash(w) && Route(files.Keys, w) != f
    ensures var r, files' := Route(files.Keys, w), SavedFiles(files, f, words, chosen);
      && Route(files'.Keys, w) == r
      && (r in files' <==> r in files)
      && (r in files ==> files'[r] == files[r])
  {
    var r, files' := Route(files.Keys, w), SavedFiles(files, f, words, chosen);
    RouteIsLongest(files.Keys, w);
    if r in chosen { ChosenIsNew(files, f, words, chosen, r); }
    forall g | g in files' && g != [] && g <= w ensures |g| <= |r| {
      if g in chosen {
        ChosenTakesFromF(files, f, words, chosen, g, w);
      }
    }
    RouteIs(files'.Keys, w, r);
  }

  lemma FirstIsLongest(chosen: seq<Sig>, w: Sig, h: Sig)
    requires NestFree(chosen) && First(chosen, w).Some? && h in chosen && h <= w
    ensures First(chosen, w).value in chosen && First(chosen, w).value <= w
    ensures |h| <= |First(chosen, w).value|
  {
    FirstMeaning(chosen, w);
    var g := First(chosen, w).value;
    var i :| 0 <= i < |chosen| && chosen[i] == g && g <= w && forall j :: 0 <= j < i ==> !(chosen[j] <= w);
    var j :| 0 <= j < |chosen| && chosen[j] == h;
    if |h| > |g| {
      PrefixesNest(g, h, w);
      assert false;
    }
  }

  lemma RouteHere(files: Files, f: Sig, words: Words, chosen: seq<Sig>, w: Sig)
    requires Fits(files, f, words) && Splittable(f, words, chosen) && NestFree(chosen)
    requires IsHash(w) && Route(files.Keys, w) == f && First(chosen, w).Some?
    ensures First(chosen, w).value in chosen
    ensures Route(SavedFiles(files, f, words, chosen).Keys, w) == First(chosen, w).value
  {
    FirstMeaning(chosen, w);
    var g := First(chosen, w).value;
    ChosenIsNew(files, f, words, chosen, g);
    RouteIsLongest(files.Keys, w);
    var keys := SavedFiles(files, f, words, chosen).Keys;
    forall h | h in keys && h != [] && h <= w ensures |h| <= |g| {
      if h in chosen { FirstIsLongest(chosen, w, h); }
    }
    RouteIs(keys, w, g);
  }

  lemma RouteStays(files: Files, f: Sig, words: Words, chosen: seq<Sig>, w: Sig)
    requires StoreInv(files) && Fits(files, f, words) && Splittable(f, words, chosen)
    requires IsHash(w) && Route(files.Keys, w) == f && First(chosen, w).None?
    ensures var files' := SavedFiles(files, f, words, chosen);
      && (f in files' ==> Route(files'.Keys, w) == f)
      && Lookup(files', w) == Get(words, w)
  {
    var files' := SavedFiles(files, f, words, chosen);
    FirstMeaning(chosen, w);
    RouteIsLongest(files.Keys, w);
    RouteIsLongest(files'.Keys, w);
    assert forall g :: g in chosen ==> !(g <= w);
    if f in files' {
      RouteIs(files'.Keys, w, f);
    } else {
      assert OwnedBy(words, chosen, None) == map[];
      assert w !in OwnedBy(words, chosen, None);
    }
  }

  /** Saving a container, split or not, keeps every lookup and the placement of
      every list, provided no name is chosen after a proper prefix of it. */
  lemma SaveKeepsLookups(files: Files, f: Sig, words: Words, chosen: seq<Sig>, w: Sig)
    requires StoreInv(files) && Fits(files, f, words) && Splittable(f, words, chosen) && NestFree(chosen)
    requires IsHash(w)
    ensures Lookup(SavedFiles(files, f, words, chosen), w) == View(files, f, words, w)
  {
    if Route(files.Keys, w) != f {
      RouteElsewhere(files, f, words, chosen, w);
    } else if First(chosen, w).Some? {
      RouteHere(files, f, words, chosen, w);
      assert First(chosen, w).value in SavedFiles(files, f, words, chosen);
    } else {
      RouteStays(files, f, words, chosen, w);
    }
  }

  lemma SaveKeepsPlaces(files: Files, f: Sig, words: Words, chosen: seq<Sig>)
    requires StoreInv(files) && Fits(files, f, words) && Splittable(f, words, chosen) && NestFree(chosen)
    ensures StoreInv(SavedFiles(files, f, words, chosen))
  {
    var files' := SavedFiles(files, f, words, chosen);
    forall h | h in files' ensures h != [] {
      if h in chosen { ChosenIsNew(files, f, words, chosen, h); }
    }
    forall h, w | h in files' && w in files'[h]
      ensures IsHash(w) && Route(files'.Keys, w) == h && files'[h][w] != {}
    {
      ListStaysPlaced(files, f, words, chosen, h, w);
    }
  }

  lemma ListStaysPlaced(files: Files, f: Sig, words: Words, chosen: seq<Sig>, h: Sig, w: Sig)
    requires StoreInv(files) && Fits(files, f, words) && Splittable(f, words, chosen) && NestFree(chosen)
    requires var files' := SavedFiles(files, f, words, chosen); h in files' && w in files'[h]
    ensures var files' := SavedFiles(files, f, words, chosen);
      IsHash(w) && Route(files'.Keys, w) == h && files'[h][w] != {}
  {
    if h in chosen || h == f {
      RouteSelf(files.Keys, f);
      if h in chosen { RouteHere(files, f, words, chosen, w); } else { RouteStays(files, f, words, chosen, w); }
    } else {
      RouteElsewhere(files, f, words, chosen, w);
    }
  }

  lemma RouteSelf(files: set<Sig>, f: Sig)
    requires f in files || |f| == 1
    ensures Route(files, f) == f
  {}

  /** A list that is chosen after the group it would otherwise belong to is moved
      with that group, while its own file is created empty: it is lost. */
  lemma NestedSplitLoses(files: Files, f: Sig, words: Words, chosen: seq<Sig>, i: nat, j: nat)
    requires StoreInv(files) && Fits(files, f, words) && Splittable(f, words, chosen)
    requires i < j < |chosen| && chosen[i] <= chosen[j]
    ensures var w := chosen[j];
      IsHash(w) && Lookup(SavedFiles(files, f, words, chosen), w) == {} != View(files, f, words, w)
  {
    var files' := SavedFiles(files, f, words, chosen);
    var g, w := chosen[i], chosen[j];
    assert g in chosen && w in chosen;
    ChosenIsNew(files, f, words, chosen, g);
    ChosenIsNew(files, f, words, chosen, w);
    if |w| == |f| + 1 { SameLengthPrefix(g, w); assert false; }
    FirstMeaning(chosen, w);
    RouteSelf(files'.Keys, w);
    assert HasMember(f, words, w);
    if First(chosen, w) == Some(w) {
      assert false;
    }
  }

  lemma SaveKeepsLookupsExactly(files: Files, f: Sig, words: Words, chosen: seq<Sig>)
    requires StoreInv(files) && Fits(files, f, words) && Splittable(f, words, chosen)
    ensures NestFree(chosen) <==>
      forall w :: IsHash(w) ==> Lookup(SavedFiles(files, f, words, chosen), w) == View(files, f, words, w)
  {
    if NestFree(chosen) {
      forall w | IsHash(w) ensures Lookup(SavedFiles(files, f, words, chosen), w) == View(files, f, words, w) {
        SaveKeepsLookups(files, f, words, chosen, w);
      }
    } else {
      var i, j :| 0 <= i < j < |chosen| && chosen[i] <= chosen[j];
      NestedSplitLoses(files, f, words, chosen, i, j);
    }
  }

  // ----- What the splitting loop chooses

  lemma EmptyListsTotal(words: Words)
    requires forall w :: w in words ==> words[w] == {}
    ensures Total(words) == 0
    decreases |words|
  {
    if words != map[] {
      var v :| v in words && Total(words) == |words[v]| + Total(words - {v});
      EmptyListsTotal(words - {v});
    }
  }

  lemma TotalAtLeast(words: Words, w: Sig)
    requires w in words
    ensures |words[w]| <= Total(words)
  {
    TotalMinus(words, w);
  }

  /** The largest of too many groups has a list that is not empty. */
  lemma PickHasMember(f: Sig, words: Words, groups: set<Sig>, g: Sig)
    requires Picks(f, words, groups, g)
    ensures exists w :: w in words && words[w] != {} && g == GroupOf(f, w, words[w])
  {
    var all := InGroups(f, words, groups);
    if forall w :: w in all ==> all[w] == {} {
      EmptyListsTotal(all);
    } else {
      var w :| w in all && all[w] != {};
      var h := GroupOf(f, w, words[w]);
      TotalAtLeast(InGroups(f, words, {h}), w);
      if forall v :: v in InGroups(f, words, {g}) ==> words[v] == {} {
        EmptyListsTotal(InGroups(f, words, {g}));
      }
    }
  }

  lemma SelectionSplits(files: Files, f: Sig, words: Words, chosen: seq<Sig>)
    requires Fits(files, f, words) && |f| < MAX_HASH_LEN && IsPartialSelection(f, words, chosen)
    ensures Splittable(f, words, chosen)
  {
    forall i, j | 0 <= i < j < |chosen| ensures chosen[i] != chosen[j] {
      assert chosen[i] == chosen[..j][i] && Picks(f, words, Groups(f, words) - Elements(chosen[..j]), chosen[j]);
    }
    forall g | g in chosen ensures |g| > |f| && HasMember(f, words, g) {
      var i :| 0 <= i < |chosen| && chosen[i] == g;
      PickHasMember(f, words, Groups(f, words) - Elements(chosen[..i]), g);
      var w :| w in words && words[w] != {} && g == GroupOf(f, w, words[w]);
      assert w != f;
    }
  }

  lemma LargestFirst(f: Sig, words: Words, chosen: seq<Sig>, i: nat, j: nat)
    requires IsPartialSelection(f, words, chosen) && i < j < |chosen|
    ensures Sum(f, words, chosen[j]) <= Sum(f, words, chosen[i])
  {
    var early, late := Groups(f, words) - Elements(chosen[..i]), Groups(f, words) - Elements(chosen[..j]);
    assert Picks(f, words, early, chosen[i]) && Picks(f, words, late, chosen[j]);
    assert forall k :: 0 <= k < i ==> chosen[..i][k] == chosen[..j][k];
    assert chosen[j] in early;
  }

  lemma NestedShape(files: Files, f: Sig, words: Words, chosen: seq<Sig>, g: Sig, w: Sig)
    requires Fits(files, f, words) && Splittable(f, words, chosen)
    requires g in chosen && w in chosen && g != w && g <= w
    ensures IsHash(w) && w in words && |g| == |f| + 1 < MAX_HASH_LEN && g == w[..|f| + 1]
  {
    SameLengthPrefix(g, w);
    ChosenIsNew(files, f, words, chosen, g);
    ChosenIsNew(files, f, words, chosen, w);
  }

  lemma HashChosenIsLarge(files: Files, f: Sig, words: Words, chosen: seq<Sig>, w: Sig)
    requires Fits(files, f, words) && Splittable(f, words, chosen)
    requires w in chosen && IsHash(w) && |f| + 1 < MAX_HASH_LEN && w in words
    ensures |words[w]| >= MAX_ITEMS / 2 && |words[w]| <= Sum(f, words, w)
  {
    assert HasMember(f, words, w);
    var v :| v in words && v != f && words[v] != {} && w == GroupOf(f, v, words[v]);
    SameLengthPrefix(w, v);
    TotalAtLeast(InGroups(f, words, {w}), w);
  }

  /** A name can be chosen after a proper prefix only if it is the hash of one
      very large list whose siblings together are at least as large. */
  lemma NestingNeedsLargeSiblings(files: Files, f: Sig, words: Words, chosen: seq<Sig>, i: nat, j: nat)
    requires Fits(files, f, words) && |f| < MAX_HASH_LEN && IsPartialSelection(f, words, chosen)
    requires i < j < |chosen| && chosen[i] <= chosen[j]
    ensures var w := chosen[j];
      IsHash(w) && w in words && |words[w]| >= MAX_ITEMS / 2 && chosen[i] == w[..|f| + 1]
      && Sum(f, words, chosen[i]) >= |words[w]|
  {
    SelectionSplits(files, f, words, chosen);
    var g, w := chosen[i], chosen[j];
    assert g in chosen && w in chosen && g != w;
    NestedShape(files, f, words, chosen, g, w);
    HashChosenIsLarge(files, f, words, chosen, w);
    LargestFirst(f, words, chosen, i, j);
  }

  /** With no list of MAX_ITEMS / 2 ids or more, splitting never nests. */
  lemma SmallListsCannotNest(files: Files, f: Sig, words: Words, chosen: seq<Sig>)
    requires Fits(files, f, words) && |f| < MAX_HASH_LEN && IsPartialSelection(f, words, chosen)
    requires forall w :: w in words ==> |words[w]| < MAX_ITEMS / 2
    ensures NestFree(chosen)
  {
    forall i, j | 0 <= i < j < |chosen| ensures !(chosen[i] <= chosen[j]) {
      if chosen[i] <= chosen[j] { NestingNeedsLargeSiblings(files, f, words, chosen, i, j); }
    }
  }

  lemma TotalOfPart(part: Words, words: Words)
    requires forall w :: w in part ==> w in words && part[w] == words[w]
    ensures Total(part) <= Total(words)
  {
    TotalSplit(words, part.Keys);
    assert (map w | w in words && w in part.Keys :: words[w]) == part;
  }

  /** What stays in a container that was split is at most MAX_ITEMS ids. */
  lemma SplitFits(f: Sig, words: Words, chosen: seq<Sig>)
    requires IsSelection(f, words, chosen)
    ensures Total(OwnedBy(words, chosen, None)) <= MAX_ITEMS
  {
    var left := InGroups(f, words, Groups(f, words) - Elements(chosen));
    forall w | w in OwnedBy(words, chosen, None) ensures w in left {
      FirstMeaning(chosen, w);
      assert GroupOf(f, w, words[w]) <= w;
    }
    TotalOfPart(OwnedBy(words, chosen, None), left);
  }

  // ----- Nesting, told from the container alone

  /** The groups of at most n ids, but for one. */
  ghost function NotLarger(f: Sig, words: Words, n: nat, g: Sig): set<Sig> {
    set h | h in Groups(f, words) && h != g && Sum(f, words, h) <= n
  }

  /** The large list w may be split off after the group of its smaller siblings:
      that group is at least as large as w, and the groups that are not larger than
      w would still be too many without it. */
  ghost predicate NestsAt(f: Sig, words: Words, w: Sig) {
    && w in words && IsHash(w) && |words[w]| >= MAX_ITEMS / 2 && |f| + 1 < MAX_HASH_LEN
    && var g := w[..|f| + 1];
       && g in Groups(f, words) && Sum(f, words, g) >= |words[w]|
       && Total(InGroups(f, words, NotLarger(f, words, |words[w]|, g))) > MAX_ITEMS
  }

  ghost predicate MayNest(f: Sig, words: Words) {
    exists w :: NestsAt(f, words, w)
  }

  lemma TotalOfOne(w: Sig, list: set<nat>)
    ensures Total(map[w := list]) == |list|
  {
    var one := map[w := list];
    TotalMinus(one, w);
    assert one - {w} == map[];
  }

  /** A large list is a group of its own. */
  lemma LargeIsAlone(files: Files, f: Sig, words: Words, w: Sig)
    requires Fits(files, f, words) && |f| + 1 < MAX_HASH_LEN
    requires w in words && IsHash(w) && |words[w]| >= MAX_ITEMS / 2
    ensures w in Groups(f, words) && Sum(f, words, w) == |words[w]|
  {
    assert GroupOf(f, w, words[w]) == w;
    assert InGroups(f, words, {w}) == map[w := words[w]];
    TotalOfOne(w, words[w]);
  }

  lemma MoreGroups(f: Sig, words: Words, fewer: set<Sig>, more: set<Sig>)
    requires fewer <= more
    ensures Total(InGroups(f, words, fewer)) <= Total(InGroups(f, words, more))
  {
    TotalOfPart(InGroups(f, words, fewer), InGroups(f, words, more));
  }

  /** Whenever a selection nests, the container shows it beforehand. */
  lemma NestingShows(files: Files, f: Sig, words: Words, chosen: seq<Sig>, i: nat, j: nat)
    requires Fits(files, f, words) && |f| < MAX_HASH_LEN && IsPartialSelection(f, words, chosen)
    requires i < j < |chosen| && chosen[i] <= chosen[j]
    ensures NestsAt(f, words, chosen[j])
  {
    hide Fits, Total, InGroups, Sum, Groups;
    SelectionSplits(files, f, words, chosen);
    var g, w := chosen[i], chosen[j];
    assert g in chosen && w in chosen && g != w;
    NestedShape(files, f, words, chosen, g, w);
    NestingNeedsLargeSiblings(files, f, words, chosen, i, j);
    LargeIsAlone(files, f, words, w);
    var left := Groups(f, words) - Elements(chosen[..j]);
    assert Picks(f, words, Groups(f, words) - Elements(chosen[..i]), g) && Picks(f, words, left, w);
    assert g == chosen[..j][i] && g !in left;
    MoreGroups(f, words, left, NotLarger(f, words, |words[w]|, g));
  }

  lemma LargestGroup(f: Sig, words: Words, groups: set<Sig>) returns (g: Sig)
    requires groups != {}
    ensures g in groups && forall h :: h in groups ==> Sum(f, words, h) <= Sum(f, words, g)
  {
    g :| g in groups;
    var rest := groups - {g};
    assert forall k :: k in groups ==> k == g || k in rest;
    if rest != {} {
      var h := LargestGroup(f, words, rest);
      if Sum(f, words, h) > Sum(f, words, g) { g := h; }
    }
  }

  lemma SelectionGrows(f: Sig, words: Words, chosen: seq<Sig>, g: Sig)
    requires IsPartialSelection(f, words, chosen) && Picks(f, words, Groups(f, words) - Elements(chosen), g)
    ensures IsPartialSelection(f, words, chosen + [g])
    ensures Groups(f, words) - Elements(chosen + [g]) < Groups(f, words) - Elements(chosen)
  {
    hide Picks;
    var chosen' := chosen + [g];
    forall i | 0 <= i < |chosen'| ensures Picks(f, words, Groups(f, words) - Elements(chosen'[..i]), chosen'[i]) {
      assert chosen'[..i] == chosen[..i];
      if i == |chosen| { assert chosen'[..i] == chosen; }
    }
    assert Elements(chosen') == Elements(chosen) + {g};
    PickIsGroup(f, words, Groups(f, words) - Elements(chosen), g);
  }

  lemma PickIsGroup(f: Sig, words: Words, groups: set<Sig>, g: Sig)
    requires Picks(f, words, groups, g)
    ensures g in groups
  {}

  /** Every run of the splitting loop can go on until what is left fits. */
  lemma SelectionEnds(f: Sig, words: Words, chosen: seq<Sig>) returns (all: seq<Sig>)
    requires IsPartialSelection(f, words, chosen)
    ensures IsSelection(f, words, all) && chosen <= all
    decreases Groups(f, words) - Elements(chosen)
  {
    hide Picks, IsPartialSelection;
    var left := Groups(f, words) - Elements(chosen);
    all := chosen;
    if Total(InGroups(f, words, left)) > MAX_ITEMS {
      NoGroups(f, words);
      var g := LargestGroup(f, words, left);
      PickIs(f, words, left, g);
      SelectionGrows(f, words, chosen, g);
      all := SelectionEnds(f, words, chosen + [g]);
    }
  }

  lemma NoGroups(f: Sig, words: Words)
    ensures Total(InGroups(f, words, {})) == 0
  {
    assert InGroups(f, words, {}) == map[];
  }

  lemma PickIs(f: Sig, words: Words, groups: set<Sig>, g: Sig)
    requires g in groups && Total(InGroups(f, words, groups)) > MAX_ITEMS
    requires forall h :: h in groups ==> Sum(f, words, h) <= Sum(f, words, g)
    ensures Picks(f, words, groups, g)
  {}

  /** Groups of more than n ids are all chosen before any of the others, while the
      others are too many. */
  lemma LargerFirst(f: Sig, words: Words, n: nat, low: set<Sig>, chosen: seq<Sig>) returns (all: seq<Sig>)
    requires IsPartialSelection(f, words, chosen) && forall h :: h in chosen ==> Sum(f, words, h) > n
    requires low <= Groups(f, words) && Total(InGroups(f, words, low)) > MAX_ITEMS
    requires forall h :: h in low ==> Sum(f, words, h) <= n
    ensures IsPartialSelection(f, words, all) && forall h :: h in all ==> Sum(f, words, h) > n
    ensures forall h :: h in Groups(f, words) && h !in all ==> Sum(f, words, h) <= n
    decreases Groups(f, words) - Elements(chosen)
  {
    hide Picks, IsPartialSelection, Sum, Groups, InGroups, Total;
    var left := Groups(f, words) - Elements(chosen);
    var larger := set h | h in left && Sum(f, words, h) > n;
    all := chosen;
    if larger != {} {
      var g := LargestGroup(f, words, larger);
      MoreGroups(f, words, low, left);
      PickIs(f, words, left, g);
      SelectionGrows(f, words, chosen, g);
      all := LargerFirst(f, words, n, low, chosen + [g]);
    } else {
      assert forall h :: h in Groups(f, words) && h !in chosen ==> h in left && h !in larger;
    }
  }

  /** Where the container shows it, some run of the loop does nest. */
  lemma ShownNests(files: Files, f: Sig, words: Words, w: Sig) returns (all: seq<Sig>)
    requires Fits(files, f, words) && NestsAt(f, words, w)
    ensures IsSelection(f, words, all) && !NestFree(all)
  {
    hide Picks, IsPartialSelection, IsSelection, Sum, Groups, InGroups, Total, Fits;
    var g, n := w[..|f| + 1], |words[w]|;
    var low := NotLarger(f, words, n, g);
    LargeIsAlone(files, f, words, w);
    var chosen := LargerFirst(f, words, n, low, []) by { NothingChosen(f, words); }
    if g !in chosen {
      var left := Groups(f, words) - Elements(chosen);
      MoreGroups(f, words, low, left);
      PickIs(f, words, left, g);
      SelectionGrows(f, words, chosen, g);
      chosen := chosen + [g];
    }
    assert g in chosen && w !in chosen;
    var left := Groups(f, words) - Elements(chosen);
    MoreGroups(f, words, low, left);
    PickIs(f, words, left, w);
    SelectionGrows(f, words, chosen, w);
    all := SelectionEnds(f, words, chosen + [w]);
    var i :| 0 <= i < |chosen| && chosen[i] == g;
    assert all[i] == (chosen + [w])[i] == g && all[|chosen|] == (chosen + [w])[|chosen|] == w;
    assert all[i] <= all[|chosen|];
  }

  lemma NothingChosen(f: Sig, words: Words)
    ensures IsPartialSelection(f, words, [])
  {}

  lemma MayNestExactly(files: Files, f: Sig, words: Words)
    requires Fits(files, f, words) && |f| < MAX_HASH_LEN
    ensures MayNest(f, words) <==> exists chosen :: IsSelection(f, words, chosen) && !NestFree(chosen)
  {
    hide NestsAt, Fits;
    if MayNest(f, words) {
      var w :| NestsAt(f, words, w);
      var chosen := ShownNests(files, f, words, w);
    }
    if chosen :| IsSelection(f, words, chosen) && !NestFree(chosen) {
      var i, j :| 0 <= i < j < |chosen| && chosen[i] <= chosen[j];
      NestingShows(files, f, words, chosen, i, j);
    }
  }

  /** Every word finds what it should after the save. */
  ghost predicate KeepsLookups(files: Files, f: Sig, words: Words, chosen: seq<Sig>) {
    forall w :: IsHash(w) ==> Lookup(SavedFiles(files, f, words, chosen), w) == View(files, f, words, w)
  }

  /** Whether saving a container is safe, however ties are broken, can be told
      from its lists. */
  lemma EverySaveKeepsLookupsExactly(files: Files, f: Sig, words: Words)
    requires StoreInv(files) && Fits(files, f, words) && |f| < MAX_HASH_LEN
    ensures (forall chosen :: IsSelection(f, words, chosen) ==> KeepsLookups(files, f, words, chosen))
            <==> !MayNest(f, words)
  {
    hide MayNest, IsPartialSelection, StoreInv, Fits, Splittable, Lookup, View, SavedFiles, NestFree;
    MayNestExactly(files, f, words);
    forall chosen | IsSelection(f, words, chosen) ensures KeepsLookups(files, f, words, chosen) <==> NestFree(chosen) {
      SelectionSplits(files, f, words, chosen);
      SaveKeepsLookupsExactly(files, f, words, chosen);
    }
  }

  /** No group that is left is larger than a chosen one. */
  lemma LeftIsSmaller(f: Sig, words: Words, chosen: seq<Sig>, g: Sig, h: Sig)
    requires IsPartialSelection(f, words, chosen) && g in chosen && h in Groups(f, words) && h !in chosen
    ensures Sum(f, words, h) <= Sum(f, words, g)
  {
    var i :| 0 <= i < |chosen| && chosen[i] == g;
    assert Picks(f, words, Groups(f, words) - Elements(chosen[..i]), chosen[i]);
  }

  /** A list strictly between its siblings and the other groups is lost for certain. */
  lemma NestingIsCertain(files: Files, f: Sig, words: Words, chosen: seq<Sig>, w: Sig)
    requires StoreInv(files) && Fits(files, f, words) && IsSelection(f, words, chosen)
    requires w in words && IsHash(w) && |words[w]| >= MAX_ITEMS / 2 && |f| + 1 < MAX_HASH_LEN
    requires w[..|f| + 1] in Groups(f, words) && Sum(f, words, w[..|f| + 1]) > |words[w]|
    requires var smaller := set h | h in Groups(f, words) && Sum(f, words, h) < |words[w]|;
             Total(InGroups(f, words, smaller + {w})) > MAX_ITEMS
    ensures Lookup(SavedFiles(files, f, words, chosen), w) == {} != View(files, f, words, w)
  {
    hide StoreInv, Fits, Sum, Groups, InGroups, Total, Lookup, View, SavedFiles;
    LargeIsAlone(files, f, words, w);
    var g, n := w[..|f| + 1], |words[w]|;
    var smaller := set h | h in Groups(f, words) && Sum(f, words, h) < n;
    if w !in chosen {
      var left := Groups(f, words) - Elements(chosen);
      forall k | k in smaller ensures k in left {
        if k in chosen { LeftIsSmaller(f, words, chosen, k, w); }
      }
      assert smaller + {w} <= left;
      MoreGroups(f, words, smaller + {w}, left);
      assert false;
    }
    var j :| 0 <= j < |chosen| && chosen[j] == w;
    assert Picks(f, words, Groups(f, words) - Elements(chosen[..j]), w);
    assert g in chosen[..j];
    var i :| 0 <= i < j && chosen[..j][i] == g;
    SelectionSplits(files, f, words, chosen);
    NestedSplitLoses(files, f, words, chosen, i, j);
  }
}
