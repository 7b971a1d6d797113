/** The containers that load, change, split and save posting list files.

    Splitting moves lists to new containers, largest group first, while their
    total is counted down.  Saving then writes every container to its own file.
    What the new files hold is stated on the list of chosen keys alone. */
module PostingContainers {
  import opened Wrappers
  import opened PostingStore

  /** What a container for file f starts with. */
  function Loaded(files: Files, f: Sig): Words {
    map[f := {}] + if f in files then files[f] else map[]
  }

  function Added(words: Words, w: Sig, ids: set<nat>): Words {
    words[w := Get(words, w) + ids]
  }

  function Removed(words: Words, w: Sig, ids: set<nat>): Words {
    if w !in words then words
    else if words[w] - ids == {} then words - {w}
    else words[w := words[w] - ids]
  }

  /** The lists of both, together. */
  function Joined(words: Words, more: Words): Words {
    map w | w in words.Keys + more.Keys :: Get(words, w) + Get(more, w)
  }

  lemma JoinedNew(taken: Words, g: Sig)
    ensures Joined(map[g := {}], taken) == map[g := {}] + taken
    ensures Loaded(map[g := map[]], g) == Loaded(map[], g) == map[g := {}]
  {
    var one: Words := map[g := {}];
    forall w | w in one + taken ensures Joined(one, taken)[w] == (one + taken)[w] {
      assert Get(one, w) == {};
    }
  }

  /** The ids in deleted leave every list but the one that records them. */
  function Purged(words: Words, deletedSig: Sig, deleted: set<nat>): Words {
    map w | w in words :: if w == deletedSig then words[w] else words[w] - deleted
  }

  /** The lists when all but those in todo have been purged. */
  function PurgedBut(words: Words, deletedSig: Sig, deleted: set<nat>, todo: set<Sig>): Words {
    map w | w in words :: if w in todo || w == deletedSig then words[w] else words[w] - deleted
  }

  lemma PurgedNext(words: Words, deletedSig: Sig, deleted: set<nat>, todo: set<Sig>, w: Sig)
    requires w in todo && todo <= words.Keys
    ensures var now, next := PurgedBut(words, deletedSig, deleted, todo), PurgedBut(words, deletedSig, deleted, todo - {w});
            && now.Keys == words.Keys && w in now
            && next == (if w != deletedSig && now[w] * deleted != {} then now[w := now[w] - now[w] * deleted] else now)
            && (w != deletedSig && now[w] * deleted != {} ==> next != words)
  {
    var now, next := PurgedBut(words, deletedSig, deleted, todo), PurgedBut(words, deletedSig, deleted, todo - {w});
    assert words[w] - words[w] * deleted == words[w] - deleted;
    if w != deletedSig && words[w] * deleted != {} {
      assert words[w] - deleted != words[w];
      assert next[w] != words[w];
    } else if w != deletedSig {
      assert words[w] - deleted == words[w];
    }
  }

  /** The splits a save may make: none for a lone list or a full-length name. */
  ghost predicate MaySplit(f: Sig, words: Words, chosen: seq<Sig>) {
    if |words| > 1 && |f| < MAX_HASH_LEN then IsSelection(f, words, chosen) else chosen == []
  }

  lemma MaySplitIsSplittable(files: Files, f: Sig, words: Words, chosen: seq<Sig>)
    requires Fits(files, f, words) && MaySplit(f, words, chosen)
    ensures Splittable(f, words, chosen) && f !in chosen
  {
    if |words| > 1 && |f| < MAX_HASH_LEN {
      SelectionSplits(files, f, words, chosen);
    }
  }

  /** Nesting takes a second list, and a name that can still grow. */
  lemma NestingTakesTwo(f: Sig, words: Words, w: Sig)
    requires NestsAt(f, words, w)
    ensures |words| > 1 && |f| < MAX_HASH_LEN
  {
    var g := w[..|f| + 1];
    var ours := InGroups(f, words, {g});
    NoLists(ours);
    var v :| v in ours;
    assert GroupOf(f, w, words[w]) == w != g;
    assert {v, w} <= words.Keys;
    SubsetSize({v, w}, words.Keys);
  }

  lemma NoLists(words: Words)
    requires Total(words) > 0
    ensures exists v :: v in words
  {}

  lemma SubsetSize(a: set<Sig>, b: set<Sig>)
    requires a <= b
    ensures |a| <= |b|
  {
    assert b == a + (b - a);
  }

  /** A save keeps every lookup, whatever it chooses, exactly for the containers
      that cannot nest; then it also keeps every list where it is looked for. */
  lemma SaveIsSafeExactly(files: Files, f: Sig, words: Words)
    requires StoreInv(files) && Fits(files, f, words)
    ensures (forall chosen :: MaySplit(f, words, chosen) ==> KeepsLookups(files, f, words, chosen)) <==> !MayNest(f, words)
    ensures !MayNest(f, words) ==>
      forall chosen :: MaySplit(f, words, chosen) ==> StoreInv(SavedFiles(files, f, words, chosen))
  {
    hide StoreInv, Fits, KeepsLookups, SavedFiles, IsSelection, NestsAt, Splittable;
    if |words| > 1 && |f| < MAX_HASH_LEN {
      EverySaveKeepsLookupsExactly(files, f, words);
      MayNestExactly(files, f, words);
    } else if w :| NestsAt(f, words, w) {
      NestingTakesTwo(f, words, w);
      assert false;
    }
    forall chosen | MaySplit(f, words, chosen) && NestFree(chosen)
      ensures StoreInv(SavedFiles(files, f, words, chosen)) && KeepsLookups(files, f, words, chosen)
    {
      MaySplitIsSplittable(files, f, words, chosen);
      SaveKeepsPlaces(files, f, words, chosen);
      KeptByNestFree(files, f, words, chosen);
    }
  }

  lemma KeptByNestFree(files: Files, f: Sig, words: Words, chosen: seq<Sig>)
    requires StoreInv(files) && Fits(files, f, words) && Splittable(f, words, chosen) && NestFree(chosen)
    ensures KeepsLookups(files, f, words, chosen)
  {
    SaveKeepsLookupsExactly(files, f, words, chosen);
  }

  lemma LoadedFits(files: Files, w: Sig)
    requires StoreInv(files) && IsHash(w)
    ensures Fits(files, Route(files.Keys, w), Loaded(files, Route(files.Keys, w)))
  {
    RouteIsLongest(files.Keys, w);
    var f := Route(files.Keys, w);
    assert f in files && f in files[f] ==> IsHash(f);
  }

  lemma FirstAppend(chosen: seq<Sig>, g: Sig, w: Sig)
    ensures First(chosen + [g], w) ==
      if First(chosen, w).Some? then First(chosen, w) else if g <= w then Some(g) else None
  {
    if chosen == [] {
      assert (chosen + [g])[1..] == [];
    } else {
      assert (chosen + [g])[1..] == chosen[1..] + [g];
      FirstAppend(chosen[1..], g, w);
    }
  }

  function Unowned(words: Words, chosen: seq<Sig>): Words {
    map w | w in words && First(chosen, w).None? :: words[w]
  }

  /** Part i of a split: the lists taken by the i-th chosen name. */
  function Taken(words: Words, g: Sig): Words {
    map w | w in words && g <= w :: words[w]
  }

  lemma UnownedAppend(words: Words, chosen: seq<Sig>, g: Sig)
    ensures Unowned(words, chosen + [g]) == Unowned(words, chosen) - Taken(Unowned(words, chosen), g).Keys
  {
    forall w ensures First(chosen + [g], w).None? <==> First(chosen, w).None? && !(g <= w) {
      FirstAppend(chosen, g, w);
    }
  }

  lemma GroupLeaves(f: Sig, words: Words, groups: set<Sig>, g: Sig)
    requires g in groups
    ensures Total(InGroups(f, words, groups)) == Total(InGroups(f, words, groups - {g})) + Sum(f, words, g)
  {
    var all, one := InGroups(f, words, groups), InGroups(f, words, {g});
    TotalSplit(all, one.Keys);
    assert (map w | w in all && w in one.Keys :: all[w]) == one;
    assert all - one.Keys == InGroups(f, words, groups - {g});
  }

  lemma OneMoreWord(f: Sig, words: Words, w: Sig, list: set<nat>)
    requires w !in words
    ensures Total(words[w := list]) == Total(words) + |list|
    ensures Groups(f, words[w := list]) == Groups(f, words) + {GroupOf(f, w, list)}
  {
    var more := words[w := list];
    TotalMinus(more, w);
    assert more - {w} == words;
    assert forall v :: v in words ==> more[v] == words[v];
  }

  lemma OneMoreInGroup(f: Sig, words: Words, w: Sig, list: set<nat>, g: Sig)
    requires w !in words
    ensures Sum(f, words[w := list], g) == Sum(f, words, g) + if g == GroupOf(f, w, list) then |list| else 0
  {
    var more := words[w := list];
    if g == GroupOf(f, w, list) {
      TotalMinus(InGroups(f, more, {g}), w);
      assert InGroups(f, more, {g}) - {w} == InGroups(f, words, {g});
    } else {
      assert InGroups(f, more, {g}) == InGroups(f, words, {g});
    }
  }

  lemma MaxExists(sums: map<Sig, nat>)
    requires sums != map[]
    ensures exists g :: g in sums && forall h :: h in sums ==> sums[h] <= sums[g]
  {
    var k :| k in sums;
    var rest := sums - {k};
    if rest != map[] {
      MaxExists(rest);
      var g :| g in rest && forall h :: h in rest ==> rest[h] <= rest[g];
      var best := if sums[k] >= sums[g] then k else g;
      assert forall h :: h in sums ==> h == k || h in rest;
      assert best in sums && forall h :: h in sums ==> sums[h] <= sums[best];
    } else {
      assert forall h :: h in sums ==> h == k || h in rest;
      assert k in sums && forall h :: h in sums ==> sums[h] <= sums[k];
    }
  }

  /** A container split off: its file, its lists, and whether any list has ids. */
  datatype Piece = Piece(sig: Sig, words: Words, changed: bool)

  function Names(pieces: seq<Piece>): (r: seq<Sig>)
    ensures |r| == |pieces|
  {
    seq(|pieces|, i requires 0 <= i < |pieces| => pieces[i].sig)
  }

  /** The i-th container split off: it starts with its own name and takes the
      lists that the earlier ones left. */
  function PieceAt(words: Words, chosen: seq<Sig>, i: nat): Piece
    requires i < |chosen|
  {
    SplitPiece(Unowned(words, chosen[..i]), chosen[i])
  }

  /** A new container for g, taking its lists. */
  function SplitPiece(words: Words, g: Sig): Piece {
    var taken := Taken(words, g);
    Piece(g, map[g := {}] + taken, NonEmpty(taken) != map[])
  }

  ghost predicate ArePieces(words: Words, pieces: seq<Piece>) {
    forall i :: 0 <= i < |pieces| ==> pieces[i] == PieceAt(words, Names(pieces), i)
  }

  lemma FirstAt(chosen: seq<Sig>, i: nat, w: Sig)
    requires i < |chosen| && forall j, k :: 0 <= j < k < |chosen| ==> chosen[j] != chosen[k]
    ensures First(chosen, w) == Some(chosen[i]) <==> First(chosen[..i], w).None? && chosen[i] <= w
  {
    FirstMeaning(chosen, w);
    FirstMeaning(chosen[..i], w);
  }

  lemma PieceIsOwned(words: Words, chosen: seq<Sig>, i: nat)
    requires i < |chosen| && forall j, k :: 0 <= j < k < |chosen| ==> chosen[j] != chosen[k]
    ensures var piece := PieceAt(words, chosen, i);
      && NonEmpty(piece.words) == OwnedBy(words, chosen, Some(chosen[i]))
      && (piece.changed <==> OwnedBy(words, chosen, Some(chosen[i])) != map[])
  {
    var taken := Taken(Unowned(words, chosen[..i]), chosen[i]);
    forall w ensures First(chosen, w) == Some(chosen[i]) <==> First(chosen[..i], w).None? && chosen[i] <= w {
      FirstAt(chosen, i, w);
    }
    assert NonEmpty(taken) == OwnedBy(words, chosen, Some(chosen[i]));
    assert NonEmpty(PieceAt(words, chosen, i).words) == NonEmpty(taken);
  }

  /** The files when the first i of the split containers have been saved. */
  ghost function PartlySaved(files: Files, f: Sig, words: Words, chosen: seq<Sig>, i: nat): Files
    requires i <= |chosen|
  {
    var saved := SavedFiles(files, f, words, chosen);
    map h | h in saved :: if h in chosen[i..] then map[] else saved[h]
  }

  lemma PieceSaved(files: Files, f: Sig, words: Words, chosen: seq<Sig>, i: nat)
    requires i < |chosen| && forall j, k :: 0 <= j < k < |chosen| ==> chosen[j] != chosen[k]
    ensures chosen[i] in PartlySaved(files, f, words, chosen, i)
    ensures PartlySaved(files, f, words, chosen, i)[chosen[i]] == map[]
    ensures PartlySaved(files, f, words, chosen, i + 1) ==
            PartlySaved(files, f, words, chosen, i)[chosen[i] := OwnedBy(words, chosen, Some(chosen[i]))]
  {
    hide SavedFiles, OwnedBy;
    ChosenIsSaved(files, f, words, chosen, i);
    assert chosen[i..] == [chosen[i]] + chosen[i + 1..];
    var later := chosen[i + 1..];
    assert forall k :: 0 <= k < |later| ==> later[k] != chosen[i];
  }

  lemma ChosenIsSaved(files: Files, f: Sig, words: Words, chosen: seq<Sig>, i: nat)
    requires i < |chosen|
    ensures var saved := SavedFiles(files, f, words, chosen);
            chosen[i] in saved && saved[chosen[i]] == OwnedBy(words, chosen, Some(chosen[i]))
  {
    hide OwnedBy;
    assert chosen[i] in chosen;
  }

  ghost predicate SumsOk(f: Sig, words: Words, total: nat, sums: map<Sig, nat>) {
    && total == Total(words) && sums.Keys == Groups(f, words)
    && forall g :: g in sums ==> sums[g] == Sum(f, words, g)
  }

  lemma SumsGrow(f: Sig, words: Words, w: Sig, list: set<nat>, total: nat, sums: map<Sig, nat>, sums': map<Sig, nat>)
    requires w !in words && SumsOk(f, words, total, sums)
    requires var g := GroupOf(f, w, list); sums' == sums[g := (if g in sums then sums[g] else 0) + |list|]
    ensures SumsOk(f, words[w := list], total + |list|, sums')
  {
    var g := GroupOf(f, w, list);
    OneMoreWord(f, words, w, list);
    forall h | h in sums' ensures sums'[h] == Sum(f, words[w := list], h) {
      OneMoreInGroup(f, words, w, list, h);
    }
  }

  /** The empty files made for the chosen names. */
  function Created(chosen: seq<Sig>): Files {
    map g | g in Elements(chosen) :: map[]
  }

  /** The state of the splitting loop. */
  ghost predicate SplitState(f: Sig, all: Words, words: Words, names: seq<Sig>, total: nat, sums: map<Sig, nat>) {
    && IsPartialSelection(f, all, names)
    && sums.Keys == Groups(f, all) - Elements(names)
    && (forall g :: g in sums ==> sums[g] == Sum(f, all, g))
    && total == Total(InGroups(f, all, sums.Keys))
    && words == Unowned(all, names)
  }

  lemma SplitStart(f: Sig, all: Words, total: nat, sums: map<Sig, nat>)
    requires SumsOk(f, all, total, sums)
    ensures SplitState(f, all, all, [], total, sums)
  {
    hide Groups, InGroups, Total, Sum, Unowned, IsPartialSelection;
    AllInGroups(f, all);
    NothingSplit(map[], all);
    NothingChosen(f, all);
    assert Elements<Sig>([]) == {};
  }

  lemma AllInGroups(f: Sig, all: Words)
    ensures InGroups(f, all, Groups(f, all)) == all
  {}

  lemma SplitEnd(f: Sig, all: Words, words: Words, names: seq<Sig>, total: nat, sums: map<Sig, nat>)
    requires SplitState(f, all, words, names, total, sums) && (total <= MAX_ITEMS || sums == map[])
    ensures IsSelection(f, all, names) && words == Unowned(all, names)
  {
    if sums == map[] {
      NoGroups(f, all);
    }
  }

  lemma NothingSplit(files: Files, all: Words)
    ensures all == Unowned(all, []) && files == files + Created([])
    ensures Names([]) == [] && ArePieces(all, [])
  {}

  lemma PiecesGrow(all: Words, pieces: seq<Piece>, piece: Piece)
    requires ArePieces(all, pieces)
    requires piece == PieceAt(all, Names(pieces) + [piece.sig], |pieces|)
    ensures ArePieces(all, pieces + [piece]) && Names(pieces + [piece]) == Names(pieces) + [piece.sig]
  {
    var names, names' := Names(pieces), Names(pieces + [piece]);
    assert names' == names + [piece.sig];
    forall i | 0 <= i < |pieces| ensures PieceAt(all, names', i) == PieceAt(all, names, i) {
      assert names'[..i] == names[..i];
    }
  }

  lemma SplitNext(f: Sig, all: Words, words: Words, names: seq<Sig>, total: nat, sums: map<Sig, nat>, g: Sig)
    requires SplitState(f, all, words, names, total, sums) && total > MAX_ITEMS
    requires g in sums && forall h :: h in sums ==> sums[h] <= sums[g]
    ensures total >= sums[g] && IsPartialSelection(f, all, names + [g])
    ensures SplitState(f, all, words - Taken(words, g).Keys, names + [g], total - sums[g], sums - {g})
  {
    GroupLeaves(f, all, sums.Keys, g);
    PickIs(f, all, Groups(f, all) - Elements(names), g);
    SelectionGrows(f, all, names, g);
    UnownedAppend(all, names, g);
    assert sums.Keys - {g} == (sums - {g}).Keys == Groups(f, all) - Elements(names + [g]);
  }

  /** One more container split off, its name being new. */
  lemma SplitsGrow(files: Files, f: Sig, all: Words, pieces: seq<Piece>, words: Words, g: Sig, piece: Piece)
    requires Fits(files, f, all) && |f| < MAX_HASH_LEN && IsPartialSelection(f, all, Names(pieces) + [g])
    requires ArePieces(all, pieces) && words == Unowned(all, Names(pieces))
    ensures g !in files + Created(Names(pieces))
    ensures files + Created(Names(pieces) + [g]) == (files + Created(Names(pieces)))[g := map[]]
    ensures piece == SplitPiece(words, g) ==> ArePieces(all, pieces + [piece])
  {
    hide Fits, IsPartialSelection, ArePieces, Unowned, Created, SplitPiece;
    NewName(files, f, all, Names(pieces), g);
    CreatedGrows(files, Names(pieces), g);
    if piece == SplitPiece(words, g) {
      PieceIs(all, pieces, words, g);
      PiecesGrow(all, pieces, piece);
    }
  }

  lemma PieceIs(all: Words, pieces: seq<Piece>, words: Words, g: Sig)
    requires words == Unowned(all, Names(pieces))
    ensures SplitPiece(words, g) == PieceAt(all, Names(pieces) + [g], |pieces|) && SplitPiece(words, g).sig == g
  {
    assert (Names(pieces) + [g])[..|pieces|] == Names(pieces);
  }

  lemma SplitStateWords(f: Sig, all: Words, words: Words, names: seq<Sig>, total: nat, sums: map<Sig, nat>)
    requires SplitState(f, all, words, names, total, sums)
    ensures words == Unowned(all, names)
  {}

  lemma NamesGrow(pieces: seq<Piece>, piece: Piece)
    ensures Names(pieces + [piece]) == Names(pieces) + [piece.sig]
  {}

  lemma NewName(files: Files, f: Sig, all: Words, chosen: seq<Sig>, g: Sig)
    requires Fits(files, f, all) && |f| < MAX_HASH_LEN && IsPartialSelection(f, all, chosen + [g])
    ensures g !in files && g !in chosen
  {
    SelectionSplits(files, f, all, chosen + [g]);
    assert g in chosen + [g] && (chosen + [g])[|chosen|] == g;
    ChosenIsNew(files, f, all, chosen + [g], g);
    forall i | 0 <= i < |chosen| ensures chosen[i] != g {
      assert (chosen + [g])[i] == chosen[i];
    }
  }

  lemma CreatedGrows(files: Files, chosen: seq<Sig>, g: Sig)
    requires g !in files && g !in chosen
    ensures g !in files + Created(chosen)
    ensures files + Created(chosen + [g]) == (files + Created(chosen))[g := map[]]
  {
    assert Elements(chosen + [g]) == Elements(chosen) + {g};
  }

  function Written(files: Files, f: Sig, words: Words): Files {
    if NonEmpty(words) == map[] then files - {f} else files[f := NonEmpty(words)]
  }

  lemma SelfSaved(files: Files, f: Sig, all: Words, chosen: seq<Sig>)
    requires f !in chosen
    ensures Written(files + Created(chosen), f, Unowned(all, chosen)) == PartlySaved(files, f, all, chosen, 0)
  {
    var now, goal := Written(files + Created(chosen), f, Unowned(all, chosen)), PartlySaved(files, f, all, chosen, 0);
    forall h ensures h in now <==> h in goal
             ensures h in now && h in goal ==> now[h] == goal[h]
    {
      SelfSavedAt(files, f, all, chosen, h);
    }
    hide *;
    assert now == goal;
  }

  lemma SelfSavedAt(files: Files, f: Sig, all: Words, chosen: seq<Sig>, h: Sig)
    requires f !in chosen
    ensures var now := Written(files + Created(chosen), f, Unowned(all, chosen));
      var goal := PartlySaved(files, f, all, chosen, 0);
      (h in now <==> h in goal) && (h in now ==> now[h] == goal[h])
  {
    assert NonEmpty(Unowned(all, chosen)) == OwnedBy(all, chosen, None);
    assert chosen[0..] == chosen;
  }

  lemma AllSaved(files: Files, f: Sig, all: Words, chosen: seq<Sig>)
    ensures PartlySaved(files, f, all, chosen, |chosen|) == SavedFiles(files, f, all, chosen)
  {
    assert chosen[|chosen|..] == [];
  }

  /** A split container keeps at most 12288 ids, and one that has no more is not split. */
  lemma SplitIsNeeded(files: Files, f: Sig, words: Words, chosen: seq<Sig>)
    requires IsSelection(f, words, chosen) && f !in chosen
    ensures var saved := SavedFiles(files, f, words, chosen); f in saved ==> Total(saved[f]) <= 12288
    ensures Total(words) <= 12288 ==> chosen == []
  {
    SplitFits(f, words, chosen);
    if chosen != [] {
      assert Picks(f, words, Groups(f, words) - Elements(chosen[..0]), chosen[0]);
      MoreGroups(f, words, Groups(f, words) - Elements(chosen[..0]), Groups(f, words));
      AllInGroups(f, words);
    }
  }

  lemma NamesDiffer(f: Sig, words: Words, chosen: seq<Sig>)
    requires Splittable(f, words, chosen)
    ensures forall i, j :: 0 <= i < j < |chosen| ==> chosen[i] != chosen[j]
  {}

  lemma SavedUnsplit(files: Files, f: Sig, words: Words)
    ensures Written(files, f, words) == SavedFiles(files, f, words, [])
  {
    assert NonEmpty(words) == OwnedBy(words, [], None);
  }

  class PostingFiles {
    var files: Files

    constructor ()
      ensures files == map[]
    {
      files := map[];
    }

    /** Write the lists that are not empty, or remove a file that has none. */
    method Write(f: Sig, words: Words)
      modifies this
      ensures files == Written(old(files), f, words)
    {
      var output := NonEmpty(words);
      if output == map[] {
        files := files - {f};
      } else {
        files := files[f := output];
      }
    }

    /** `PostingList.hits`, through a freshly loaded container. */
    method Hits(sig: Sig) returns (ids: set<nat>)
      requires IsHash(sig)
      ensures ids == Lookup(files, sig)
    {
      var plc := new PostingListContainer.Load(this, sig);
      RouteIsLongest(files.Keys, sig);
      ids := Get(plc.words, sig);
    }
  }

  class PostingListContainer {
    var sig: Sig
    var words: Words
    var changes: nat

    constructor Load(store: PostingFiles, w: Sig)
      requires IsHash(w)
      ensures sig == Route(store.files.Keys, w) && words == Loaded(store.files, sig) && changes == 0
    {
      var name := w;
      while name !in store.files && |name| > 1
        invariant Route(store.files.Keys, name) == Route(store.files.Keys, w)
        decreases |name|
      {
        name := name[..|name| - 1];
      }
      sig := name;
      words := Loaded(store.files, name);
      changes := 0;
    }

    method Add(w: Sig, ids: set<nat>)
      modifies this
      ensures words == Added(old(words), w, ids) && changes == old(changes) + |ids| && sig == old(sig)
    {
      changes := changes + |ids|;
      if w in words {
        words := words[w := words[w] + ids];
      } else {
        words := words[w := ids];
      }
    }

    method Remove(w: Sig, ids: set<nat>)
      modifies this
      ensures words == Removed(old(words), w, ids) && changes == old(changes) + |ids| && sig == old(sig)
    {
      changes := changes + |ids|;
      if w in words {
        words := words[w := words[w] - ids];
        if words[w] == {} {
          words := words - {w};
        }
      }
    }

    /** Counts the ids taken out; zero means that nothing changed. */
    method PurgeDeleted(deletedSig: Sig, deleted: set<nat>) returns (count: nat)
      modifies this
      ensures words == Purged(old(words), deletedSig, deleted) && sig == old(sig)
      ensures changes == old(changes) + count
      ensures count == 0 <==> words == old(words)
      ensures words.Keys == old(words).Keys
      ensures forall w :: w in words ==> words[w] <= old(words)[w] <= words[w] + deleted
      ensures forall w :: w in words ==> if w == deletedSig then words[w] == old(words)[w] else words[w] !! deleted
    {
      count := 0;
      var todo := words.Keys;
      while todo != {}
        modifies this`words
        invariant todo <= words.Keys && words == PurgedBut(old(words), deletedSig, deleted, todo)
        invariant count == 0 <==> words == old(words)
        decreases todo
      {
        hide PurgedBut;
        var w :| w in todo;
        PurgedNext(old(words), deletedSig, deleted, todo, w);
        var overlap := words[w] * deleted;
        if w != deletedSig && overlap != {} {
          words := words[w := words[w] - overlap];
          count := count + |overlap|;
        }
        todo := todo - {w};
      }
      changes := changes + count;
    }

    /** Add up the sizes of the groups the lists fall in. */
    method GroupSums() returns (total: nat, sums: map<Sig, nat>)
      ensures SumsOk(sig, words, total, sums)
    {
      total, sums := 0, map[];
      var todo := words.Keys;
      ghost var done: Words := map[];
      while todo != {}
        invariant todo <= words.Keys && done.Keys == words.Keys - todo
        invariant forall w :: w in done ==> done[w] == words[w]
        invariant SumsOk(sig, done, total, sums)
        decreases todo
      {
        hide SumsOk;
        var w :| w in todo;
        var list := words[w];
        var g := GroupOf(sig, w, list);
        ghost var before := sums;
        if g in sums {
          sums := sums[g := sums[g] + |list|];
        } else {
          sums := sums[g := |list|];
        }
        SumsGrow(sig, done, w, list, total, before, sums);
        total := total + |list|;
        todo := todo - {w};
        done := done[w := list];
      }
      assert done == words;
    }

    /** Move the lists under g to a container for file g, which is new if the store
        is in order. */
    method SplitOff(store: PostingFiles, g: Sig) returns (piece: Piece)
      modifies this`words, store
      ensures store.files == if g in old(store.files) then old(store.files) else old(store.files)[g := map[]]
      ensures piece.sig == g && words == old(words) - Taken(old(words), g).Keys
      ensures piece.words == Joined(Loaded(old(store.files), g), Taken(old(words), g))
      ensures g !in old(store.files) ==> piece == SplitPiece(old(words), g)
    {
      if g !in store.files {
        store.files := store.files[g := map[]];
      }
      var taken := Taken(words, g);
      piece := Piece(g, Joined(Loaded(store.files, g), taken), NonEmpty(taken) != map[]);
      JoinedNew(taken, g);
      words := words - taken.Keys;
    }

    /** Split off the largest groups until the rest is small enough.  Each new
        container's file is created at once, and is written when it is saved. */
    method Splits(store: PostingFiles) returns (pieces: seq<Piece>)
      modifies this`words, store
      ensures |sig| < MAX_HASH_LEN ==> IsSelection(sig, old(words), Names(pieces))
      ensures |sig| >= MAX_HASH_LEN ==> pieces == []
      ensures words == Unowned(old(words), Names(pieces))
      ensures Fits(old(store.files), sig, old(words)) ==>
        ArePieces(old(words), pieces) && store.files == old(store.files) + Created(Names(pieces))
    {
      hide SplitState, SumsOk, Created, Taken, Fits, InGroups, Unowned, ArePieces, SplitPiece, IsSelection, IsPartialSelection;
      pieces := [];
      ghost var all, before := words, store.files;
      NothingSplit(store.files, all);
      if |sig| < MAX_HASH_LEN {
        var total: nat, sums: map<Sig, nat> := GroupSums();
        SplitStart(sig, all, total, sums);
        while total > MAX_ITEMS && sums != map[]
          invariant SplitState(sig, all, words, Names(pieces), total, sums)
          invariant Fits(before, sig, all) ==>
            ArePieces(all, pieces) && store.files == before + Created(Names(pieces))
          decreases sums.Keys
        {
          MaxExists(sums);
          var g :| g in sums && forall h :: h in sums ==> sums[h] <= sums[g];
          ghost var now := words;
          SplitNext(sig, all, words, Names(pieces), total, sums, g);
          var piece := SplitOff(store, g);
          if Fits(before, sig, all) {
            SplitStateWords(sig, all, now, Names(pieces), total, sums);
            SplitsGrow(before, sig, all, pieces, now, g, piece);
          }
          NamesGrow(pieces, piece);
          pieces := pieces + [piece];
          total, sums := total - sums[g], sums - {g};
        }
        SplitEnd(sig, all, words, Names(pieces), total, sums);
      }
    }

    /** Save the containers split off; ok says that the store was in order. */
    static method SavePieces(store: PostingFiles, pieces: seq<Piece>,
                             ghost ok: bool, ghost before: Files, ghost f: Sig, ghost all: Words)
      requires ok ==>
        && ArePieces(all, pieces)
        && (forall i, j :: 0 <= i < j < |pieces| ==> Names(pieces)[i] != Names(pieces)[j])
        && store.files == PartlySaved(before, f, all, Names(pieces), 0)
      modifies store
      ensures ok ==> store.files == SavedFiles(before, f, all, Names(pieces))
    {
      hide SavedFiles, PartlySaved, OwnedBy, PieceAt;
      var i := 0;
      while i < |pieces|
        invariant 0 <= i <= |pieces|
        invariant ok ==> store.files == PartlySaved(before, f, all, Names(pieces), i)
      {
        if ok {
          PieceSaved(before, f, all, Names(pieces), i);
          PieceIsOwned(all, Names(pieces), i);
        }
        if pieces[i].changed {
          store.Write(pieces[i].sig, pieces[i].words);
        }
        i := i + 1;
      }
      AllSaved(before, f, all, Names(pieces));
    }

    /** Save the container, or split it and save the parts. */
    method Save(store: PostingFiles, split: bool) returns (ghost chosen: seq<Sig>)
      modifies this, store
      ensures sig == old(sig) && changes == 0
      ensures old(changes) == 0 ==> store.files == old(store.files)
      ensures old(changes) > 0 ==> if split then MaySplit(sig, old(words), chosen) else chosen == []
      ensures old(changes) > 0 && Fits(old(store.files), sig, old(words)) ==>
        store.files == SavedFiles(old(store.files), sig, old(words), chosen)
      ensures old(changes) > 0 && split && |old(words)| > 1 && |sig| < 24 && Fits(old(store.files), sig, old(words)) ==>
        && (sig in store.files ==> Total(store.files[sig]) <= 12288)
        && (Total(old(words)) <= 12288 ==> chosen == [])
    {
      hide SavedFiles, PartlySaved, Fits, OwnedBy, Unowned, IsSelection, PieceAt, Splittable;
      chosen := [];
      if changes == 0 {
        return;
      }
      ghost var before, all := store.files, words;
      ghost var ok := Fits(before, sig, all);
      if split && |words| > 1 {
        var pieces := Splits(store);
        chosen := Names(pieces);
        store.Write(sig, words);
        if ok {
          MaySplitIsSplittable(before, sig, all, chosen);
          NamesDiffer(sig, all, chosen);
          SelfSaved(before, sig, all, chosen);
          if |sig| < MAX_HASH_LEN { SplitIsNeeded(before, sig, all, chosen); }
        }
        changes := 0;
        SavePieces(store, pieces, ok, before, sig, all);
      } else {
        SavedUnsplit(before, sig, all);
        store.Write(sig, words);
        changes := 0;
      }
    }
  }
}
