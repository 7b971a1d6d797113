/** Runs of the posting list store, against a plain map from hash to ids. */
module PostingRuns {
  import opened Wrappers
  import opened PostingStore
  import opened PostingContainers

  datatype Op = Append(w: Sig, ids: set<nat>) | Remove(w: Sig, ids: set<nat>)

  function Apply(op: Op, words: Words): Words {
    match op
    case Append(w, ids) => Added(words, w, ids)
    case Remove(w, ids) => Removed(words, w, ids)
  }

  /** The file and the lists that op changes, as they are when they are saved. */
  function FileOf(files: Files, op: Op): Sig {
    Route(files.Keys, op.w)
  }

  function ListsOf(files: Files, op: Op): Words {
    Apply(op, Loaded(files, FileOf(files, op)))
  }

  /** Load the container for op's hash, change it, save it: with no ids there is
      nothing to save, otherwise the container is saved with possible splits. */
  ghost predicate Step(files: Files, op: Op, files': Files) {
    if op.ids == {} then files' == files
    else exists chosen :: MaySplit(FileOf(files, op), ListsOf(files, op), chosen) &&
                          files' == SavedFiles(files, FileOf(files, op), ListsOf(files, op), chosen)
  }

  /** The container to be saved cannot nest. */
  ghost predicate Safe(files: Files, op: Op) {
    op.ids == {} || !MayNest(FileOf(files, op), ListsOf(files, op))
  }

  method Perform(store: PostingFiles, op: Op)
    requires IsHash(op.w)
    modifies store
    ensures StoreInv(old(store.files)) ==> Step(old(store.files), op, store.files)
  {
    hide StoreInv, Fits, SavedFiles, MaySplit;
    ghost var files := store.files;
    if StoreInv(files) { ApplyFits(files, op); }
    var plc := new PostingListContainer.Load(store, op.w);
    match op {
      case Append(w, ids) => plc.Add(w, ids);
      case Remove(w, ids) => plc.Remove(w, ids);
    }
    var _ := plc.Save(store, true);
  }

  lemma ApplyFits(files: Files, op: Op)
    requires StoreInv(files) && IsHash(op.w)
    ensures Fits(files, FileOf(files, op), ListsOf(files, op))
  {
    LoadedFits(files, op.w);
  }

  /** The plain map. */
  function Plain(ops: seq<Op>, w: Sig): set<nat> {
    if ops == [] then {} else
      var last := ops[|ops| - 1];
      var before := Plain(ops[..|ops| - 1], w);
      if last.w != w then before
      else match last
        case Append(_, ids) => before + ids
        case Remove(_, ids) => before - ids
  }

  function Expected(files: Files, op: Op, w: Sig): set<nat> {
    if w != op.w then Lookup(files, w)
    else if op.Append? then Lookup(files, w) + op.ids else Lookup(files, w) - op.ids
  }

  lemma ViewAfter(files: Files, op: Op, w: Sig)
    requires StoreInv(files) && IsHash(w) && IsHash(op.w)
    ensures View(files, FileOf(files, op), ListsOf(files, op), w) == Expected(files, op, w)
  {}

  /** Every word finds what the plain map would hold. */
  ghost predicate Refines(files: Files, op: Op, files': Files) {
    forall w :: IsHash(w) ==> Lookup(files', w) == Expected(files, op, w)
  }

  lemma KeptRefines(files: Files, op: Op, chosen: seq<Sig>)
    requires StoreInv(files) && IsHash(op.w)
    ensures var f, words := FileOf(files, op), ListsOf(files, op);
      KeepsLookups(files, f, words, chosen) <==> Refines(files, op, SavedFiles(files, f, words, chosen))
  {
    forall w | IsHash(w)
      ensures View(files, FileOf(files, op), ListsOf(files, op), w) == Expected(files, op, w)
    {
      ViewAfter(files, op, w);
    }
    hide StoreInv, SavedFiles, Lookup, View, Expected, FileOf, ListsOf;
  }

  /** A step changes the list of its hash as the plain map does, and no other,
      whatever it chooses, exactly when its container cannot nest. */
  lemma StepRefinesExactly(files: Files, op: Op)
    requires StoreInv(files) && IsHash(op.w)
    ensures (forall files' :: Step(files, op, files') ==> Refines(files, op, files')) <==> Safe(files, op)
    ensures Safe(files, op) ==> forall files' :: Step(files, op, files') ==> StoreInv(files')
  {
    hide StoreInv, Fits, SavedFiles, MaySplit, KeepsLookups, MayNest, FileOf, ListsOf, Refines;
    var f, words := FileOf(files, op), ListsOf(files, op);
    ApplyFits(files, op);
    SaveIsSafeExactly(files, f, words);
    forall chosen ensures KeepsLookups(files, f, words, chosen) <==> Refines(files, op, SavedFiles(files, f, words, chosen)) {
      KeptRefines(files, op, chosen);
    }
    if op.ids == {} {
      NothingChanges(files, op);
    } else {
      forall chosen | MaySplit(f, words, chosen) ensures Step(files, op, SavedFiles(files, f, words, chosen)) {}
    }
  }

  lemma NothingChanges(files: Files, op: Op)
    requires op.ids == {}
    ensures Refines(files, op, files)
  {}

  /** A run from the empty store. */
  ghost predicate IsRun(states: seq<Files>, ops: seq<Op>) {
    && |states| == |ops| + 1 && states[0] == map[]
    && forall i :: 0 <= i < |ops| ==> IsHash(ops[i].w) && Step(states[i], ops[i], states[i + 1])
  }

  /** From an empty store, after any run of appends and removals in which no saved
      container could nest, whatever the splits: looking a hash up through its
      longest existing prefix gives what the plain map holds. */
  lemma {:induction false} RunRefines(states: seq<Files>, ops: seq<Op>)
    requires IsRun(states, ops) && forall i :: 0 <= i < |ops| ==> Safe(states[i], ops[i])
    ensures StoreInv(states[|ops|])
    ensures forall w :: IsHash(w) ==> Lookup(states[|ops|], w) == Plain(ops, w)
  {
    hide Step, Safe, Lookup;
    if ops == [] {
      NothingStored();
    } else {
      var n := |ops| - 1;
      RunRefines(states[..n + 1], ops[..n]);
      StepRefinesExactly(states[n], ops[n]);
      assert Refines(states[n], ops[n], states[n + 1]);
    }
  }

  lemma NothingStored()
    ensures StoreInv(map[]) && forall w :: Lookup(map[], w) == {}
  {}

  lemma ListsStaySmall(files: Files, op: Op)
    requires StoreInv(files) && IsHash(op.w)
    requires forall w :: IsHash(w) ==> |Expected(files, op, w)| < MAX_ITEMS / 2
    ensures Safe(files, op)
  {
    var f, words := FileOf(files, op), ListsOf(files, op);
    ApplyFits(files, op);
    if w :| NestsAt(f, words, w) {
      RouteSelf(files.Keys, f) by { RouteIsLongest(files.Keys, op.w); }
      ViewAfter(files, op, w);
      assert false;
    }
  }

  ghost predicate Small(ops: seq<Op>) {
    forall w :: IsHash(w) ==> |Plain(ops, w)| < MAX_ITEMS / 2
  }

  /** In particular, after any run in which no list reaches MAX_ITEMS / 2 ids. */
  lemma {:induction false} SmallRunRefines(states: seq<Files>, ops: seq<Op>)
    requires IsRun(states, ops) && forall i :: 0 <= i <= |ops| ==> Small(ops[..i])
    ensures forall i :: 0 <= i < |ops| ==> Safe(states[i], ops[i])
    ensures StoreInv(states[|ops|])
    ensures forall w :: IsHash(w) ==> Lookup(states[|ops|], w) == Plain(ops, w)
  {
    hide Step, Safe, Lookup, Small, StoreInv, Plain;
    if ops != [] {
      var n := |ops| - 1;
      assert forall i :: 0 <= i <= n ==> ops[..n][..i] == ops[..i];
      assert ops[..n + 1] == ops;
      SmallRunRefines(states[..n + 1], ops[..n]);
      assert forall i :: 0 <= i < n ==> Safe(states[..n + 1][i], ops[..n][i]);
      LastIsSafe(states[n], ops);
    }
    RunRefines(states, ops);
  }

  lemma LastIsSafe(files: Files, ops: seq<Op>)
    requires ops != [] && StoreInv(files) && IsHash(ops[|ops| - 1].w) && Small(ops)
    requires forall w :: IsHash(w) ==> Lookup(files, w) == Plain(ops[..|ops| - 1], w)
    ensures Safe(files, ops[|ops| - 1])
  {
    var op := ops[|ops| - 1];
    forall w | IsHash(w) ensures |Expected(files, op, w)| < MAX_ITEMS / 2 {
      assert Expected(files, op, w) == Plain(ops, w);
    }
    hide StoreInv, Lookup, Safe, Plain;
    ListsStaySmall(files, op);
  }
}
