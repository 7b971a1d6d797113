/** The global posting list: a journal of recent additions in front of the
    posting list files.  Optimizing moves journal entries to the files and takes
    deleted messages out of them. */
module Journal {
  import opened Wrappers
  import opened PostingStore
  import opened PostingContainers
  import opened PostingRuns

  /** The journal key that remembers the largest message id; never migrated. */
  const TRACKER: Sig := "_MAX_MSGID_"

  type Entries = map<Sig, set<nat>>

  /** `GlobalPostingList.hits`: what the journal and the files know. */
  function AllHits(journal: Entries, files: Files, w: Sig): set<nat> {
    Get(journal, w) + Lookup(files, w)
  }

  ghost predicate JournalOk(journal: Entries) {
    forall w :: w in journal ==> IsHash(w) || (w == TRACKER && journal[w] != {})
  }

  /** The remembered largest id alone is at least n. */
  ghost predicate Tracks(journal: Entries, n: nat) {
    n == 0 || (TRACKER in journal && exists id :: id in journal[TRACKER] && n <= id)
  }

  /** Some journal entry holds an id of at least n. */
  ghost predicate Covers(journal: Entries, n: nat) {
    n == 0 || exists w, id :: w in journal && id in journal[w] && n <= id
  }

  ghost predicate AllSmall(journal: Entries, files: Files) {
    forall w :: IsHash(w) ==> |AllHits(journal, files, w)| < MAX_ITEMS / 2
  }

  lemma SmallSubset(a: set<nat>, b: set<nat>)
    requires a <= b
    ensures |a| <= |b|
  {
    assert b == a + (b - a);
  }

  /** Every id in the journal is at most the remembered largest id. */
  ghost predicate TracksAll(journal: Entries) {
    forall w, id :: w in journal && id in journal[w] ==> Tracks(journal, id)
  }

  lemma EntryLeaves(journal: Entries, sig: Sig)
    requires TracksAll(journal) && sig != TRACKER
    ensures TracksAll(journal - {sig})
    ensures forall n :: Covers(journal, n) ==> Covers(journal - {sig}, n)
  {
    var rest := journal - {sig};
    forall n | Tracks(journal, n) ensures Tracks(rest, n) && Covers(rest, n) {
      if n != 0 {
        var t :| t in journal[TRACKER] && n <= t;
        assert t in rest[TRACKER];
      }
    }
    forall n | Covers(journal, n) ensures Covers(rest, n) {
      if n != 0 {
        var w, id :| w in journal && id in journal[w] && n <= id;
        assert Tracks(journal, id);
        assert Tracks(rest, n);
      }
    }
  }

  // ----- What a pass does to the files

  /** One container loaded, changed and saved: to take in a journal entry, or to
      take deleted ids out of its lists. */
  datatype Job = Move(w: Sig, ids: set<nat>) | Purge(w: Sig)

  /** The deleted ids, and the word that records them. */
  datatype Deletion = Deletion(sig: Sig, ids: set<nat>)

  function JobFile(files: Files, job: Job): Sig {
    Route(files.Keys, job.w)
  }

  function JobLists(files: Files, job: Job, del: Deletion): Words {
    var loaded := Loaded(files, JobFile(files, job));
    match job
    case Move(w, ids) => Added(loaded, w, ids)
    case Purge(_) => Purged(loaded, del.sig, del.ids)
  }

  predicate NothingToSave(files: Files, job: Job, del: Deletion) {
    match job
    case Move(_, ids) => ids == {}
    case Purge(_) => JobLists(files, job, del) == Loaded(files, JobFile(files, job))
  }

  ghost predicate JobStep(files: Files, job: Job, del: Deletion, files': Files) {
    var f, words := JobFile(files, job), JobLists(files, job, del);
    if NothingToSave(files, job, del) then files' == files
    else exists chosen :: MaySplit(f, words, chosen) && files' == SavedFiles(files, f, words, chosen)
  }

  /** The container that is saved, if one is, cannot nest. */
  ghost predicate JobSafe(files: Files, job: Job, del: Deletion) {
    NothingToSave(files, job, del) || !MayNest(JobFile(files, job), JobLists(files, job, del))
  }

  /** A move adds the ids to one list.  A purge takes the deleted ids out of all lists
      of its container, but none out of the list that records them. */
  ghost predicate JobDone(files: Files, job: Job, del: Deletion, files': Files) {
    && StoreInv(files')
    && (job.Move? ==> forall w :: IsHash(w) ==>
          Lookup(files', w) == if w == job.w then Lookup(files, w) + job.ids else Lookup(files, w))
    && (job.Purge? ==>
          && (forall w :: IsHash(w) ==> Lookup(files', w) <= Lookup(files, w) <= Lookup(files', w) + del.ids)
          && (forall w :: IsHash(w) && w != del.sig && Route(files.Keys, w) == Route(files.Keys, job.w) ==>
                Lookup(files', w) !! del.ids)
          && (forall w :: IsHash(w) && Route(files.Keys, w) != Route(files.Keys, job.w) ==> Lookup(files', w) == Lookup(files, w))
          && (IsHash(del.sig) ==> Lookup(files', del.sig) == Lookup(files, del.sig)))
  }

  lemma MoveIsStep(files: Files, sig: Sig, ids: set<nat>, del: Deletion, files': Files)
    ensures Step(files, PostingRuns.Append(sig, ids), files') <==> JobStep(files, Move(sig, ids), del, files')
  {
    var f, words := JobFile(files, Move(sig, ids)), JobLists(files, Move(sig, ids), del);
    assert f == FileOf(files, PostingRuns.Append(sig, ids)) && words == ListsOf(files, PostingRuns.Append(sig, ids));
    hide SavedFiles, MaySplit, FileOf, ListsOf, JobFile, JobLists;
  }

  lemma JobFits(files: Files, job: Job, del: Deletion)
    requires StoreInv(files) && IsHash(job.w)
    ensures Fits(files, JobFile(files, job), JobLists(files, job, del))
  {
    LoadedFits(files, job.w);
  }

  lemma PurgeKeepsRest(files: Files, job: Job, del: Deletion, w: Sig)
    requires StoreInv(files) && IsHash(w) && job.Purge?
    ensures var found := View(files, JobFile(files, job), JobLists(files, job, del), w);
      && found <= Lookup(files, w) <= found + del.ids && (w == del.sig ==> found == Lookup(files, w))
      && if Route(files.Keys, w) == Route(files.Keys, job.w) then w != del.sig ==> found !! del.ids
         else found == Lookup(files, w)
  {}

  lemma NothingToPurge(files: Files, job: Job, del: Deletion, w: Sig)
    requires StoreInv(files) && IsHash(w) && job.Purge? && NothingToSave(files, job, del)
    ensures Route(files.Keys, w) == Route(files.Keys, job.w) && w != del.sig ==> Lookup(files, w) !! del.ids
  {
    PurgeKeepsRest(files, job, del, w);
    if Route(files.Keys, w) == Route(files.Keys, job.w) {
      assert View(files, JobFile(files, job), Loaded(files, JobFile(files, job)), w) == Lookup(files, w);
    }
  }

  lemma MoveAdds(files: Files, job: Job, del: Deletion, w: Sig)
    requires StoreInv(files) && IsHash(w) && job.Move?
    ensures View(files, JobFile(files, job), JobLists(files, job, del), w) ==
            if w == job.w then Lookup(files, w) + job.ids else Lookup(files, w)
  {}

  /** A safe job does what it should, however its container is split. */
  lemma SafeJobIsDone(files: Files, job: Job, del: Deletion, files': Files)
    requires StoreInv(files) && IsHash(job.w)
    requires JobStep(files, job, del, files') && JobSafe(files, job, del)
    ensures JobDone(files, job, del, files')
  {
    hide StoreInv, Lookup, View, SavedFiles, MaySplit, Fits, MayNest, JobFile, JobLists;
    if NothingToSave(files, job, del) {
      if job.Purge? {
        forall w | IsHash(w) ensures Route(files.Keys, w) == Route(files.Keys, job.w) && w != del.sig ==> Lookup(files, w) !! del.ids {
          NothingToPurge(files, job, del, w);
        }
      }
    } else {
      var f, words := JobFile(files, job), JobLists(files, job, del);
      JobFits(files, job, del);
      SaveIsSafeExactly(files, f, words);
      var chosen :| MaySplit(f, words, chosen) && files' == SavedFiles(files, f, words, chosen);
      assert KeepsLookups(files, f, words, chosen);
      forall w | IsHash(w) ensures Lookup(files', w) == View(files, f, words, w) {}
      if job.Move? {
        forall w | IsHash(w) ensures Lookup(files', w) == if w == job.w then Lookup(files, w) + job.ids else Lookup(files, w) {
          MoveAdds(files, job, del, w);
        }
      } else {
        forall w | IsHash(w)
          ensures Lookup(files', w) <= Lookup(files, w) <= Lookup(files', w) + del.ids
          ensures w == del.sig ==> Lookup(files', w) == Lookup(files, w)
          ensures if Route(files.Keys, w) == Route(files.Keys, job.w) then w != del.sig ==> Lookup(files', w) !! del.ids
                  else Lookup(files', w) == Lookup(files, w)
        {
          PurgeKeepsRest(files, job, del, w);
        }
      }
    }
  }

  /** The jobs of a pass and the files between them.  About what an unsafe job makes
      of the files, and what jobs after it do, nothing more is said. */
  ghost predicate Trail(before: Files, jobs: seq<Job>, states: seq<Files>, del: Deletion, after: Files) {
    && |states| == |jobs| + 1 && states[0] == before && states[|jobs|] == after
    && forall i :: 0 <= i < |jobs| ==>
         IsHash(jobs[i].w) && (StoreInv(states[i]) ==> JobStep(states[i], jobs[i], del, states[i + 1]))
  }

  ghost predicate SafeTrail(jobs: seq<Job>, states: seq<Files>, del: Deletion) {
    |states| == |jobs| + 1 && forall i :: 0 <= i < |jobs| ==> JobSafe(states[i], jobs[i], del)
  }

  lemma TrailGrows(before: Files, jobs: seq<Job>, states: seq<Files>, del: Deletion, now: Files, job: Job, after: Files)
    requires Trail(before, jobs, states, del, now) && IsHash(job.w)
    requires StoreInv(now) ==> JobStep(now, job, del, after)
    ensures Trail(before, jobs + [job], states + [after], del, after)
    ensures SafeTrail(jobs + [job], states + [after], del) <==> SafeTrail(jobs, states, del) && JobSafe(now, job, del)
  {
    hide StoreInv, JobStep, JobSafe;
    var jobs', states' := jobs + [job], states + [after];
    assert forall i :: 0 <= i < |jobs| ==> jobs'[i] == jobs[i] && states'[i] == states[i];
    if SafeTrail(jobs', states', del) {
      forall i | 0 <= i < |jobs| ensures JobSafe(states[i], jobs[i], del) {
        assert JobSafe(states'[i], jobs'[i], del);
      }
      assert JobSafe(states'[|jobs|], jobs'[|jobs|], del);
    }
  }

  /** With lists of fewer than MAX_ITEMS / 2 ids, every job on a journal entry or a
      container is safe. */
  lemma SmallIsSafe(journal: Entries, files: Files, job: Job, del: Deletion)
    requires StoreInv(files) && IsHash(job.w) && AllSmall(journal, files)
    requires job.Move? ==> job.ids <= Get(journal, job.w)
    ensures JobSafe(files, job, del)
  {
    var f, words := JobFile(files, job), JobLists(files, job, del);
    JobFits(files, job, del);
    if w :| NestsAt(f, words, w) {
      ListIsHit(journal, files, job, del, w);
      SmallSubset(words[w], AllHits(journal, files, w));
      assert false;
    }
  }

  lemma ListIsHit(journal: Entries, files: Files, job: Job, del: Deletion, w: Sig)
    requires StoreInv(files) && IsHash(w) && w in JobLists(files, job, del) && IsHash(job.w)
    requires job.Move? ==> job.ids <= Get(journal, job.w)
    ensures JobLists(files, job, del)[w] <= AllHits(journal, files, w)
  {
    RouteIsLongest(files.Keys, job.w);
    RouteIsLongest(files.Keys, w);
  }

  /** What a pass keeps for every word, as long as its jobs are safe. */
  ghost predicate Kept(before: Entries, files: Files, journal: Entries, files': Files, del: Deletion) {
    && StoreInv(files')
    && (forall w :: IsHash(w) ==>
          AllHits(journal, files', w) <= AllHits(before, files, w) <= AllHits(journal, files', w) + del.ids)
    && (IsHash(del.sig) ==> AllHits(journal, files', del.sig) == AllHits(before, files, del.sig))
  }

  lemma KeptTwice(j0: Entries, f0: Files, j1: Entries, f1: Files, j2: Entries, f2: Files, del: Deletion)
    requires Kept(j0, f0, j1, f1, del) && Kept(j1, f1, j2, f2, del)
    ensures Kept(j0, f0, j2, f2, del)
  {
    hide StoreInv, AllHits;
  }

  lemma KeptMeans(before: Entries, files: Files, journal: Entries, files': Files, del: Deletion)
    requires Kept(before, files, journal, files', del)
    ensures StoreInv(files')
  {}

  lemma MoveKeeps(journal: Entries, files: Files, sig: Sig, del: Deletion, files': Files)
    requires sig in journal && JobDone(files, Move(sig, journal[sig]), del, files')
    ensures Kept(journal, files, journal - {sig}, files', del)
    ensures forall w :: IsHash(w) ==> AllHits(journal - {sig}, files', w) == AllHits(journal, files, w)
  {
    hide StoreInv, Lookup;
  }

  lemma PurgeKeeps(journal: Entries, files: Files, sig: Sig, del: Deletion, files': Files)
    requires JobDone(files, Purge(sig), del, files')
    ensures Kept(journal, files, journal, files', del)
    ensures IsHash(sig) && sig != del.sig && Get(journal, sig) == {} ==> AllHits(journal, files', sig) !! del.ids
  {
    hide StoreInv, Lookup;
  }

  lemma StaySmall(journal: Entries, files: Files, journal': Entries, files': Files)
    requires AllSmall(journal, files)
    requires forall w :: IsHash(w) ==> AllHits(journal', files', w) <= AllHits(journal, files, w)
    ensures AllSmall(journal', files')
  {
    forall w | IsHash(w) ensures |AllHits(journal', files', w)| < MAX_ITEMS / 2 {
      SmallSubset(AllHits(journal', files', w), AllHits(journal, files, w));
    }
  }

  lemma JobsOfEntries(before: Entries, start: Entries, files: Files, keys: seq<Sig>, jobs: seq<Job>, states: seq<Files>,
                      del: Deletion, journal: Entries, files': Files)
    requires SameEntries(before, start) && Passed(start, files, keys, jobs, states, del, journal, files')
    requires forall w :: w in keys ==> w in start
    ensures forall job :: job in jobs ==> job.w in before && (job.Move? ==> job.ids == before[job.w])
  {
    forall job | job in jobs ensures IsHash(job.w) && job.w in start {
      var i :| 0 <= i < |jobs| && jobs[i] == job;
    }
  }

  lemma SmallStays(before: Entries, files: Files, journal: Entries, files': Files, del: Deletion)
    requires AllSmall(before, files) && Kept(before, files, journal, files', del)
    ensures AllSmall(journal, files')
  {
    hide AllHits;
    StaySmall(before, files, journal, files');
  }

  /** The state of a pass over the keys: the jobs so far, the files between them,
      and what they have kept. */
  ghost predicate Passed(before: Entries, files: Files, keys: seq<Sig>, jobs: seq<Job>, states: seq<Files>, del: Deletion,
                         journal: Entries, files': Files) {
    && Trail(files, jobs, states, del, files')
    && (forall job :: job in jobs ==> job.w in keys && (job.Move? ==> job.w in before && job.ids == before[job.w]))
    && (StoreInv(files) && SafeTrail(jobs, states, del) ==> Kept(before, files, journal, files', del))
    && (StoreInv(files) && SafeTrail(jobs, states, del) ==> Cleaned(jobs, del, journal, files'))
    && (StoreInv(files) && AllSmall(before, files) ==> SafeTrail(jobs, states, del))
  }

  /** No word whose container was purged finds a deleted id any more. */
  ghost predicate Cleaned(jobs: seq<Job>, del: Deletion, journal: Entries, files: Files) {
    forall job :: job in jobs && job.Purge? && job.w != del.sig ==> AllHits(journal, files, job.w) !! del.ids
  }

  lemma PurgedIsCleaned(before: Entries, files: Files, keys: seq<Sig>, jobs: seq<Job>, states: seq<Files>, del: Deletion,
                        journal: Entries, files': Files, w: Sig)
    requires Passed(before, files, keys, jobs, states, del, journal, files')
    requires StoreInv(files) && SafeTrail(jobs, states, del) && Purge(w) in jobs && w != del.sig
    ensures AllHits(journal, files', w) !! del.ids
  {
    hide Trail, SafeTrail, Kept, AllHits, StoreInv;
    var job := Purge(w);
    assert job in jobs && job.w == w;
  }

  /** What a whole pass comes to, counted from before the largest id was remembered. */
  lemma PassDone(before: Entries, start: Entries, files: Files, keys: seq<Sig>, jobs: seq<Job>, states: seq<Files>,
                 del: Deletion, journal: Entries, files': Files)
    requires SameEntries(before, start) && Passed(start, files, keys, jobs, states, del, journal, files')
    requires forall w :: w in keys ==> w in start
    ensures Trail(files, jobs, states, del, files')
    ensures forall job :: job in jobs ==> job.w in before && (job.Move? ==> job.ids == before[job.w])
    ensures StoreInv(files) && SafeTrail(jobs, states, del) ==>
      && Kept(before, files, journal, files', del)
      && forall w :: Purge(w) in jobs && w != del.sig ==> AllHits(journal, files', w) !! del.ids
    ensures StoreInv(files) && AllSmall(before, files) ==> SafeTrail(jobs, states, del)
  {
    hide StoreInv, Trail, SafeTrail, Kept, AllHits, AllSmall, SameEntries, Cleaned;
    JobsOfEntries(before, start, files, keys, jobs, states, del, journal, files');
    if StoreInv(files) {
      NothingLost(before, files, start, del);
      if SafeTrail(jobs, states, del) {
        KeptTwice(before, files, start, files, journal, files', del);
        forall w | Purge(w) in jobs && w != del.sig ensures AllHits(journal, files', w) !! del.ids {
          PurgedIsCleaned(start, files, keys, jobs, states, del, journal, files', w);
        }
      }
    }
  }

  lemma HitsAre(journal: Entries, files: Files, w: Sig)
    ensures AllHits(journal, files, w) == Get(journal, w) + Lookup(files, w)
  {}

  lemma SameKeys(before: Entries, journal: Entries)
    requires SameEntries(before, journal)
    ensures |journal| <= |before| + 1
    ensures forall w :: w in before && w != TRACKER ==> w in journal
  {
    assert forall w :: w in journal.Keys ==> w in before.Keys + {TRACKER};
    SubsetSize(journal.Keys, before.Keys + {TRACKER});
  }

  lemma CleanedGrows(jobs: seq<Job>, del: Deletion, journal1: Entries, files1: Files, job: Job, journal2: Entries, files2: Files)
    requires Cleaned(jobs, del, journal1, files1) && Kept(journal1, files1, journal2, files2, del)
    requires forall j :: j in jobs ==> IsHash(j.w)
    requires job.Purge? && job.w != del.sig ==> AllHits(journal2, files2, job.w) !! del.ids
    ensures Cleaned(jobs + [job], del, journal2, files2)
  {
    hide AllHits, StoreInv;
  }

  lemma TrailHasHashes(before: Files, jobs: seq<Job>, states: seq<Files>, del: Deletion, after: Files)
    requires Trail(before, jobs, states, del, after)
    ensures forall j :: j in jobs ==> IsHash(j.w)
  {
    forall j | j in jobs ensures IsHash(j.w) {
      var i :| 0 <= i < |jobs| && jobs[i] == j;
    }
  }

  lemma EmptyTrail(files: Files, del: Deletion)
    ensures Trail(files, [], [files], del, files) && SafeTrail([], [files], del)
  {}

  lemma PassBegins(journal: Entries, files: Files, keys: seq<Sig>, del: Deletion)
    ensures Passed(journal, files, keys, [], [files], del, journal, files)
  {
    hide StoreInv, Lookup;
    EmptyTrail(files, del);
    if StoreInv(files) { NothingLost(journal, files, journal, del); }
  }

  lemma SameHits(before: Entries, journal: Entries, files: Files, w: Sig)
    requires SameEntries(before, journal) && IsHash(w)
    ensures AllHits(journal, files, w) == AllHits(before, files, w)
  {}

  lemma NothingLost(before: Entries, files: Files, journal: Entries, del: Deletion)
    requires StoreInv(files) && SameEntries(before, journal)
    ensures Kept(before, files, journal, files, del)
    ensures AllSmall(before, files) ==> AllSmall(journal, files)
  {
    hide StoreInv, Lookup;
    forall w | IsHash(w) ensures AllHits(journal, files, w) == AllHits(before, files, w) {
      SameHits(before, journal, files, w);
    }
    hide AllHits;
  }

  lemma PassGrows(before: Entries, files: Files, keys: seq<Sig>, jobs: seq<Job>, states: seq<Files>, del: Deletion,
                  journal1: Entries, files1: Files, job: Job, journal2: Entries, files2: Files)
    requires Passed(before, files, keys, jobs, states, del, journal1, files1)
    requires IsHash(job.w) && job.w in keys
    requires job.Move? ==> job.w in before && job.ids == before[job.w] && job.ids <= Get(journal1, job.w)
    requires StoreInv(files1) ==> JobStep(files1, job, del, files2)
    requires StoreInv(files1) && JobSafe(files1, job, del) ==> Kept(journal1, files1, journal2, files2, del)
    requires StoreInv(files1) && JobSafe(files1, job, del) && job.Purge? && job.w != del.sig ==>
      AllHits(journal2, files2, job.w) !! del.ids
    ensures Passed(before, files, keys, jobs + [job], states + [files2], del, journal2, files2)
  {
    hide StoreInv, AllSmall, Trail, SafeTrail, Kept, JobStep, JobSafe, Cleaned, AllHits;
    TrailGrows(files, jobs, states, del, files1, job, files2);
    TrailHasHashes(files, jobs, states, del, files1);
    if StoreInv(files) && SafeTrail(jobs, states, del) {
      KeptMeans(before, files, journal1, files1, del);
      if JobSafe(files1, job, del) {
        KeptTwice(before, files, journal1, files1, journal2, files2, del);
        CleanedGrows(jobs, del, journal1, files1, job, journal2, files2);
      }
      if AllSmall(before, files) {
        SmallStays(before, files, journal1, files1, del);
        SmallIsSafe(journal1, files1, job, del);
      }
    }
  }

  lemma MaxTracksAll(before: Entries, journal: Entries, max: nat)
    requires SameEntries(before, journal) && Tracks(journal, max)
    requires forall w, id :: w in before && id in before[w] ==> id <= max
    ensures TracksAll(journal)
  {
    forall w, id | w in journal && id in journal[w] ensures Tracks(journal, id) {
      if w != TRACKER {
        assert w in before && before[w] == journal[w];
      }
    }
  }

  /** Equal but for the remembered largest id. */
  ghost predicate SameEntries(before: Entries, journal: Entries) {
    forall w :: w != TRACKER ==> (w in journal <==> w in before) && (w in journal ==> journal[w] == before[w])
  }

  /** How many of n keys to process: at least one, at most all. */
  function Share(n: nat, ratio: real): (r: nat)
    requires n > 0
    ensures 1 <= r <= n && (ratio >= 1.0 ==> r == n)
  {
    if ratio >= 1.0 then n
    else
      var part := (n as real * ratio).Floor;
      assert n as real * ratio <= n as real;
      if part < 1 then 1 else part
  }

  lemma WholeStretch(all: seq<Sig>, start: nat)
    requires start <= |all|
    ensures forall w :: w in all ==> w in (all + all)[start..start + |all|]
  {
    var part := (all + all)[start..start + |all|];
    forall i | 0 <= i < |all| ensures all[i] in part {
      if i >= start { assert part[i - start] == all[i]; } else { assert part[i + |all| - start] == all[i]; }
    }
  }

  class GlobalPostingList {
    var journal: Entries
    var loaded: bool
    const store: PostingFiles
    ghost var seen: set<nat>

    /** Everything ever appended is at most some id still in the journal. */
    ghost predicate Valid()
      reads this
    {
      && JournalOk(journal)
      && (!loaded ==> journal == map[])
      && forall id :: id in seen ==> Covers(journal, id)
    }

    ghost function HitsOf(w: Sig): set<nat>
      reads this, store
    {
      AllHits(journal, store.files, w)
    }

    constructor ()
      ensures Valid() && StoreInv(store.files) && fresh(store) && journal == map[] && store.files == map[] && seen == {}
    {
      journal, loaded, seen := map[], false, {};
      store := new PostingFiles();
    }

    method Append(w: Sig, ids: set<nat>)
      requires Valid() && IsHash(w)
      modifies this
      ensures Valid() && loaded
      ensures seen == old(seen) + ids
      ensures forall v :: HitsOf(v) == if v == w then old(HitsOf(v)) + ids else old(HitsOf(v))
    {
      ghost var before := journal;
      loaded := true;
      if w !in journal {
        journal := journal[w := {}];
      }
      journal := journal[w := journal[w] + ids];
      seen := seen + ids;
      forall id | id in seen ensures Covers(journal, id) {
        if id in ids {
          assert w in journal && id in journal[w];
        } else if id != 0 {
          assert Covers(before, id);
          var v, n :| v in before && n in before[v] && id <= n;
          assert v in journal && n in journal[v];
        }
      }
    }

    /** The largest id in the journal, or 0. */
    method GetMaxMsgIdxPos() returns (max: nat)
      requires Valid()
      ensures forall id :: id in seen ==> id <= max
      ensures forall w, id :: w in journal && id in journal[w] ==> id <= max
      ensures max != 0 ==> exists w, id :: w in journal && id in journal[w] && id == max
    {
      max := 0;
      var todo := journal.Keys;
      while todo != {}
        invariant todo <= journal.Keys
        invariant forall w, id :: w in journal && w !in todo && id in journal[w] ==> id <= max
        invariant max != 0 ==> exists w, id :: w in journal && id in journal[w] && id == max
        decreases todo
      {
        var w :| w in todo;
        if journal[w] != {} {
          var top := MaxOf(journal[w]);
          if top > max {
            max := top;
          }
        }
        todo := todo - {w};
      }
    }

    static method MaxOf(s: set<nat>) returns (top: nat)
      requires s != {}
      ensures top in s && forall x :: x in s ==> x <= top
    {
      top :| top in s;
      var todo := s;
      while todo != {}
        invariant todo <= s && top in s
        invariant forall x :: x in s && x !in todo ==> x <= top
        decreases todo
      {
        var x :| x in todo;
        if x > top {
          top := x;
        }
        todo := todo - {x};
      }
    }

    /** Remember the largest message id.  Raises an exception (ok is false) when
        the journal was never loaded. */
    method UpdateMaxMsgMid(mids: set<nat>) returns (ok: bool)
      requires Valid()
      modifies this`journal
      ensures ok <==> mids == {} || loaded
      ensures !ok || mids == {} ==> journal == old(journal)
      ensures Valid() && SameEntries(old(journal), journal)
      ensures ok ==> forall id :: id in mids ==> Tracks(journal, id)
      ensures forall n :: Tracks(old(journal), n) ==> Tracks(journal, n)
    {
      if mids == {} {
        return true;
      }
      if !loaded {
        return false;
      }
      ok := true;
      var top := MaxOf(mids);
      var current := 0;
      if TRACKER in journal {
        current := MaxOf(journal[TRACKER]);
      }
      if current != 0 && top <= current {
        return;
      }
      ghost var before := journal;
      journal := journal[TRACKER := {top}];
      assert top in journal[TRACKER];
      forall n | Covers(before, n) ensures Covers(journal, n) {
        if n != 0 {
          var w, id :| w in before && id in before[w] && n <= id;
          if w != TRACKER { assert w in journal && id in journal[w]; }
        }
      }
    }

    /** Move one entry from the journal to the files.  Every word keeps its hits. */
    method Migrate(sig: Sig, ghost del: Deletion) returns (moved: bool)
      requires Valid() && TracksAll(journal) && (sig == TRACKER || IsHash(sig))
      modifies this`journal, store
      ensures Valid() && TracksAll(journal)
      ensures moved == (sig != TRACKER && Get(old(journal), sig) != {})
      ensures journal == if moved then old(journal) - {sig} else old(journal)
      ensures !moved ==> store.files == old(store.files)
      ensures var job := Move(sig, Get(old(journal), sig));
        && (moved && StoreInv(old(store.files)) ==> JobStep(old(store.files), job, del, store.files))
        && (moved && StoreInv(old(store.files)) && JobSafe(old(store.files), job, del) ==>
              && Kept(old(journal), old(store.files), journal, store.files, del)
              && forall w :: IsHash(w) ==> HitsOf(w) == old(HitsOf(w)))
    {
      hide StoreInv, Lookup, TracksAll, Covers, JobStep, JobSafe, JobDone, Kept, AllHits;
      moved := false;
      if sig != TRACKER && sig in journal && journal[sig] != {} {
        ghost var files, before, job := store.files, journal, Move(sig, journal[sig]);
        AddToFiles(sig, journal[sig], del);
        EntryLeaves(journal, sig);
        journal := journal - {sig};
        moved := true;
        if StoreInv(files) && JobSafe(files, job, del) {
          SafeJobIsDone(files, job, del, store.files);
          MoveKeeps(before, files, sig, del, store.files);
        }
      }
    }

    /** Add ids to a word's list in the files. */
    method AddToFiles(sig: Sig, ids: set<nat>, ghost del: Deletion)
      requires IsHash(sig)
      modifies store
      ensures StoreInv(old(store.files)) ==> JobStep(old(store.files), Move(sig, ids), del, store.files)
    {
      hide StoreInv, Step, JobStep;
      ghost var files := store.files;
      Perform(store, PostingRuns.Append(sig, ids));
      MoveIsStep(files, sig, ids, del, store.files);
    }

    /** Take deleted ids out of all lists in the container of a word. */
    method PurgeDeleted(sig: Sig, deletedSig: Sig, deleted: set<nat>) returns (changed: bool)
      requires Valid() && (sig == TRACKER || IsHash(sig))
      modifies store
      ensures Valid()
      ensures !changed && StoreInv(old(store.files)) ==> store.files == old(store.files)
      ensures sig == TRACKER ==> store.files == old(store.files)
      ensures var job, del := Purge(sig), Deletion(deletedSig, deleted);
        sig != TRACKER && StoreInv(old(store.files)) ==>
          && JobStep(old(store.files), job, del, store.files)
          && (JobSafe(old(store.files), job, del) ==>
                && Kept(old(journal), old(store.files), journal, store.files, del)
                && (sig != deletedSig && Get(journal, sig) == {} ==> HitsOf(sig) !! deleted))
    {
      hide StoreInv, Lookup, TracksAll, Covers, JobStep, JobSafe, JobDone, Kept, AllHits, JournalOk;
      if sig == TRACKER {
        return false;
      }
      ghost var files, job, del := store.files, Purge(sig), Deletion(deletedSig, deleted);
      changed := PurgeContainer(sig, deletedSig, deleted);
      if StoreInv(files) && JobSafe(files, job, del) {
        SafeJobIsDone(files, job, del, store.files);
        PurgeKeeps(journal, files, sig, del, store.files);
      }
    }

    method PurgeContainer(sig: Sig, deletedSig: Sig, deleted: set<nat>) returns (changed: bool)
      requires IsHash(sig)
      modifies store
      ensures !changed ==> store.files == old(store.files)
      ensures StoreInv(old(store.files)) ==>
        JobStep(old(store.files), Purge(sig), Deletion(deletedSig, deleted), store.files)
    {
      hide SavedFiles, MaySplit, Fits, StoreInv;
      ghost var files := store.files;
      var plc := new PostingListContainer.Load(store, sig);
      var count := plc.PurgeDeleted(deletedSig, deleted);
      if StoreInv(files) { JobFits(files, Purge(sig), Deletion(deletedSig, deleted)); }
      ghost var chosen := plc.Save(store, true);
      changed := count > 0;
    }

    /** The keys to process: all of them, or a wrapped-around stretch. */
    method SelectKeys(ratio: real) returns (keys: seq<Sig>)
      ensures forall w :: w in keys ==> w in journal
      ensures ratio == 0.0 || ratio >= 1.0 ==> forall w :: w in journal ==> w in keys
    {
      keys := [];
      var todo := journal.Keys;
      while todo != {}
        invariant todo <= journal.Keys
        invariant forall w :: w in keys <==> w in journal && w !in todo
        decreases todo
      {
        var w :| w in todo;
        keys := keys + [w];
        todo := todo - {w};
      }
      if ratio != 0.0 && keys != [] {
        var keyn := Share(|keys|, ratio);
        var start :| 0 <= start <= |keys|;
        ghost var all := keys;
        WholeStretch(all, start);
        keys := (keys + keys)[start..start + keyn];
        assert forall w :: w in keys ==> w in all + all;
      }
    }

    /** One optimizing pass: from any start, over any share of the keys, stopped
        at any time.  As long as no container nests when it is saved, only deleted
        ids go, and none of the list that records them. */
    method Optimize(deletedSig: Sig, lazy: bool, ratio: real)
      returns (ok: bool, finished: bool, count: nat, ghost jobs: seq<Job>, ghost states: seq<Files>)
      requires Valid() && IsHash(deletedSig)
      modifies this`journal, store
      ensures Valid()
      ensures ok == loaded && (!ok ==> journal == old(journal) && store.files == old(store.files))
      ensures ok && finished && !lazy && (ratio == 0.0 || ratio >= 1.0) ==>
        forall w :: w in journal && w != TRACKER ==> journal[w] == {}
      ensures var del := Deletion(deletedSig, old(HitsOf(deletedSig)));
        && Trail(old(store.files), jobs, states, del, store.files)
        && (forall job :: job in jobs ==> job.w in old(journal) && (job.Move? ==> job.ids == old(journal)[job.w]))
        && (StoreInv(old(store.files)) && SafeTrail(jobs, states, del) ==>
              Kept(old(journal), old(store.files), journal, store.files, del))
        && (StoreInv(old(store.files)) && old(AllSmall(journal, store.files)) ==> SafeTrail(jobs, states, del))
        && (ok && finished && !lazy && (ratio == 0.0 || ratio >= 1.0) && StoreInv(old(store.files)) && SafeTrail(jobs, states, del) ==>
              forall w :: w in old(journal) && w != TRACKER && w != deletedSig ==> HitsOf(w) !! del.ids)
      ensures lazy && |old(journal)| < 51200 ==> jobs == []
    {
      hide StoreInv, Lookup, AllSmall, TracksAll, Covers, Trail, SafeTrail, Kept, SameEntries, Passed, AllHits;
      finished, count, jobs, states := false, 0, [], [store.files];
      ghost var before, files := journal, store.files;
      ok := RememberMax();
      var deletedInFiles := store.Hits(deletedSig);
      var deleted := Get(journal, deletedSig) + deletedInFiles;
      ghost var del := Deletion(deletedSig, deleted);
      SameHits(before, journal, files, deletedSig);
      SameKeys(before, journal);
      HitsAre(journal, files, deletedSig);
      EmptyTrail(files, del);
      if StoreInv(files) { NothingLost(before, files, journal, del); }
      if !ok {
        return;
      }
      if journal == map[] || (lazy && |journal| <= 50 * 1024) {
        finished := true;
        return;
      }
      var keys := SelectKeys(ratio);
      ghost var start := journal;
      finished, count, jobs, states := ProcessKeys(keys, deletedSig, deleted);
      assert finished ==> forall w :: w in journal && w in keys && w != TRACKER ==> journal[w] == {};
      assert forall w :: w in journal ==> w in start;
      PassDone(before, start, files, keys, jobs, states, del, journal, store.files);
    }

    /** Before anything is migrated, the largest known id is put where it stays. */
    method RememberMax() returns (ok: bool)
      requires Valid()
      modifies this`journal
      ensures Valid() && ok == loaded && (!ok ==> journal == old(journal))
      ensures ok ==> TracksAll(journal)
      ensures SameEntries(old(journal), journal)
    {
      hide StoreInv, Lookup, Covers, TracksAll, SameEntries;
      var max := GetMaxMsgIdxPos();
      ok := UpdateMaxMsgMid({max});
      if ok {
        MaxTracksAll(old(journal), journal, max);
      }
    }

    method ProcessKeys(keys: seq<Sig>, deletedSig: Sig, deleted: set<nat>)
      returns (finished: bool, count: nat, ghost jobs: seq<Job>, ghost states: seq<Files>)
      requires Valid() && TracksAll(journal)
      requires forall w :: w in keys ==> w == TRACKER || IsHash(w)
      modifies this`journal, store
      ensures Valid()
      ensures forall w :: w in journal ==> w in old(journal)
      ensures finished ==> forall w :: w in journal && w in keys && w != TRACKER ==> journal[w] == {}
      ensures finished ==> forall w :: w in keys && w != TRACKER ==> Purge(w) in jobs
      ensures Passed(old(journal), old(store.files), keys, jobs, states, Deletion(deletedSig, deleted), journal, store.files)
    {
      hide StoreInv, Lookup, Covers, AllSmall, TracksAll, Passed;
      finished, count, jobs, states := false, 0, [], [store.files];
      ghost var del := Deletion(deletedSig, deleted);
      PassBegins(journal, store.files, keys, del);
      var i := 0;
      while i < |keys|
        invariant 0 <= i <= |keys| && Valid() && TracksAll(journal)
        invariant forall w :: w in journal ==> w in old(journal) && journal[w] == old(journal)[w]
        invariant forall j :: 0 <= j < i && keys[j] in journal && keys[j] != TRACKER ==> journal[keys[j]] == {}
        invariant forall j :: 0 <= j < i && keys[j] != TRACKER ==> Purge(keys[j]) in jobs
        invariant Passed(old(journal), old(store.files), keys, jobs, states, del, journal, store.files)
      {
        if * {
          return;
        }
        var moved, purged;
        moved, purged, jobs, states := ProcessKey(keys[i], deletedSig, deleted, keys, jobs, states,
                                                  old(journal), old(store.files));
        if moved || purged {
          count := count + 1;
        }
        assert keys[i] in keys;
        i := i + 1;
      }
      finished := true;
    }

    /** Migrate one key, then purge its container. */
    method ProcessKey(sig: Sig, deletedSig: Sig, deleted: set<nat>,
                      ghost keys: seq<Sig>, ghost jobs: seq<Job>, ghost states: seq<Files>,
                      ghost before: Entries, ghost files: Files)
      returns (moved: bool, purged: bool, ghost jobs': seq<Job>, ghost states': seq<Files>)
      requires Valid() && TracksAll(journal) && sig in keys && (sig == TRACKER || IsHash(sig))
      requires forall w :: w in journal ==> w in before && journal[w] == before[w]
      requires Passed(before, files, keys, jobs, states, Deletion(deletedSig, deleted), journal, store.files)
      modifies this`journal, store
      ensures Valid() && TracksAll(journal)
      ensures moved == (sig != TRACKER && Get(old(journal), sig) != {})
      ensures journal == if moved then old(journal) - {sig} else old(journal)
      ensures jobs' == jobs + (if moved then [Move(sig, old(journal)[sig])] else [])
                            + (if sig != TRACKER then [Purge(sig)] else [])
      ensures Passed(before, files, keys, jobs', states', Deletion(deletedSig, deleted), journal, store.files)
    {
      hide StoreInv, Lookup, Covers, AllSmall, TracksAll, Passed, Kept, JobStep, JobSafe, AllHits, JournalOk;
      ghost var del := Deletion(deletedSig, deleted);
      jobs', states' := jobs, states;
      ghost var journal1, files1 := journal, store.files;
      moved := Migrate(sig, del);
      if moved {
        ghost var job := Move(sig, journal1[sig]);
        PassGrows(before, files, keys, jobs', states', del, journal1, files1, job, journal, store.files);
        jobs', states' := jobs' + [job], states' + [store.files];
      }
      ghost var files2 := store.files;
      purged := PurgeDeleted(sig, deletedSig, deleted);
      if sig != TRACKER {
        PassGrows(before, files, keys, jobs', states', del, journal, files2, Purge(sig), journal, store.files);
        jobs', states' := jobs' + [Purge(sig)], states' + [store.files];
      }
    }
  }
}
