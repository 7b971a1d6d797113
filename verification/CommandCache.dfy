/** The command cache as a state machine. */
module CommandCache {
  // Results are cached with the assets they depend on, assets are marked dirty as
  // they change, and a periodic refresh recomputes what became dirty and throws
  // old marks away.
  import opened Wrappers

  datatype Req = TimedOut | Asset(name: string)
  type Fingerprint = string
  type Result = int

  const LAG: real := 0.1
  const DIRTY_TTL: real := 10.0

  datatype Mark = Mark(ts: real, req: set<Req>)
  datatype Entry = Entry(expires: real, req: set<Req>, result: Result, added: real)
  datatype State = State(cache: map<Fingerprint, Entry>, dirty: seq<Mark>)

  // ----- What the operations do

  /** The assets marked after a time; the time-out pseudo-asset is always dirty. */
  function DirtySet(dirty: seq<Mark>, after: real): (r: set<Req>) {
    if dirty == [] then {TimedOut} else
      var last := dirty[|dirty| - 1];
      DirtySet(dirty[..|dirty| - 1], after) + if after == 0.0 || last.ts > after then last.req else {}
  }

  lemma {:induction false} DirtySetMeaning(dirty: seq<Mark>, after: real, q: Req)
    requires after > 0.0
    ensures q in DirtySet(dirty, after) <==>
      q == TimedOut || exists i :: 0 <= i < |dirty| && dirty[i].ts > after && q in dirty[i].req
  {
    if dirty != [] {
      DirtySetMeaning(dirty[..|dirty| - 1], after, q);
    }
  }

  function Recent(dirty: seq<Mark>, cutoff: real): (r: seq<Mark>)
    ensures forall m :: m in r <==> m in dirty && m.ts >= cutoff
  {
    if dirty == [] then [] else
      var last := dirty[|dirty| - 1];
      assert dirty == dirty[..|dirty| - 1] + [last];
      Recent(dirty[..|dirty| - 1], cutoff) + if last.ts >= cutoff then [last] else []
  }

  /** `get_result` returns the entry rather than pretending it does not exist. */
  predicate Served(st: State, fp: Fingerprint, now: real) {
    && fp in st.cache
    && st.cache[fp].added <= now - LAG
    && st.cache[fp].req * DirtySet(st.dirty, st.cache[fp].added) == {}
  }

  function DoMark(st: State, now: real, req: set<Req>): State {
    st.(dirty := st.dirty + [Mark(now, req)])
  }

  function DoCache(st: State, now: real, fp: Fingerprint, expires: real, req: set<Req>, result: Result): State {
    st.(cache := st.cache[fp := Entry(expires, req, result, now)])
  }

  /** A result that is served lives longer. */
  function DoGet(st: State, now: real, fp: Fingerprint, extend: real): State {
    if Served(st, fp, now) then st.(cache := st.cache[fp := st.cache[fp].(expires := now + extend)]) else st
  }

  /** The start of a refresh: expired entries and old marks go. */
  function DoBegin(st: State, now: real): State {
    State(map fp | fp in st.cache && st.cache[fp].expires >= now :: st.cache[fp],
          Recent(st.dirty, now - DIRTY_TTL))
  }

  /** The refresh finds the entry old enough and dirty. */
  predicate Due(st: State, fp: Fingerprint, now: real)
    requires fp in st.cache
  {
    && st.cache[fp].added + LAG < now
    && st.cache[fp].req * DirtySet(st.dirty, st.cache[fp].added) != {}
  }

  /** Out of time, or the command failed: the entry is marked as timed out. */
  function DoFlag(st: State, fp: Fingerprint): State
    requires fp in st.cache
  {
    st.(cache := st.cache[fp := st.cache[fp].(req := st.cache[fp].req + {TimedOut})])
  }

  /** A new result replaces the entry it was computed for, unless another result
      got there first.  It is dated from before it was computed. */
  function DoStore(st: State, fp: Fingerprint, before: Entry, at: real, extend: real, result: Result): State {
    if fp in st.cache && st.cache[fp].added == before.added then
      var e := if extend > 0.0 then Min(before.expires + extend, at + 5.0 * extend) else before.expires;
      st.(cache := st.cache[fp := Entry(Max(e, st.cache[fp].expires), before.req - {TimedOut}, result, at)])
    else st
  }

  function Min(a: real, b: real): real { if a <= b then a else b }
  function Max(a: real, b: real): real { if a >= b then a else b }

  // ----- Runs

  /** A command being run again by the refresh: the entry it was started for, when,
      the marks known by then, and whether the entry is still the cached one. */
  datatype Running = Running(fp: Fingerprint, entry: Entry, at: real, seen: nat, same: bool)

  /** The cache with what a proof needs to remember: every mark ever made, the clock,
      the last refresh, the entries that refresh has yet to look at, and how many
      marks there were when the command behind each result started (seen), when the
      result was dated, and when each command now being run started. */
  datatype World = World(st: State, history: seq<Mark>, seen: map<Fingerprint, nat>, dated: map<Fingerprint, nat>,
                         commands: map<nat, nat>, clock: real,
                         started: real, pending: set<Fingerprint>, running: Option<Running>)

  /** A command is run first, and its result is cached, and dated, when it is done.
      The refresh dates its results from before it runs the command. */
  datatype Event =
    | MarkDirty(now: real, req: set<Req>)
    | StartCommand(now: real, c: nat)
    | CacheResult(now: real, c: nat, fp: Fingerprint, expires: real, req: set<Req>, result: Result)
    | GetResult(now: real, fp: Fingerprint, extend: real)
    | Begin(now: real)
    | Examine(now: real, fp: Fingerprint, runtime: real)
    | Finish(now: real, extend: real, outcome: Option<Result>)

  function Init(now: real): World {
    World(State(map[], []), [], map[], map[], map[], now, now, {}, None)
  }

  /** Time does not run backwards; refreshes do not overlap, and the next one starts
      at most gap after the previous one did. */
  predicate Enabled(w: World, ev: Event, gap: real) {
    && w.clock <= ev.now
    && match ev
       case StartCommand(_, c) => c !in w.commands
       case CacheResult(_, c, _, _, _, _) => c in w.commands
       case Begin(now) => w.pending == {} && w.running.None? && now - w.started <= gap
       case Examine(_, fp, _) => w.running.None? && fp in w.pending
       case Finish(_, _, _) => w.running.Some?
       case _ => true
  }

  function Next(w: World, ev: Event): World {
    var w := w.(clock := ev.now);
    match ev
    case MarkDirty(now, req) =>
      w.(st := DoMark(w.st, now, req), history := w.history + [Mark(now, req)])
    case StartCommand(_, c) =>
      w.(commands := w.commands[c := |w.history|])
    case CacheResult(now, c, fp, expires, req, result) =>
      w.(st := DoCache(w.st, now, fp, expires, req, result),
         seen := w.seen[fp := if c in w.commands then w.commands[c] else |w.history|],
         dated := w.dated[fp := |w.history|], commands := w.commands - {c},
         running := match w.running case Some(r) => Some(r.(same := r.same && r.fp != fp)) case None => None)
    case GetResult(now, fp, extend) =>
      w.(st := DoGet(w.st, now, fp, extend))
    case Begin(now) =>
      var st := DoBegin(w.st, now);
      w.(st := st, started := now, pending := st.cache.Keys)
    case Examine(now, fp, runtime) =>
      if fp !in w.st.cache || !Due(w.st, fp, now) then w.(pending := w.pending - {fp})
      else if now < w.started + runtime then
        w.(running := Some(Running(fp, w.st.cache[fp], now, |w.history|, true)))
      else w.(st := DoFlag(w.st, fp), pending := w.pending - {fp})
    case Finish(_, extend, outcome) =>
      if w.running.None? then w else
        var r := w.running.value;
        var w := w.(pending := w.pending - {r.fp}, running := None);
        if outcome.Some? then
          var stored := r.fp in w.st.cache && w.st.cache[r.fp].added == r.entry.added;
          w.(st := DoStore(w.st, r.fp, r.entry, r.at, extend, outcome.value),
             seen := if stored then w.seen[r.fp := r.seen] else w.seen,
             dated := if stored then w.dated[r.fp := r.seen] else w.dated)
        else if r.same && r.fp in w.st.cache then w.(st := DoFlag(w.st, r.fp))
        else w
  }

  function Run(w: World, events: seq<Event>): World {
    if events == [] then w else Next(Run(w, events[..|events| - 1]), events[|events| - 1])
  }

  predicate AllEnabled(w: World, events: seq<Event>, gap: real) {
    forall i :: 0 <= i < |events| ==> Enabled(Run(w, events[..i]), events[i], gap)
  }

  // ----- The invariant

  /** A mark, made after the entry was added, for something it depends on. */
  ghost predicate Hits(m: Mark, e: Entry) {
    m.ts > e.added && m.req * e.req != {}
  }

  /** Marks are in order of time, and the log holds those made since a time before
      the last refresh. */
  ghost predicate LogOk(w: World) {
    && 0.0 < w.started <= w.clock
    && (forall m :: m in w.history ==> m.ts <= w.clock)
    && (forall m :: m in w.st.dirty ==> m in w.history)
    && (forall m :: m in w.history && m.ts >= w.started - DIRTY_TTL ==> m in w.st.dirty)
    && (forall c :: c in w.commands ==> w.commands[c] <= |w.history|)
  }

  /** The marks known when the entry was dated are no later than the entry, and all
      others are no earlier. */
  ghost predicate SeenOk(w: World, fp: Fingerprint)
    requires fp in w.st.cache
  {
    && fp in w.seen && fp in w.dated && w.seen[fp] <= w.dated[fp] <= |w.history|
    && 0.0 < w.st.cache[fp].added <= w.clock
    && (forall i :: 0 <= i < w.dated[fp] ==> w.history[i].ts <= w.st.cache[fp].added)
    && (forall i :: w.dated[fp] <= i < |w.history| ==> w.history[i].ts >= w.st.cache[fp].added)
  }

  /** Marks that hit the entry are recent: young enough to be in the log, and, once
      the current refresh has looked at the entry, to be in it at the next one. */
  ghost predicate NoticeOk(w: World, fp: Fingerprint)
    requires fp in w.st.cache
  {
    TimedOut in w.st.cache[fp].req ||
    forall m :: m in w.history && Hits(m, w.st.cache[fp]) ==>
      m.ts >= w.started - if fp in w.pending then DIRTY_TTL else LAG
  }

  ghost predicate RunningOk(w: World) {
    w.running.Some? ==>
      var r := w.running.value;
      && r.fp in w.pending && w.started <= r.at <= w.clock && r.seen <= |w.history|
      && (forall i :: 0 <= i < r.seen ==> w.history[i].ts <= r.at)
      && (forall i :: r.seen <= i < |w.history| ==> w.history[i].ts >= r.at)
      && (r.fp in w.st.cache ==>
            if r.same then w.st.cache[r.fp].added == r.entry.added else w.st.cache[r.fp].added >= r.at)
  }

  ghost predicate Inv(w: World) {
    && LogOk(w) && RunningOk(w)
    && forall fp :: fp in w.st.cache ==> SeenOk(w, fp) && NoticeOk(w, fp)
  }

  lemma SeenStaysOk(w: World, ev: Event, fp: Fingerprint)
    requires Inv(w) && Enabled(w, ev, DIRTY_TTL - LAG) && fp in Next(w, ev).st.cache
    ensures SeenOk(Next(w, ev), fp)
  {
    hide Inv, Enabled, SeenOk, Next;
    match ev
    case CacheResult(_, _, _, _, _, _) => SeenAfterCaching(w, ev, fp);
    case Finish(_, _, _) => SeenAfterFinish(w, ev, fp);
    case MarkDirty(_, _) => SeenAfterMark(w, ev, fp);
    case _ => SeenStays(w, ev, fp);
  }

  lemma SeenAfterMark(w: World, ev: Event, fp: Fingerprint)
    requires Inv(w) && Enabled(w, ev, DIRTY_TTL - LAG) && ev.MarkDirty? && fp in Next(w, ev).st.cache
    ensures SeenOk(Next(w, ev), fp)
  {
    hide NoticeOk, RunningOk;
    assert fp in w.st.cache && SeenOk(w, fp);
  }

  lemma SeenStays(w: World, ev: Event, fp: Fingerprint)
    requires Inv(w) && Enabled(w, ev, DIRTY_TTL - LAG) && fp in Next(w, ev).st.cache
    requires !ev.MarkDirty? && !ev.CacheResult? && !ev.Finish?
    ensures SeenOk(Next(w, ev), fp)
  {
    var w' := Next(w, ev);
    assert fp in w.st.cache && w'.st.cache[fp].added == w.st.cache[fp].added && w'.history == w.history by {
      hide Inv, DirtySet, Recent, Due;
    }
    assert w'.seen == w.seen && w'.dated == w.dated && w'.clock >= w.clock by {
      hide Inv, DirtySet, Recent, Due, Served;
    }
    assert SeenOk(w, fp);
    hide Next, Enabled, LogOk, NoticeOk, RunningOk;
  }

  lemma SeenAfterCaching(w: World, ev: Event, fp: Fingerprint)
    requires Inv(w) && Enabled(w, ev, DIRTY_TTL - LAG) && ev.CacheResult? && fp in Next(w, ev).st.cache
    ensures SeenOk(Next(w, ev), fp)
  {
    hide NoticeOk, RunningOk;
    if fp == ev.fp {
      assert forall i :: 0 <= i < |w.history| ==> w.history[i] in w.history;
    } else {
      assert fp in w.st.cache && SeenOk(w, fp);
    }
  }

  lemma SeenAfterFinish(w: World, ev: Event, fp: Fingerprint)
    requires Inv(w) && Enabled(w, ev, DIRTY_TTL - LAG) && ev.Finish? && fp in Next(w, ev).st.cache
    ensures SeenOk(Next(w, ev), fp)
  {
    hide NoticeOk;
    assert fp in w.st.cache && SeenOk(w, fp);
  }

  /** A mark in the log that hits the entry shows up among the dirty assets. */
  lemma MarkShows(dirty: seq<Mark>, e: Entry, m: Mark)
    requires e.added > 0.0 && m in dirty && Hits(m, e)
    ensures e.req * DirtySet(dirty, e.added) != {}
  {
    var i :| 0 <= i < |dirty| && dirty[i] == m;
    var q :| q in m.req * e.req;
    DirtySetMeaning(dirty, e.added, q);
    assert q in e.req * DirtySet(dirty, e.added);
  }

  /** An entry the refresh leaves alone was cached too recently to judge, or nothing
      it depends on has been marked since. */
  lemma SkippedIsFresh(w: World, fp: Fingerprint, now: real)
    requires Inv(w) && fp in w.st.cache && !Due(w.st, fp, now) && w.started <= now
    requires TimedOut !in w.st.cache[fp].req
    ensures forall m :: m in w.history && Hits(m, w.st.cache[fp]) ==> m.ts >= w.started - LAG
  {
    var e := w.st.cache[fp];
    assert SeenOk(w, fp) && NoticeOk(w, fp);
    forall m | m in w.history && Hits(m, e) ensures m.ts >= w.started - LAG {
      if m in w.st.dirty {
        MarkShows(w.st.dirty, e, m);
      }
    }
  }

  lemma NoticeStaysOk(w: World, ev: Event, fp: Fingerprint)
    requires Inv(w) && Enabled(w, ev, DIRTY_TTL - LAG) && fp in Next(w, ev).st.cache
    ensures NoticeOk(Next(w, ev), fp)
  {
    hide SeenOk, RunningOk, DirtySet, Due;
    match ev
    case Examine(now, fp', runtime) =>
      assert NoticeOk(w, fp);
      if fp == fp' && !Due(w.st, fp, now) && TimedOut !in w.st.cache[fp].req {
        SkippedIsFresh(w, fp, now);
      }
    case Finish(_, _, _) => FinishIsNoticed(w, ev, fp);
    case Begin(_) =>
    case _ =>
      assert fp in w.st.cache ==> NoticeOk(w, fp);
  }

  lemma FinishIsNoticed(w: World, ev: Event, fp: Fingerprint)
    requires Inv(w) && Enabled(w, ev, DIRTY_TTL - LAG) && ev.Finish? && fp in Next(w, ev).st.cache
    ensures NoticeOk(Next(w, ev), fp)
  {
    hide SeenOk, Due, DirtySet, Recent;
    assert fp in w.st.cache && NoticeOk(w, fp);
  }

  lemma InvKept(w: World, ev: Event)
    requires Inv(w) && Enabled(w, ev, DIRTY_TTL - LAG)
    ensures Inv(Next(w, ev))
  {
    LogStaysOk(w, ev);
    RunningStaysOk(w, ev);
    forall fp | fp in Next(w, ev).st.cache ensures SeenOk(Next(w, ev), fp) && NoticeOk(Next(w, ev), fp) {
      SeenStaysOk(w, ev, fp);
      NoticeStaysOk(w, ev, fp);
    }
    hide Next, Enabled, LogOk, RunningOk, SeenOk, NoticeOk;
  }

  lemma LogStaysOk(w: World, ev: Event)
    requires Inv(w) && Enabled(w, ev, DIRTY_TTL - LAG)
    ensures LogOk(Next(w, ev))
  {
    hide SeenOk, NoticeOk, RunningOk, Due, DirtySet;
  }

  lemma RunningStaysOk(w: World, ev: Event)
    requires Inv(w) && Enabled(w, ev, DIRTY_TTL - LAG)
    ensures RunningOk(Next(w, ev))
  {
    hide SeenOk, NoticeOk, Due, DirtySet, Recent;
    assert forall i :: 0 <= i < |w.history| ==> w.history[i] in w.history;
  }

  lemma {:induction false} RunKeepsInv(now: real, events: seq<Event>)
    requires now > 0.0 && AllEnabled(Init(now), events, DIRTY_TTL - LAG)
    ensures Inv(Run(Init(now), events))
  {
    if events != [] {
      var n := |events| - 1;
      assert forall i :: 0 <= i < n ==> events[..n][..i] == events[..i] && events[..n][i] == events[i];
      RunKeepsInv(now, events[..n]);
      InvKept(Run(Init(now), events[..n]), events[n]);
    }
  }

  predicate Touches(w: World, fp: Fingerprint, i: nat)
    requires fp in w.st.cache && i < |w.history|
  {
    w.history[i].req * w.st.cache[fp].req != {}
  }

  /** No mark made since the command started touches what its result depends on, except
      marks that are no later than the time the entry was dated. */
  ghost predicate Fresh(w: World, fp: Fingerprint)
    requires fp in w.st.cache && fp in w.seen
  {
    forall i :: w.seen[fp] <= i < |w.history| ==>
      w.history[i].req * w.st.cache[fp].req == {} || w.history[i].ts <= w.st.cache[fp].added
  }

  /** In every run whose refreshes start at most DIRTY_TTL - LAG apart, a result is
      served exactly when it is old enough, not marked as timed out, and fresh:
      although old marks are thrown away and refreshes run out of time. */
  lemma ServedExactlyWhenFresh(now: real, events: seq<Event>, fp: Fingerprint, t: real)
    requires now > 0.0 && AllEnabled(Init(now), events, DIRTY_TTL - LAG)
    ensures var w := Run(Init(now), events);
      && (fp in w.st.cache ==> fp in w.seen)
      && (Served(w.st, fp, t) <==>
            fp in w.st.cache && w.st.cache[fp].added <= t - LAG && TimedOut !in w.st.cache[fp].req && Fresh(w, fp))
  {
    RunKeepsInv(now, events);
    hide *;
    ServedIffFresh(Run(Init(now), events), fp, t);
  }

  lemma ServedIffFresh(w: World, fp: Fingerprint, t: real)
    requires Inv(w)
    ensures fp in w.st.cache ==> fp in w.seen
    ensures Served(w.st, fp, t) <==>
      fp in w.st.cache && w.st.cache[fp].added <= t - LAG && TimedOut !in w.st.cache[fp].req && Fresh(w, fp)
  {
    if fp in w.st.cache {
      var e := w.st.cache[fp];
      assert SeenOk(w, fp);
      DirtySetMeaning(w.st.dirty, e.added, TimedOut);
      assert TimedOut in e.req ==> TimedOut in e.req * DirtySet(w.st.dirty, e.added);
      if e.req * DirtySet(w.st.dirty, e.added) == {} {
        ServedIsFresh(w, fp);
      } else if TimedOut !in e.req && Fresh(w, fp) {
        FreshIsServed(w, fp);
      }
    }
  }

  lemma ServedIsFresh(w: World, fp: Fingerprint)
    requires Inv(w) && fp in w.st.cache && fp in w.seen
    requires w.st.cache[fp].req * DirtySet(w.st.dirty, w.st.cache[fp].added) == {}
    ensures Fresh(w, fp)
  {
    var e := w.st.cache[fp];
    assert SeenOk(w, fp) && NoticeOk(w, fp);
    DirtySetMeaning(w.st.dirty, e.added, TimedOut);
    assert TimedOut in e.req ==> TimedOut in e.req * DirtySet(w.st.dirty, e.added);
    forall i | w.seen[fp] <= i < |w.history| ensures w.history[i].req * e.req == {} || w.history[i].ts <= e.added {
      var m := w.history[i];
      assert m in w.history;
      if Hits(m, e) && m in w.st.dirty {
        MarkShows(w.st.dirty, e, m);
      }
    }
  }

  lemma MarkIsOld(w: World, fp: Fingerprint, m: Mark, q: Req)
    requires fp in w.st.cache && SeenOk(w, fp) && Fresh(w, fp) && m in w.history
    requires q in m.req && q in w.st.cache[fp].req
    ensures m.ts <= w.st.cache[fp].added
  {
    var j :| 0 <= j < |w.history| && w.history[j] == m;
    assert q in m.req * w.st.cache[fp].req;
  }

  lemma FreshIsServed(w: World, fp: Fingerprint)
    requires Inv(w) && fp in w.st.cache && fp in w.seen && Fresh(w, fp)
    requires TimedOut !in w.st.cache[fp].req
    ensures w.st.cache[fp].req * DirtySet(w.st.dirty, w.st.cache[fp].added) == {}
  {
    var e := w.st.cache[fp];
    assert SeenOk(w, fp);
    forall q | q in e.req ensures q !in DirtySet(w.st.dirty, e.added) {
      DirtySetMeaning(w.st.dirty, e.added, q);
      forall i | 0 <= i < |w.st.dirty| && q in w.st.dirty[i].req ensures w.st.dirty[i].ts <= e.added {
        MarkIsOld(w, fp, w.st.dirty[i], q);
      }
    }
  }

  // ----- Which result is served

  /** What the commands have delivered last: a command caches its result, and a refresh
      stores what the command it runs again gives, unless the entry is another by then. */
  function Delivered(now: real, events: seq<Event>): map<Fingerprint, Result> {
    if events == [] then map[] else
      var n := |events| - 1;
      var before, w := Delivered(now, events[..n]), Run(Init(now), events[..n]);
      match events[n]
      case CacheResult(_, _, fp, _, _, result) => before[fp := result]
      case Finish(_, _, Some(v)) =>
        if w.running.Some? && w.running.value.fp in w.st.cache
           && w.st.cache[w.running.value.fp].added == w.running.value.entry.added
        then before[w.running.value.fp := v] else before
      case _ => before
  }

  /** What is served is what the last command delivered. */
  lemma ServedIsDelivered(now: real, events: seq<Event>, fp: Fingerprint, t: real)
    requires Served(Run(Init(now), events).st, fp, t)
    ensures fp in Delivered(now, events) && Run(Init(now), events).st.cache[fp].result == Delivered(now, events)[fp]
  {
    CachedIsDelivered(now, events);
  }

  lemma {:induction false} CachedIsDelivered(now: real, events: seq<Event>)
    ensures var cache := Run(Init(now), events).st.cache;
      forall fp :: fp in cache ==> fp in Delivered(now, events) && cache[fp].result == Delivered(now, events)[fp]
  {
    if events != [] {
      var n := |events| - 1;
      CachedIsDelivered(now, events[..n]);
      ResultsStay(Run(Init(now), events[..n]), events[n]);
      hide Next;
    }
  }

  /** Where an event leaves the results of entries alone, and what else it stores. */
  lemma ResultsStay(w: World, ev: Event)
    ensures forall fp :: fp in Next(w, ev).st.cache ==>
      if ev.CacheResult? && fp == ev.fp then Next(w, ev).st.cache[fp].result == ev.result
      else
        && fp in w.st.cache
        && Next(w, ev).st.cache[fp].result ==
             if ev.Finish? && ev.outcome.Some? && w.running.Some? && fp == w.running.value.fp
                && w.st.cache[fp].added == w.running.value.entry.added
             then ev.outcome.value else w.st.cache[fp].result
  {
    hide DirtySet, Recent, Due;
  }

  // ----- When a served result is up to date

  /** No mark made since the command started touches what its result depends on. */
  ghost predicate UpToDate(w: World, fp: Fingerprint)
    requires fp in w.st.cache && fp in w.seen
  {
    forall i :: w.seen[fp] <= i < |w.history| ==> !Touches(w, fp, i)
  }

  /** Something the result depends on was marked while its command was being run. */
  ghost predicate MarkedMeanwhile(w: World, fp: Fingerprint)
    requires fp in w.st.cache && fp in w.seen && fp in w.dated
  {
    exists i :: w.seen[fp] <= i < w.dated[fp] && i < |w.history| && Touches(w, fp, i)
  }

  /** Something it depends on was marked afterwards, at the very time it was dated. */
  ghost predicate MarkedAtOnce(w: World, fp: Fingerprint)
    requires fp in w.st.cache && fp in w.dated
  {
    exists i :: w.dated[fp] <= i < |w.history| && Touches(w, fp, i) && w.history[i].ts == w.st.cache[fp].added
  }

  /** In every run with timely refreshes, a result that is served is up to date unless
      it was marked while its command was being run or at the time it was dated. */
  lemma ServedIsUpToDateExactly(now: real, events: seq<Event>, fp: Fingerprint, t: real)
    requires now > 0.0 && AllEnabled(Init(now), events, DIRTY_TTL - LAG)
    requires Served(Run(Init(now), events).st, fp, t)
    ensures var w := Run(Init(now), events);
      && fp in w.seen && fp in w.dated
      && (UpToDate(w, fp) <==> !MarkedMeanwhile(w, fp) && !MarkedAtOnce(w, fp))
  {
    RunKeepsInv(now, events);
    ServedExactlyWhenFresh(now, events, fp, t);
    hide Run, AllEnabled, Served, Init;
    FreshIsUpToDate(Run(Init(now), events), fp);
  }

  lemma FreshIsUpToDate(w: World, fp: Fingerprint)
    requires Inv(w) && fp in w.st.cache && fp in w.seen && Fresh(w, fp)
    ensures fp in w.dated
    ensures UpToDate(w, fp) <==> !MarkedMeanwhile(w, fp) && !MarkedAtOnce(w, fp)
  {
    assert SeenOk(w, fp);
    hide LogOk, RunningOk, NoticeOk;
    forall i | w.seen[fp] <= i < |w.history| && Touches(w, fp, i)
      ensures i >= w.dated[fp] ==> w.history[i].ts == w.st.cache[fp].added
    {}
  }

  /** What callers must see to: nothing a result depends on is marked between the start
      of its command and its caching, nor at the very time it is dated. */
  ghost predicate Quiet(w: World, ev: Event) {
    match ev
    case CacheResult(_, c, _, _, req, _) =>
      c in w.commands ==> forall i :: w.commands[c] <= i < |w.history| ==> w.history[i].req * req <= {TimedOut}
    case MarkDirty(now, req) =>
      && (forall fp :: fp in w.st.cache && w.st.cache[fp].added == now ==> req * w.st.cache[fp].req <= {TimedOut})
      && (w.running.Some? && w.running.value.at == now ==> req * w.running.value.entry.req <= {TimedOut})
    case _ => true
  }

  ghost predicate AllQuiet(w: World, events: seq<Event>) {
    forall i :: 0 <= i < |events| ==> Quiet(Run(w, events[..i]), events[i])
  }

  /** Marks made since a position touch the assets only later than the given time. */
  ghost predicate LaterOnly(w: World, first: nat, req: set<Req>, time: real) {
    forall i :: first <= i < |w.history| && w.history[i].ts <= time ==> w.history[i].req * req <= {TimedOut}
  }

  ghost predicate LaterFor(w: World, fp: Fingerprint)
    requires fp in w.st.cache && fp in w.seen
  {
    LaterOnly(w, w.seen[fp], w.st.cache[fp].req, w.st.cache[fp].added)
  }

  ghost predicate QuietSoFar(w: World) {
    && (forall fp :: fp in w.st.cache && fp in w.seen ==> LaterFor(w, fp))
    && (w.running.Some? ==> LaterOnly(w, w.running.value.seen, w.running.value.entry.req, w.running.value.at))
  }

  lemma QuietKept(w: World, ev: Event)
    requires Inv(w) && Enabled(w, ev, DIRTY_TTL - LAG) && QuietSoFar(w) && Quiet(w, ev)
    ensures QuietSoFar(Next(w, ev))
  {
    forall fp | fp in Next(w, ev).st.cache && fp in Next(w, ev).seen ensures LaterFor(Next(w, ev), fp) {
      QuietEntry(w, ev, fp);
    }
    QuietRunning(w, ev);
    hide Next, Enabled, LaterOnly, Quiet, Inv;
  }

  lemma QuietRunning(w: World, ev: Event)
    requires Inv(w) && Enabled(w, ev, DIRTY_TTL - LAG) && QuietSoFar(w) && Quiet(w, ev)
    ensures Next(w, ev).running.Some? ==>
      var r := Next(w, ev).running.value; LaterOnly(Next(w, ev), r.seen, r.entry.req, r.at)
  {
    hide NoticeOk, SeenOk, LogOk, DirtySet, Due, Recent;
  }

  lemma QuietEntry(w: World, ev: Event, fp: Fingerprint)
    requires Inv(w) && Enabled(w, ev, DIRTY_TTL - LAG) && QuietSoFar(w) && Quiet(w, ev)
    requires fp in Next(w, ev).st.cache && fp in Next(w, ev).seen
    ensures LaterFor(Next(w, ev), fp)
  {
    hide NoticeOk, LogOk, DirtySet, Due, Recent;
    if ev.CacheResult? {
      hide RunningOk;
      assert fp in w.st.cache ==> SeenOk(w, fp) && (fp in w.seen ==> LaterFor(w, fp));
    } else if ev.Finish? {
      QuietFinish(w, ev, fp);
    } else {
      hide RunningOk;
      assert fp in w.st.cache && SeenOk(w, fp) && LaterFor(w, fp);
    }
  }

  lemma QuietFinish(w: World, ev: Event, fp: Fingerprint)
    requires Inv(w) && Enabled(w, ev, DIRTY_TTL - LAG) && QuietSoFar(w) && ev.Finish?
    requires fp in Next(w, ev).st.cache && fp in Next(w, ev).seen
    ensures LaterFor(Next(w, ev), fp)
  {
    hide NoticeOk, LogOk;
    assert fp in w.st.cache && SeenOk(w, fp) && LaterFor(w, fp);
  }
  lemma {:induction false} RunStaysQuiet(now: real, events: seq<Event>)
    requires now > 0.0 && AllEnabled(Init(now), events, DIRTY_TTL - LAG) && AllQuiet(Init(now), events)
    ensures QuietSoFar(Run(Init(now), events))
  {
    if events != [] {
      var n := |events| - 1;
      assert forall i :: 0 <= i < n ==> events[..n][..i] == events[..i] && events[..n][i] == events[i];
      RunStaysQuiet(now, events[..n]);
      RunKeepsInv(now, events[..n]);
      assert Quiet(Run(Init(now), events[..n]), events[n]);
      QuietKept(Run(Init(now), events[..n]), events[n]);
    }
  }

  /** With timely refreshes and callers that see to it, whatever is served is up to
      date. */
  lemma QuietRunIsNeverStale(now: real, events: seq<Event>, fp: Fingerprint, t: real)
    requires now > 0.0 && AllEnabled(Init(now), events, DIRTY_TTL - LAG) && AllQuiet(Init(now), events)
    requires Served(Run(Init(now), events).st, fp, t)
    ensures var w := Run(Init(now), events); fp in w.seen && UpToDate(w, fp)
  {
    RunStaysQuiet(now, events);
    ServedExactlyWhenFresh(now, events, fp, t);
    hide Run, AllEnabled, AllQuiet, Served, Init;
    assert LaterFor(Run(Init(now), events), fp);
  }

  // ----- The bound on the time between refreshes is exact

  lemma OneMore(w: World, events: seq<Event>, ev: Event, gap: real)
    requires AllEnabled(w, events, gap) && Enabled(Run(w, events), ev, gap)
    ensures AllEnabled(w, events + [ev], gap)
    ensures Run(w, events + [ev]) == Next(Run(w, events), ev)
  {
    var more := events + [ev];
    assert more[..|events|] == events;
    assert forall i :: 0 <= i < |events| ==> more[..i] == events[..i];
  }

  /** The run: cache a result, mark what it depends on, refresh, refresh late. */
  function LateMark(late: real): Mark {
    Mark(if late - DIRTY_TTL > 1.1 then 1.05 else (1.0 + late - DIRTY_TTL) / 2.0, {Asset("mail:all")})
  }

  function LateEntry(late: real): Entry {
    Entry(late, {Asset("mail:all")}, 0, 1.0)
  }

  function LateEvent(late: real, i: nat): Event {
    var m, e := LateMark(late), LateEntry(late);
    match i
    case 0 => StartCommand(1.0, 0)
    case 1 => CacheResult(1.0, 0, "fp", e.expires, e.req, e.result)
    case 2 => MarkDirty(m.ts, m.req)
    case 3 => Begin(1.1)
    case 4 => Examine(1.1, "fp", 5.0)
    case _ => Begin(late)
  }

  function LateWorld(late: real, i: nat): World {
    var m, cached := LateMark(late), map["fp" := LateEntry(late)];
    var seen: map<Fingerprint, nat> := map["fp" := 0];
    match i
    case 0 => Init(1.0)
    case 1 => Init(1.0).(commands := map[0 := 0])
    case 2 => World(State(cached, []), [], seen, seen, map[], 1.0, 1.0, {}, None)
    case 3 => World(State(cached, [m]), [m], seen, seen, map[], m.ts, 1.0, {}, None)
    case 4 => World(State(cached, [m]), [m], seen, seen, map[], 1.1, 1.1, {"fp"}, None)
    case 5 => World(State(cached, [m]), [m], seen, seen, map[], 1.1, 1.1, {}, None)
    case _ => World(State(cached, []), [m], seen, seen, map[], late, late, {"fp"}, None)
  }

  lemma RecentOne(m: Mark, cutoff: real)
    ensures Recent([m], cutoff) == if m.ts >= cutoff then [m] else []
    ensures Recent([], cutoff) == []
  {
    assert [m][..0] == [];
  }

  lemma LateMarkIsLate(late: real)
    requires late > DIRTY_TTL + 1.0
    ensures 1.0 < LateMark(late).ts < 1.1 && LateMark(late).ts < late - DIRTY_TTL
  {}

  lemma LateStep(gap: real, i: nat)
    requires gap > DIRTY_TTL - LAG && i < 6
    ensures var late := 1.1 + gap;
      && Enabled(LateWorld(late, i), LateEvent(late, i), gap)
      && Next(LateWorld(late, i), LateEvent(late, i)) == LateWorld(late, i + 1)
  {
    var late := 1.1 + gap;
    LateMarkIsLate(late);
    hide LateMark, Recent, DirtySet;
    if i == 3 {
      RecentOne(LateMark(late), 1.1 - DIRTY_TTL);
    } else if i == 5 {
      RecentOne(LateMark(late), late - DIRTY_TTL);
    }
  }

  function LateEvents(late: real, n: nat): (events: seq<Event>)
    ensures |events| == n
  {
    if n == 0 then [] else LateEvents(late, n - 1) + [LateEvent(late, n - 1)]
  }

  lemma {:induction false} LateRun(gap: real, n: nat)
    requires gap > DIRTY_TTL - LAG && n <= 6
    ensures var events := LateEvents(1.1 + gap, n);
      AllEnabled(Init(1.0), events, gap) && Run(Init(1.0), events) == LateWorld(1.1 + gap, n)
  {
    hide AllEnabled, Run, Next, Enabled, LateWorld, LateEvent, Init;
    if n == 0 {
      LateStart(gap);
    } else {
      LateRun(gap, n - 1);
      LateStep(gap, n - 1);
      OneMore(Init(1.0), LateEvents(1.1 + gap, n - 1), LateEvent(1.1 + gap, n - 1), gap);
    }
  }

  lemma LateStart(gap: real)
    ensures AllEnabled(Init(1.0), [], gap) && Run(Init(1.0), []) == LateWorld(1.1 + gap, 0)
  {}

  /** An entry just too young to be judged by one refresh, marked just after it was
      cached, is served stale once the next refresh comes any later than the bound:
      that refresh discards the mark before looking at the entry. */
  lemma LateRefreshServesStale(gap: real)
    requires gap > DIRTY_TTL - LAG
    ensures exists events, fp, t ::
      && AllEnabled(Init(1.0), events, gap)
      && Served(Run(Init(1.0), events).st, fp, t)
      && fp in Run(Init(1.0), events).seen && !Fresh(Run(Init(1.0), events), fp)
  {
    hide AllEnabled, Run, Next, Enabled, LateWorld, LateEvents, Init, Served, Fresh;
    LateRun(gap, 6);
    LateIsStale(1.1 + gap);
    assert Run(Init(1.0), LateEvents(1.1 + gap, 6)) == LateWorld(1.1 + gap, 6);
  }

  lemma LateIsStale(late: real)
    requires late > DIRTY_TTL + 1.0
    ensures var w := LateWorld(late, 6); Served(w.st, "fp", late) && "fp" in w.seen && "fp" in w.st.cache && !Fresh(w, "fp")
  {
    var w := LateWorld(late, 6);
    LateMarkIsLate(late);
    assert Asset("mail:all") in LateMark(late).req * LateEntry(late).req;
    assert w.history[0].req * w.st.cache["fp"].req != {};
    assert DirtySet([], 1.0) == {TimedOut};
  }

  // ----- Runs that serve what is out of date

  /** The world after events that are each allowed. */
  ghost predicate Reaches(events: seq<Event>, w: World) {
    AllEnabled(Init(1.0), events, DIRTY_TTL - LAG) && Run(Init(1.0), events) == w
  }

  lemma ReachesNext(events: seq<Event>, w: World, ev: Event)
    requires Reaches(events, w) && Enabled(w, ev, DIRTY_TTL - LAG)
    ensures Reaches(events + [ev], Next(w, ev))
  {
    OneMore(Init(1.0), events, ev, DIRTY_TTL - LAG);
  }

  lemma ReachesInit()
    ensures Reaches([], Init(1.0))
  {}

  /** A mark made right after a result, at the same time by the clock, is overlooked. */
  lemma SameInstantIsServed(req: set<Req>, result: Result) returns (events: seq<Event>)
    requires req != {} && TimedOut !in req
    ensures AllEnabled(Init(1.0), events, DIRTY_TTL - LAG)
    ensures var w := Run(Init(1.0), events);
      Served(w.st, "fp", 2.0) && "fp" in w.seen && !UpToDate(w, "fp") && "fp" in w.dated && MarkedAtOnce(w, "fp")
  {
    var w := Init(1.0);
    events := [];
    ReachesInit();
    events, w := Extend(events, w, StartCommand(1.0, 0));
    events, w := Extend(events, w, CacheResult(1.0, 0, "fp", 300.0, req, result));
    events, w := Extend(events, w, MarkDirty(1.0, req));
    DirtyOne(1.0, 1.0, req);
    assert Touches(w, "fp", 0);
  }

  lemma Extend(events: seq<Event>, w: World, ev: Event) returns (events': seq<Event>, w': World)
    requires Reaches(events, w) && Enabled(w, ev, DIRTY_TTL - LAG)
    ensures events' == events + [ev] && w' == Next(w, ev) && Reaches(events', w')
  {
    events', w' := events + [ev], Next(w, ev);
    ReachesNext(events, w, ev);
  }

  lemma DirtyOne(time: real, after: real, req: set<Req>)
    ensures after > 0.0 && time <= after ==> DirtySet([Mark(time, req)], after) == {TimedOut}
    ensures time >= after ==> Recent([Mark(time, req)], after) == [Mark(time, req)]
    ensures [] + [Mark(time, req)] == [Mark(time, req)]
  {
    assert [Mark(time, req)][..0] == [];
  }

  /** A command is started, an asset it depends on is marked, and then its result is
      cached.  The next refresh leaves it alone, and it is served out of date. */
  lemma SlowCommandIsServed(req: set<Req>, result: Result) returns (events: seq<Event>)
    requires req != {} && TimedOut !in req
    ensures AllEnabled(Init(1.0), events, DIRTY_TTL - LAG)
    ensures var w := Run(Init(1.0), events);
      && w.started == 4.0 && w.pending == {}
      && Served(w.st, "fp", 5.0) && "fp" in w.seen && !UpToDate(w, "fp") && "fp" in w.dated && MarkedMeanwhile(w, "fp")
  {
    var w := Init(1.0);
    events := [];
    ReachesInit();
    events, w := Extend(events, w, StartCommand(1.0, 0));
    events, w := Extend(events, w, MarkDirty(2.0, req));
    events, w := Extend(events, w, CacheResult(3.0, 0, "fp", 300.0, req, result));
    DirtyOne(2.0, 3.0, req);
    DirtyOne(2.0, 4.0 - DIRTY_TTL, req);
    events, w := Extend(events, w, Begin(4.0));
    events, w := Extend(events, w, Examine(4.0, "fp", 5.0));
    assert Touches(w, "fp", 0);
  }

  /** The command that a refresh runs again caches its result in the same way, so that
      a mark made while it runs is lost too: the refresh finds a newer result. */
  lemma SlowRefreshIsServed(req: set<Req>, result: Result) returns (events: seq<Event>)
    requires req != {} && TimedOut !in req
    ensures AllEnabled(Init(1.0), events, DIRTY_TTL - LAG)
    ensures var w := Run(Init(1.0), events);
      && w.started == 3.0 && w.pending == {}
      && Served(w.st, "fp", 6.0) && "fp" in w.seen && !UpToDate(w, "fp") && "fp" in w.dated && MarkedMeanwhile(w, "fp")
  {
    var w;
    events, w := DirtyEntryIsExamined(req, result);
    StartAgain(req, result);
    MarkAgain(req, result);
    CacheAgain(req, result);
    FinishLate(req, result);
    hide Next, Enabled, Reaches, Served, UpToDate, MarkedMeanwhile, Examined, Restarted, Remarked, Renewed, Finished;
    events, w := Extend(events, w, StartCommand(3.0, 1));
    events, w := Extend(events, w, MarkDirty(4.0, req));
    events, w := Extend(events, w, CacheResult(5.0, 1, "fp", 300.0, req, result));
    events, w := Extend(events, w, Finish(5.0, 0.0, Some(result)));
    ReachesMeans(events, w);
  }

  lemma ReachesMeans(events: seq<Event>, w: World)
    requires Reaches(events, w)
    ensures AllEnabled(Init(1.0), events, DIRTY_TTL - LAG) && Run(Init(1.0), events) == w
  {}

  /** The refresh has started to run the command of a dirty entry again. */
  function Examined(req: set<Req>, result: Result): World {
    var e, m := Entry(300.0, req, result, 1.0), Mark(2.0, req);
    World(State(map["fp" := e], [m]), [m], map["fp" := 0], map["fp" := 0], map[], 3.0, 3.0, {"fp"},
          Some(Running("fp", e, 3.0, 1, true)))
  }

  function Restarted(req: set<Req>, result: Result): World {
    Examined(req, result).(commands := map[1 := 1])
  }

  function Remarked(req: set<Req>, result: Result): World {
    var w, marks := Restarted(req, result), [Mark(2.0, req), Mark(4.0, req)];
    w.(clock := 4.0, st := w.st.(dirty := marks), history := marks)
  }

  function Renewed(req: set<Req>, result: Result): World {
    var w := Remarked(req, result);
    w.(clock := 5.0, st := w.st.(cache := map["fp" := Entry(300.0, req, result, 5.0)]), seen := map["fp" := 1],
       dated := map["fp" := 2], commands := map[], running := Some(w.running.value.(same := false)))
  }

  function Finished(req: set<Req>, result: Result): World {
    Renewed(req, result).(pending := {}, running := None)
  }

  lemma StartAgain(req: set<Req>, result: Result)
    ensures var w, ev := Examined(req, result), StartCommand(3.0, 1);
      Enabled(w, ev, DIRTY_TTL - LAG) && Next(w, ev) == Restarted(req, result)
  {}

  lemma MarkAgain(req: set<Req>, result: Result)
    ensures var w, ev := Restarted(req, result), MarkDirty(4.0, req);
      Enabled(w, ev, DIRTY_TTL - LAG) && Next(w, ev) == Remarked(req, result)
  {
    assert [Mark(2.0, req)] + [Mark(4.0, req)] == [Mark(2.0, req), Mark(4.0, req)];
  }

  lemma CacheAgain(req: set<Req>, result: Result)
    ensures var w, ev := Remarked(req, result), CacheResult(5.0, 1, "fp", 300.0, req, result);
      Enabled(w, ev, DIRTY_TTL - LAG) && Next(w, ev) == Renewed(req, result)
  {}

  lemma FinishLate(req: set<Req>, result: Result)
    requires req != {} && TimedOut !in req
    ensures var w, ev := Renewed(req, result), Finish(5.0, 0.0, Some(result));
      Enabled(w, ev, DIRTY_TTL - LAG) && Next(w, ev) == Finished(req, result)
    ensures var w := Finished(req, result);
      && w.started == 3.0 && w.pending == {}
      && Served(w.st, "fp", 6.0) && "fp" in w.seen && !UpToDate(w, "fp") && "fp" in w.dated && MarkedMeanwhile(w, "fp")
  {
    DirtyTwo(req);
    assert Touches(Finished(req, result), "fp", 1);
  }

  lemma DirtyEntryIsExamined(req: set<Req>, result: Result) returns (events: seq<Event>, w: World)
    requires req != {} && TimedOut !in req
    ensures Reaches(events, w) && w == Examined(req, result)
  {
    events, w := ResultIsMarked(req, result);
    DirtyOne(2.0, 3.0 - DIRTY_TTL, req);
    events, w := Extend(events, w, Begin(3.0));
    DirtyTwo(req);
    assert w.pending == {"fp"} && w.st.cache == map["fp" := Entry(300.0, req, result, 1.0)];
    events, w := Extend(events, w, Examine(3.0, "fp", 5.0));
  }

  lemma ResultIsMarked(req: set<Req>, result: Result) returns (events: seq<Event>, w: World)
    ensures Reaches(events, w)
    ensures var e, m := Entry(300.0, req, result, 1.0), Mark(2.0, req);
      w == World(State(map["fp" := e], [m]), [m], map["fp" := 0], map["fp" := 0], map[], 2.0, 1.0, {}, None)
  {
    hide DirtySet, Recent, Due, Served, Reaches;
    w := Init(1.0);
    events := [];
    ReachesInit();
    events, w := Extend(events, w, StartCommand(1.0, 0));
    events, w := Extend(events, w, CacheResult(1.0, 0, "fp", 300.0, req, result));
    events, w := Extend(events, w, MarkDirty(2.0, req));
  }

  lemma DirtyTwo(req: set<Req>)
    requires req != {}
    ensures DirtySet([Mark(2.0, req)], 1.0) == {TimedOut} + req
    ensures DirtySet([Mark(2.0, req), Mark(4.0, req)], 5.0) == {TimedOut}
    ensures [Mark(2.0, req)] + [Mark(4.0, req)] == [Mark(2.0, req), Mark(4.0, req)]
  {
    assert [Mark(2.0, req)][..0] == [];
    assert [Mark(2.0, req), Mark(4.0, req)][..1] == [Mark(2.0, req)];
    DirtyOne(2.0, 5.0, req);
  }

  // ----- The cache object

  /** One turn of the refresh loop; the outcome is what running the command again
      gives, or None if it raises. */
  function ExamineOne(st: State, fp: Fingerprint, now: real, deadline: real, extend: real, outcome: Option<Result>): State {
    if fp !in st.cache || !Due(st, fp, now) then st
    else if now < deadline && outcome.Some? then DoStore(st, fp, st.cache[fp], now, extend, outcome.value)
    else DoFlag(st, fp)
  }

  /** A turn of the loop is the pair of events that the runs above are made of. */
  lemma ExamineOneIsTwoEvents(w: World, fp: Fingerprint, now: real, runtime: real, later: real, extend: real,
                              outcome: Option<Result>)
    requires w.running.None?
    ensures var w1 := Next(w, Examine(now, fp, runtime));
      (if w1.running.Some? then Next(w1, Finish(later, extend, outcome)) else w1).st
      == ExamineOne(w.st, fp, now, w.started + runtime, extend, outcome)
  {}

  /** What a turn does to the entry: one that is old enough and depends on something
      marked since it was added gets the new result, dated now, if there is time and
      the command succeeds, and is flagged if not; any other entry stays. */
  ghost predicate TurnRight(before: State, after: State, fp: Fingerprint, now: real, deadline: real, extend: real,
                            outcome: Option<Result>) {
    fp in before.cache && before.cache[fp].added > 0.0 ==>
      && fp in after.cache
      && var e, e' := before.cache[fp], after.cache[fp];
         if e.added + 0.1 < now && (TimedOut in e.req || exists m :: m in before.dirty && m.ts > e.added && m.req * e.req != {}) then
           if now < deadline && outcome.Some? then
             e'.result == outcome.value && e'.added == now && e'.req == e.req - {TimedOut}
             && e'.expires ==
                  if extend <= 0.0 || now + 5.0 * extend <= e.expires then e.expires
                  else if e.expires + extend <= now + 5.0 * extend then e.expires + extend else now + 5.0 * extend
           else e' == e.(req := e.req + {TimedOut})
         else e' == e
  }

  /** What the start of a refresh leaves: entries not yet expired, and the marks of
      the last ten seconds. */
  ghost predicate BegunRight(before: State, begun: State, now: real) {
    && (forall fp :: fp in begun.cache <==> fp in before.cache && before.cache[fp].expires >= now)
    && (forall fp :: fp in begun.cache ==> begun.cache[fp] == before.cache[fp])
    && (forall m :: m in begun.dirty <==> m in before.dirty && m.ts >= now - 10.0)
  }

  lemma BeginIsRight(st: State, now: real)
    ensures BegunRight(st, DoBegin(st, now), now)
  {}

  /** When an entry depends on something in the dirty set. */
  lemma DirtyMeans(dirty: seq<Mark>, e: Entry)
    requires e.added > 0.0
    ensures e.req * DirtySet(dirty, e.added) != {} <==>
      TimedOut in e.req || exists m :: m in dirty && m.ts > e.added && m.req * e.req != {}
  {
    if e.req * DirtySet(dirty, e.added) != {} {
      var q :| q in e.req * DirtySet(dirty, e.added);
      DirtySetMeaning(dirty, e.added, q);
      if q != TimedOut {
        var i :| 0 <= i < |dirty| && dirty[i].ts > e.added && q in dirty[i].req;
        assert dirty[i] in dirty && q in dirty[i].req * e.req;
      }
    }
    if TimedOut in e.req {
      DirtySetMeaning(dirty, e.added, TimedOut);
      assert TimedOut in e.req * DirtySet(dirty, e.added);
    }
    if m :| m in dirty && m.ts > e.added && m.req * e.req != {} {
      MarkShows(dirty, e, m);
    }
  }

  lemma ExamineOneIsRight(st: State, fp: Fingerprint, now: real, deadline: real, extend: real, outcome: Option<Result>)
    ensures TurnRight(st, ExamineOne(st, fp, now, deadline, extend, outcome), fp, now, deadline, extend, outcome)
    ensures ExamineOne(st, fp, now, deadline, extend, outcome).dirty == st.dirty
    ensures forall g :: g != fp ==>
      var st' := ExamineOne(st, fp, now, deadline, extend, outcome);
      (g in st'.cache <==> g in st.cache) && (g in st.cache ==> st'.cache[g] == st.cache[g])
  {
    if fp in st.cache && st.cache[fp].added > 0.0 { DirtyMeans(st.dirty, st.cache[fp]); }
    hide DirtySet;
  }

  function ExamineAll(st: State, order: seq<Fingerprint>, times: seq<real>, deadline: real, extend: real,
                      outcomes: seq<Option<Result>>): State
    requires |times| == |outcomes| >= |order|
  {
    if order == [] then st else
      var last := |order| - 1;
      ExamineOne(ExamineAll(st, order[..last], times, deadline, extend, outcomes),
                 order[last], times[last], deadline, extend, outcomes[last])
  }

  class Cache {
    var cache: map<Fingerprint, Entry>
    var dirty: seq<Mark>

    function St(): State
      reads this
    {
      State(cache, dirty)
    }

    constructor ()
      ensures St() == State(map[], [])
    {
      cache, dirty := map[], [];
    }

    method CacheResult(now: real, fp: Fingerprint, expires: real, req: set<Req>, result: Result)
      modifies this
      ensures St() == DoCache(old(St()), now, fp, expires, req, result)
    {
      cache := cache[fp := Entry(expires, req, result, now)];
    }

    method MarkDirty(now: real, req: set<Req>)
      modifies this
      ensures St() == DoMark(old(St()), now, req)
    {
      dirty := dirty + [Mark(now, req)];
    }

    method CollectDirty(after: real) returns (r: set<Req>)
      ensures r == DirtySet(dirty, after)
    {
      r := {TimedOut};
      var i := 0;
      while i < |dirty|
        invariant 0 <= i <= |dirty| && r == DirtySet(dirty[..i], after)
      {
        assert dirty[..i + 1][..i] == dirty[..i];
        if after == 0.0 || dirty[i].ts > after {
          r := r + dirty[i].req;
        }
        i := i + 1;
      }
      assert dirty[..|dirty|] == dirty;
    }

    /** None stands for the KeyError.  Without the dirty check anything cached is
        returned. */
    method GetResult(now: real, fp: Fingerprint, dirtyCheck: bool, extend: real) returns (r: Option<Result>)
      modifies this
      ensures dirtyCheck ==> St() == DoGet(old(St()), now, fp, extend)
      ensures dirtyCheck ==> (r.Some? <==> Served(old(St()), fp, now))
      ensures !dirtyCheck ==> (r.Some? <==> fp in old(cache)) && dirty == old(dirty)
      ensures r.Some? ==> r.value == old(cache)[fp].result && fp in cache && cache[fp].expires == now + extend
      ensures dirtyCheck && fp in old(cache) && old(cache)[fp].added > 0.0 ==>
        var e := old(cache)[fp];
        (r.Some? <==>
           && e.added <= now - 0.1 && TimedOut !in e.req
           && forall m :: m in old(dirty) && m.ts > e.added ==> m.req * e.req == {})
    {
      if fp !in cache {
        return None;
      }
      var e := cache[fp];
      if e.added > 0.0 { DirtyMeans(dirty, e); }
      if dirtyCheck {
        var recent := e.added > now - LAG;
        var marked := CollectDirty(e.added);
        if recent || e.req * marked != {} {
          return None;
        }
      }
      cache := cache[fp := e.(expires := now + extend)];
      r := Some(e.result);
    }

    method DropOld(now: real)
      modifies this
      ensures St() == DoBegin(old(St()), now)
    {
      var todo := cache.Keys;
      while todo != {}
        invariant todo <= old(cache).Keys && dirty == old(dirty)
        invariant cache == map fp | fp in old(cache) && (fp in todo || old(cache)[fp].expires >= now) :: old(cache)[fp]
        decreases todo
      {
        var fp :| fp in todo;
        if cache[fp].expires < now {
          cache := cache - {fp};
        }
        todo := todo - {fp};
      }
      var kept, i := [], 0;
      while i < |dirty|
        invariant 0 <= i <= |dirty| && dirty == old(dirty) && kept == Recent(dirty[..i], now - DIRTY_TTL)
      {
        assert dirty[..i + 1][..i] == dirty[..i];
        if dirty[i].ts >= now - DIRTY_TTL {
          kept := kept + [dirty[i]];
        }
        i := i + 1;
      }
      assert dirty[..|dirty|] == dirty;
      dirty := kept;
    }

    /** The whole refresh, with the times at which the loop reads the clock and the
        outcomes of the commands it runs.  Nothing happens while a user is waiting. */
    method Refresh(liveUsers: nat, now: real, extend: real, runtime: real,
                   times: seq<real>, outcomes: seq<Option<Result>>) returns (order: seq<Fingerprint>)
      requires |times| == |outcomes| >= |cache|
      modifies this
      ensures liveUsers > 0 ==> order == [] && St() == old(St())
      ensures liveUsers == 0 ==>
        var begun := DoBegin(old(St()), now);
        && (forall fp :: fp in order <==> fp in begun.cache) && |order| <= |times|
        && (forall i, j :: 0 <= i < j < |order| ==>
              order[i] != order[j] &&
              begun.cache[order[j]].expires <= begun.cache[order[i]].expires)
        && St() == ExamineAll(begun, order, times, now + runtime, extend, outcomes)
        && BegunRight(old(St()), begun, now)
        && forall i :: 0 <= i < |order| ==> TurnRight(begun, St(), order[i], times[i], now + runtime, extend, outcomes[i])
    {
      hide DoBegin, ExamineAll, ExamineOne, TurnRight, BegunRight;
      order := [];
      if liveUsers > 0 {
        return;
      }
      ghost var before := cache;
      BeginKeeps(St(), now);
      BeginIsRight(St(), now);
      DropOld(now);
      KeysFit(before, cache);
      order := LatestFirst();
      UniqueFits(order, cache.Keys);
      ghost var begun := St();
      TakeTurns(order, times, now + runtime, extend, outcomes);
      forall i | 0 <= i < |order| ensures TurnRight(begun, St(), order[i], times[i], now + runtime, extend, outcomes[i]) {
        ExamineAllIsRight(begun, order, i, times, now + runtime, extend, outcomes);
      }
    }

    method TakeTurns(order: seq<Fingerprint>, times: seq<real>, deadline: real, extend: real,
                     outcomes: seq<Option<Result>>)
      requires |times| == |outcomes| >= |order|
      modifies this
      ensures St() == ExamineAll(old(St()), order, times, deadline, extend, outcomes)
    {
      hide ExamineAll, ExamineOne;
      var i := 0;
      ExamineNone(St(), order, times, deadline, extend, outcomes);
      while i < |order|
        invariant 0 <= i <= |order|
        invariant St() == ExamineAll(old(St()), order[..i], times, deadline, extend, outcomes)
      {
        ExamineNext(old(St()), order, i, times, deadline, extend, outcomes);
        Turn(order[i], times[i], deadline, extend, outcomes[i]);
        i := i + 1;
      }
      assert order[..|order|] == order;
    }

    method Turn(fp: Fingerprint, now: real, deadline: real, extend: real, outcome: Option<Result>)
      modifies this
      ensures St() == ExamineOne(old(St()), fp, now, deadline, extend, outcome)
      ensures TurnRight(old(St()), St(), fp, now, deadline, extend, outcome)
    {
      hide TurnRight;
      ExamineOneIsRight(St(), fp, now, deadline, extend, outcome);
      if fp !in cache {
        return;
      }
      var e := cache[fp];
      var marked := CollectDirty(e.added);
      if e.added + LAG < now && e.req * marked != {} {
        if now < deadline && outcome.Some? {
          var expires := if extend > 0.0 then Min(e.expires + extend, now + 5.0 * extend) else e.expires;
          cache := cache[fp := Entry(Max(expires, cache[fp].expires), e.req - {TimedOut}, outcome.value, now)];
        } else {
          cache := cache[fp := e.(req := e.req + {TimedOut})];
        }
      }
    }

    method LatestFirst() returns (order: seq<Fingerprint>)
      ensures forall fp :: fp in order <==> fp in cache
      ensures forall i, j :: 0 <= i < j < |order| ==> order[i] != order[j] && cache[order[j]].expires <= cache[order[i]].expires
    {
      order := [];
      var todo := cache.Keys;
      while todo != {}
        invariant todo <= cache.Keys
        invariant forall fp :: fp in order <==> fp in cache && fp !in todo
        invariant forall i, j :: 0 <= i < j < |order| ==> order[i] != order[j] && cache[order[j]].expires <= cache[order[i]].expires
        invariant forall i, fp :: 0 <= i < |order| && fp in todo ==> cache[fp].expires <= cache[order[i]].expires
        decreases todo
      {
        LatestExists(cache, todo);
        var fp :| fp in todo && forall g :: g in todo ==> cache[g].expires <= cache[fp].expires;
        assert forall i :: 0 <= i < |order| ==> order[i] in order;
        order := order + [fp];
        todo := todo - {fp};
      }
    }
  }

  lemma BeginKeeps(st: State, now: real)
    ensures DoBegin(st, now).cache.Keys <= st.cache.Keys
  {}

  lemma ExamineNone(st: State, order: seq<Fingerprint>, times: seq<real>, deadline: real, extend: real,
                    outcomes: seq<Option<Result>>)
    requires |times| == |outcomes| >= |order|
    ensures ExamineAll(st, order[..0], times, deadline, extend, outcomes) == st
  {}

  lemma ExamineNext(st: State, order: seq<Fingerprint>, i: nat, times: seq<real>, deadline: real, extend: real,
                    outcomes: seq<Option<Result>>)
    requires |times| == |outcomes| >= |order| > i
    ensures ExamineAll(st, order[..i + 1], times, deadline, extend, outcomes) ==
              ExamineOne(ExamineAll(st, order[..i], times, deadline, extend, outcomes),
                         order[i], times[i], deadline, extend, outcomes[i])
  {
    hide ExamineOne;
    assert order[..i + 1][..i] == order[..i];
  }

  /** The loop leaves the entries it does not come to, and the log, as they are. */
  lemma {:induction false} ExamineAllKeeps(st: State, order: seq<Fingerprint>, times: seq<real>, deadline: real, extend: real,
                    outcomes: seq<Option<Result>>, fp: Fingerprint)
    requires |times| == |outcomes| >= |order| && fp !in order
    ensures SameEntry(st, ExamineAll(st, order, times, deadline, extend, outcomes), fp)
    decreases |order|
  {
    hide ExamineOne, TurnRight;
    if order != [] {
      var last := |order| - 1;
      var st1 := ExamineAll(st, order[..last], times, deadline, extend, outcomes);
      ExamineAllKeeps(st, order[..last], times, deadline, extend, outcomes, fp);
      ExamineOneIsRight(st1, order[last], times[last], deadline, extend, outcomes[last]);
      assert order[last] in order;
    }
  }

  ghost predicate SameEntry(before: State, after: State, fp: Fingerprint) {
    && after.dirty == before.dirty && (fp in after.cache <==> fp in before.cache)
    && (fp in before.cache ==> after.cache[fp] == before.cache[fp])
  }

  /** Each entry has its own turn, whatever happens to the others. */
  lemma {:induction false} ExamineAllIsRight(st: State, order: seq<Fingerprint>, i: nat, times: seq<real>, deadline: real,
                    extend: real, outcomes: seq<Option<Result>>)
    requires |times| == |outcomes| >= |order| > i && forall j, k :: 0 <= j < k < |order| ==> order[j] != order[k]
    ensures TurnRight(st, ExamineAll(st, order, times, deadline, extend, outcomes), order[i], times[i], deadline, extend, outcomes[i])
    decreases |order|
  {
    hide ExamineOne, TurnRight, SameEntry;
    var last := |order| - 1;
    var st1 := ExamineAll(st, order[..last], times, deadline, extend, outcomes);
    var st2 := ExamineOne(st1, order[last], times[last], deadline, extend, outcomes[last]);
    ExamineOneIsRight(st1, order[last], times[last], deadline, extend, outcomes[last]);
    if i == last {
      ExamineAllKeeps(st, order[..last], times, deadline, extend, outcomes, order[i]);
      TurnFromSame(st, st1, st2, order[i], times[i], deadline, extend, outcomes[i]);
    } else {
      ExamineAllIsRight(st, order[..last], i, times, deadline, extend, outcomes);
      assert order[i] != order[last];
      TurnToSame(st, st1, st2, order[i], times[i], deadline, extend, outcomes[i]);
    }
  }

  lemma TurnFromSame(st: State, st1: State, st2: State, fp: Fingerprint, now: real, deadline: real, extend: real,
                     outcome: Option<Result>)
    requires SameEntry(st, st1, fp) && TurnRight(st1, st2, fp, now, deadline, extend, outcome)
    ensures TurnRight(st, st2, fp, now, deadline, extend, outcome)
  {}

  lemma TurnToSame(st: State, st1: State, st2: State, fp: Fingerprint, now: real, deadline: real, extend: real,
                     outcome: Option<Result>)
    requires TurnRight(st, st1, fp, now, deadline, extend, outcome)
    requires (fp in st2.cache <==> fp in st1.cache) && (fp in st1.cache ==> st2.cache[fp] == st1.cache[fp])
    ensures TurnRight(st, st2, fp, now, deadline, extend, outcome)
  {}

  lemma LatestExists(cache: map<Fingerprint, Entry>, todo: set<Fingerprint>)
    requires todo != {} && todo <= cache.Keys
    ensures exists fp :: fp in todo && forall g :: g in todo ==> cache[g].expires <= cache[fp].expires
  {
    var x :| x in todo;
    var rest := todo - {x};
    assert todo == rest + {x};
    if rest == {} {
      assert forall g :: g in todo ==> cache[g].expires <= cache[x].expires;
    } else {
      LatestExists(cache, rest);
      var y :| y in rest && forall g :: g in rest ==> cache[g].expires <= cache[y].expires;
      var z := if cache[x].expires <= cache[y].expires then y else x;
      assert z in todo && forall g :: g in todo ==> cache[g].expires <= cache[z].expires;
    }
  }

  lemma KeysFit(before: map<Fingerprint, Entry>, after: map<Fingerprint, Entry>)
    requires after.Keys <= before.Keys
    ensures |after| <= |before|
  {
    assert before.Keys == after.Keys + (before.Keys - after.Keys);
  }

  lemma UniqueFits(order: seq<Fingerprint>, keys: set<Fingerprint>)
    requires forall i :: 0 <= i < |order| ==> order[i] in keys
    requires forall i, j :: 0 <= i < j < |order| ==> order[i] != order[j]
    ensures |order| <= |keys|
  {
    if order != [] {
      var last := |order| - 1;
      UniqueFits(order[..last], keys - {order[last]});
    }
  }
}
